/** Small generic helpers shared by the model: an optional value, and counting
    and locating elements of a sequence (the LINQ Count and Where/index idioms). */
module Wrappers {

  datatype Option<+T> = None | Some(value: T)

  /** An unsigned 8-bit value, the C# `byte`. */
  type Byte = x: int | 0 <= x < 256

  /** The unchecked C# cast `(byte)x`: the low eight bits of the two's-complement
      representation, which for every int is the Euclidean remainder modulo 256. */
  function ToByte(x: int): (b: Byte)
    ensures 0 <= x < 256 ==> b == x
    ensures -256 <= x < 0 ==> b == x + 256
  {
    x % 256
  }

  /** No element occurs twice. */
  predicate Distinct<T(==)>(s: seq<T>) {
    forall p, q :: 0 <= p < q < |s| ==> s[p] != s[q]
  }

  /** How many elements of `s` equal `v`. */
  function Count<T(==)>(s: seq<T>, v: T): (n: nat)
    ensures n <= |s|
    ensures n == 0 <==> v !in s
  {
    if s == [] then 0
    else Count(s[..|s| - 1], v) + (if s[|s| - 1] == v then 1 else 0)
  }

  /** The positions of `s` holding `v`, in increasing order. */
  function Positions<T(==)>(s: seq<T>, v: T): (r: seq<nat>)
    ensures |r| == Count(s, v)
    ensures forall k :: 0 <= k < |r| ==> r[k] < |s| && s[r[k]] == v
    ensures forall i :: 0 <= i < |s| && s[i] == v ==> i in r
    ensures forall p, q :: 0 <= p < q < |r| ==> r[p] < r[q]
  {
    if s == [] then []
    else
      var r := Positions(s[..|s| - 1], v);
      PositionsSnoc(s, v, r);
      r + (if s[|s| - 1] == v then [|s| - 1] else [])
  }

  /** The positions in a sequence one longer: those of the prefix, then possibly
      the last. */
  lemma PositionsSnoc<T>(s: seq<T>, v: T, r: seq<nat>)
    requires s != []
    requires |r| == Count(s[..|s| - 1], v)
    requires forall k :: 0 <= k < |r| ==> r[k] < |s| - 1 && s[..|s| - 1][r[k]] == v
    requires forall i :: 0 <= i < |s| - 1 && s[..|s| - 1][i] == v ==> i in r
    requires forall p, q :: 0 <= p < q < |r| ==> r[p] < r[q]
    ensures var r' := r + (if s[|s| - 1] == v then [|s| - 1] else []);
      && |r'| == Count(s, v)
      && (forall k :: 0 <= k < |r'| ==> r'[k] < |s| && s[r'[k]] == v)
      && (forall i :: 0 <= i < |s| && s[i] == v ==> i in r')
      && (forall p, q :: 0 <= p < q < |r'| ==> r'[p] < r'[q])
  {
    var init := s[..|s| - 1];
    assert forall i :: 0 <= i < |init| ==> init[i] == s[i];
  }

  /** The sequence read backwards. */
  function Reverse<T>(s: seq<T>): (r: seq<T>)
    ensures |r| == |s|
    ensures forall k :: 0 <= k < |s| ==> r[k] == s[|s| - 1 - k]
  {
    if s == [] then [] else [s[|s| - 1]] + Reverse(s[..|s| - 1])
  }

  /** Reading a repeat-free sequence backwards repeats nothing. */
  lemma ReverseDistinct<T>(s: seq<T>)
    requires Distinct(s)
    ensures Distinct(Reverse(s))
  {
    var r := Reverse(s);
    forall p, q | 0 <= p < q < |r| ensures r[p] != r[q] {
      assert r[p] == s[|s| - 1 - p] && r[q] == s[|s| - 1 - q];
    }
  }

  /** Reversing an element followed by a sequence puts the element last. */
  lemma ReverseCons<T>(x: T, s: seq<T>)
    ensures Reverse([x] + s) == Reverse(s) + [x]
  {
    assert forall k :: 0 <= k < |s| + 1 ==> Reverse([x] + s)[k] == (Reverse(s) + [x])[k];
  }

  /** `s` with position `idx[k]` set to `vals[k]`, for each k in turn; a position
      outside `s` writes nothing. */
  function Overwrite<T>(s: seq<T>, idx: seq<int>, vals: seq<T>): (r: seq<T>)
    requires |idx| == |vals|
    ensures |r| == |s|
    decreases |idx|
  {
    if idx == [] then s
    else
      var r := Overwrite(s, idx[..|idx| - 1], vals[..|vals| - 1]);
      var j := idx[|idx| - 1];
      if 0 <= j < |r| then r[j := vals[|vals| - 1]] else r
  }

  /** With distinct positions, each written position holds its value and the rest are kept. */
  lemma {:induction false} OverwriteAt<T>(s: seq<T>, idx: seq<int>, vals: seq<T>, j: int)
    requires |idx| == |vals| && Distinct(idx) && 0 <= j < |s|
    ensures j !in idx ==> Overwrite(s, idx, vals)[j] == s[j]
    ensures forall k :: 0 <= k < |idx| && idx[k] == j ==> Overwrite(s, idx, vals)[j] == vals[k]
  {
    if idx != [] {
      OverwriteAt(s, idx[..|idx| - 1], vals[..|vals| - 1], j);
    }
  }

  /** A prefix one longer is the prefix and the next element. */
  lemma PrefixSnoc<T>(s: seq<T>, i: nat)
    requires i < |s|
    ensures s[..i + 1] == s[..i] + [s[i]]
    ensures s[..i + 1][..i] == s[..i]
  {
  }

  /** An element of a non-empty sequence is in its front or is its last element. */
  lemma MemberSnoc<T>(s: seq<T>)
    requires s != []
    ensures forall x :: x in s <==> x in s[..|s| - 1] || x == s[|s| - 1]
  {
    assert s == s[..|s| - 1] + [s[|s| - 1]];
  }

  /** An element of a prefix one longer is in the prefix or is the next element. */
  lemma PrefixMember<T>(s: seq<T>, i: nat)
    requires i < |s|
    ensures forall x :: x in s[..i + 1] <==> x in s[..i] || x == s[i]
  {
    assert s[..i + 1] == s[..i] + [s[i]];
  }

  /** The full prefix is the sequence itself. A one-step fact, stated on its own
      so that the proofs that use it stay cheap. */
  lemma PrefixAll<T>(s: seq<T>)
    ensures s[..|s|] == s
  {
  }

  /** The last `|y|` elements of `x + y` are `y`. */
  lemma SuffixOfConcat<T>(x: seq<T>, y: seq<T>)
    ensures (x + y)[|x + y| - |y|..] == y
  {
  }

  /** In a sequence without repeats, an element does not occur before its position. */
  lemma DistinctFresh<T>(s: seq<T>, i: nat)
    requires Distinct(s) && i < |s|
    ensures s[i] !in s[..i]
  {
  }

  /** With distinct in-range positions, every written position holds its value and
      every other position is kept. */
  lemma OverwriteAll<T>(s: seq<T>, idx: seq<int>, vals: seq<T>)
    requires |idx| == |vals| && Distinct(idx) && forall k :: 0 <= k < |idx| ==> 0 <= idx[k] < |s|
    ensures forall k :: 0 <= k < |idx| ==> Overwrite(s, idx, vals)[idx[k]] == vals[k]
    ensures forall j :: 0 <= j < |s| && j !in idx ==> Overwrite(s, idx, vals)[j] == s[j]
  {
    forall k | 0 <= k < |idx| ensures Overwrite(s, idx, vals)[idx[k]] == vals[k] {
      OverwriteAt(s, idx, vals, idx[k]);
    }
    forall j | 0 <= j < |s| && j !in idx ensures Overwrite(s, idx, vals)[j] == s[j] {
      OverwriteAt(s, idx, vals, j);
    }
  }

  /** `s` without position `w` (all of `s` when `w` is past its end). */
  function Without<T>(s: seq<T>, w: nat): (r: seq<T>)
    ensures |r| == if w < |s| then |s| - 1 else |s|
    ensures forall k :: 0 <= k < |r| ==> r[k] == if k < w then s[k] else s[k + 1]
  {
    if w < |s| then s[..w] + s[w + 1..] else s
  }

  /** Walking `s` front to back and keeping all but position `w`. */
  lemma WithoutStep<T>(s: seq<T>, w: nat, i: nat)
    requires i < |s|
    ensures Without(s[..i + 1], w) == Without(s[..i], w) + (if i == w then [] else [s[i]])
  {
    if i < w {
      assert s[..i + 1] == s[..i] + [s[i]];
    } else if i == w {
      assert s[..i + 1][..w] == s[..i];
    } else {
      assert s[..i + 1][..w] == s[..i][..w];
      assert s[..i + 1][w + 1..] == s[..i][w + 1..] + [s[i]];
    }
  }

  /** Removing one position keeps a sequence free of repeats, and drops the removed
      element when it occurs once. */
  lemma WithoutDistinct<T>(s: seq<T>, w: nat)
    requires Distinct(s) && w < |s|
    ensures Distinct(Without(s, w)) && s[w] !in Without(s, w)
    ensures forall k :: 0 <= k < |s| && k != w ==> s[k] in Without(s, w)
  {
    var r := Without(s, w);
    forall k | 0 <= k < |s| && k != w ensures s[k] in r {
      if k < w { assert r[k] == s[k]; } else { assert r[k - 1] == s[k]; }
    }
  }

  /** Two repeat-free sequences with nothing in common concatenate to one. */
  lemma DistinctConcat<T>(x: seq<T>, y: seq<T>)
    requires Distinct(x) && Distinct(y) && forall k :: 0 <= k < |y| ==> y[k] !in x
    ensures Distinct(x + y)
  {
    forall p, q | 0 <= p < q < |x + y| ensures (x + y)[p] != (x + y)[q] {
      if q >= |x| && p < |x| {
        assert (x + y)[q] == y[q - |x|];
        assert (x + y)[p] == x[p];
      }
    }
  }
}
