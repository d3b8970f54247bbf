/** LINQ's OrderByDescending on byte keys followed by Take or First, as the search
    uses them: a stable sort of trial positions by descending score. */
module Ordering {
  import opened Wrappers

  /** The positions of `keys` whose key is at most `v`, highest key first and, among
      equal keys, in their original order. */
  function DescFrom(keys: seq<Byte>, v: int): (r: seq<nat>)
    requires v < 256
    decreases v + 1
  {
    if v < 0 then [] else Positions(keys, v as Byte) + DescFrom(keys, v - 1)
  }

  /** OrderByDescending(t => t.Score), as positions into the sequence of keys. */
  function DescOrder(keys: seq<Byte>): (r: seq<nat>)
    ensures |r| == |keys|
  {
    DescFromLength(keys, 255);
    AtMostAll(keys);
    DescFrom(keys, 255)
  }

  /** Sorted by descending key. */
  predicate Descending(keys: seq<Byte>, r: seq<nat>) {
    forall p, q :: 0 <= p < q < |r| && r[p] < |keys| && r[q] < |keys| ==> keys[r[p]] >= keys[r[q]]
  }

  /** Equal keys keep their original relative order (OrderBy is a stable sort). */
  predicate Stable(keys: seq<Byte>, r: seq<nat>) {
    forall p, q :: 0 <= p < q < |r| && r[p] < |keys| && r[q] < |keys| && keys[r[p]] == keys[r[q]] ==> r[p] < r[q]
  }

  /** The number of keys at most `v`. */
  function AtMost(keys: seq<Byte>, v: int): (n: nat)
    ensures n <= |keys|
  {
    if keys == [] then 0
    else AtMost(keys[..|keys| - 1], v) + (if keys[|keys| - 1] <= v then 1 else 0)
  }

  lemma {:induction false} AtMostStep(keys: seq<Byte>, v: Byte)
    ensures AtMost(keys, v) == Count(keys, v) + AtMost(keys, v - 1)
  {
    if keys != [] {
      AtMostStep(keys[..|keys| - 1], v);
    }
  }

  lemma {:induction false} AtMostAll(keys: seq<Byte>)
    ensures AtMost(keys, 255) == |keys|
  {
    if keys != [] {
      AtMostAll(keys[..|keys| - 1]);
    }
  }

  lemma {:induction false} AtMostNone(keys: seq<Byte>)
    ensures AtMost(keys, -1) == 0
  {
    if keys != [] {
      AtMostNone(keys[..|keys| - 1]);
    }
  }

  lemma {:induction false} DescFromLength(keys: seq<Byte>, v: int)
    requires -1 <= v < 256
    ensures |DescFrom(keys, v)| == AtMost(keys, v)
    decreases v + 1
  {
    if v >= 0 {
      DescFromLength(keys, v - 1);
      AtMostStep(keys, v as Byte);
    } else {
      AtMostNone(keys);
    }
  }

  lemma {:induction false} DescFromMembers(keys: seq<Byte>, v: int)
    requires v < 256
    ensures forall i: int :: i in DescFrom(keys, v) <==> 0 <= i < |keys| && keys[i] <= v
    decreases v + 1
  {
    if v >= 0 {
      DescFromMembers(keys, v - 1);
      var top := Positions(keys, v as Byte);
      var rest := DescFrom(keys, v - 1);
      assert DescFrom(keys, v) == top + rest;
      forall i: int ensures i in top + rest <==> 0 <= i < |keys| && keys[i] <= v {
        assert i in top + rest <==> i in top || i in rest;
        if 0 <= i < |keys| && keys[i] == v {
          assert i in top;
        } else {
          assert forall k :: 0 <= k < |top| ==> top[k] != i;
        }
      }
    }
  }

  lemma {:induction false} DescFromOrdered(keys: seq<Byte>, v: int)
    requires v < 256
    ensures Distinct(DescFrom(keys, v))
    ensures Descending(keys, DescFrom(keys, v))
    ensures Stable(keys, DescFrom(keys, v))
    decreases v + 1
  {
    if v >= 0 {
      DescFromOrdered(keys, v - 1);
      DescFromMembers(keys, v - 1);
      var top := Positions(keys, v as Byte);
      var rest := DescFrom(keys, v - 1);
      var r := top + rest;
      assert r == DescFrom(keys, v);
      forall p, q | 0 <= p < q < |r|
        ensures r[p] != r[q]
        ensures r[p] < |keys| && r[q] < |keys| ==> keys[r[p]] >= keys[r[q]]
        ensures r[p] < |keys| && r[q] < |keys| && keys[r[p]] == keys[r[q]] ==> r[p] < r[q]
      {
        if q < |top| {
        } else if p < |top| {
          assert r[q] == rest[q - |top|];
          assert r[q] in rest;
        } else {
          assert r[p] == rest[p - |top|] && r[q] == rest[q - |top|];
        }
      }
    }
  }

  /** DescOrder is a permutation of the positions 0 .. |keys| - 1. */
  lemma DescOrderPermutation(keys: seq<Byte>)
    ensures |DescOrder(keys)| == |keys|
    ensures forall i: int :: i in DescOrder(keys) <==> 0 <= i < |keys|
    ensures Distinct(DescOrder(keys))
  {
    DescFromLength(keys, 255);
    AtMostAll(keys);
    DescFromMembers(keys, 255);
    DescFromOrdered(keys, 255);
  }

  /** The first position of `x` in `r`. */
  function IndexIn(r: seq<nat>, x: nat): (k: nat)
    requires x in r
    ensures k < |r| && r[k] == x
  {
    if r[0] == x then 0 else 1 + IndexIn(r[1..], x)
  }

  /** Sorted descending, and stable. */
  lemma DescOrderSorted(keys: seq<Byte>)
    ensures Descending(keys, DescOrder(keys))
    ensures Stable(keys, DescOrder(keys))
  {
    DescFromOrdered(keys, 255);
  }

  /** Each position of `keys` occurs in the ordering. */
  lemma DescOrderHas(keys: seq<Byte>, j: nat)
    requires j < |keys|
    ensures |DescOrder(keys)| == |keys| && j in DescOrder(keys)
  {
    DescOrderPermutation(keys);
  }

  /** Each entry of the ordering is a position of `keys`. */
  lemma DescOrderAt(keys: seq<Byte>, p: nat)
    requires p < |keys|
    ensures |DescOrder(keys)| == |keys| && DescOrder(keys)[p] < |keys|
  {
    DescOrderPermutation(keys);
    assert DescOrder(keys)[p] in DescOrder(keys);
  }

  /** Two entries of the ordering: the earlier has the higher key, or the same key
      and the lower position. */
  lemma DescOrderPair(keys: seq<Byte>, p: nat, q: nat)
    requires p < q < |keys|
    ensures var r := DescOrder(keys);
      && |r| == |keys| && r[p] < |keys| && r[q] < |keys|
      && keys[r[p]] >= keys[r[q]]
      && (keys[r[p]] == keys[r[q]] ==> r[p] < r[q])
  {
    DescOrderAt(keys, p);
    DescOrderAt(keys, q);
    DescOrderSorted(keys);
  }

  /** `.First()` of the ordering is the first position holding the highest key. */
  lemma DescOrderFirst(keys: seq<Byte>)
    requires |keys| > 0
    ensures |DescOrder(keys)| > 0
    ensures DescOrder(keys)[0] < |keys|
    ensures forall j :: 0 <= j < |keys| ==> keys[j] <= keys[DescOrder(keys)[0]]
    ensures forall j :: 0 <= j < DescOrder(keys)[0] ==> keys[j] < keys[DescOrder(keys)[0]]
  {
    DescOrderAt(keys, 0);
    forall j | 0 <= j < |keys|
      ensures keys[j] <= keys[DescOrder(keys)[0]] && (j < DescOrder(keys)[0] ==> keys[j] < keys[DescOrder(keys)[0]])
    {
      FirstAbove(keys, j);
    }
  }

  /** One position against the first of the ordering. */
  lemma FirstAbove(keys: seq<Byte>, j: nat)
    requires j < |keys|
    ensures |DescOrder(keys)| == |keys| && DescOrder(keys)[0] < |keys|
    ensures keys[j] <= keys[DescOrder(keys)[0]]
    ensures j < DescOrder(keys)[0] ==> keys[j] < keys[DescOrder(keys)[0]]
  {
    var r := DescOrder(keys);
    DescOrderAt(keys, 0);
    DescOrderHas(keys, j);
    var q := IndexIn(r, j);
    if q > 0 {
      DescOrderPair(keys, 0, q);
    }
  }

  /** LINQ Take: the first `k` elements, none when `k` is not positive. */
  function Take<T>(s: seq<T>, k: int): (r: seq<T>)
    ensures |r| == if k <= 0 then 0 else if k < |s| then k else |s|
    ensures forall p :: 0 <= p < |r| ==> r[p] == s[p]
  {
    if k <= 0 then [] else if k < |s| then s[..k] else s
  }

  /** The positions the search expands: the first `k` of the descending order. Each
      is a real position and none repeats. */
  lemma TopPositions(keys: seq<Byte>, k: int, top: seq<nat>)
    requires top == Take(DescOrder(keys), k)
    ensures Distinct(top) && forall p :: 0 <= p < |top| ==> top[p] < |keys|
  {
    DescOrderPermutation(keys);
    var r := DescOrder(keys);
    forall p | 0 <= p < |top| ensures top[p] < |keys| {
      assert top[p] == r[p];
      assert r[p] in r;
    }
    forall p, q | 0 <= p < q < |top| ensures top[p] != top[q] {
      assert top[p] == r[p] && top[q] == r[q];
    }
  }

  /** No expanded position has a lower key than an unexpanded one. */
  lemma TopPositionsHighest(keys: seq<Byte>, k: int, i: nat, j: nat)
    requires i < |keys| && j < |keys|
    requires i in Take(DescOrder(keys), k) && j !in Take(DescOrder(keys), k)
    ensures keys[i] >= keys[j]
  {
    var r := DescOrder(keys);
    var t := Take(r, k);
    DescOrderHas(keys, j);
    var p := IndexIn(t, i);
    var q := IndexIn(r, j);
    assert r[p] == i;
    assert forall m :: 0 <= m < |t| ==> r[m] != j by {
      forall m | 0 <= m < |t| ensures r[m] != j {
        assert t[m] == r[m] && t[m] in t;
      }
    }
    assert p < q;
    DescOrderPair(keys, p, q);
  }
}
