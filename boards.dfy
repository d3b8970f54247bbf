/** The board pool: Board's static fields (the freed-index stack, the high-water
    mark, the boards created so far and the capacity) together with the cells of
    every pooled board, and the instance operations that act on one board. A board
    is named by its pool index, as `Board.Index` names it. */
module Boards {
  import opened Wrappers
  import opened Geometry
  import opened Rules

  // ---------------------------------------------------------------------------
  // The allocation ledger, as a value
  // ---------------------------------------------------------------------------

  /** The part of the pool that decides which index `Get` hands out: the stack of
      returned indices (top at the end) and the next never-used index. */
  datatype Slots = Slots(freed: seq<int>, top: int)

  /** BoardAccessor.Get when it does not wait: pop a returned index if there is one,
      otherwise take the next fresh index. */
  function Acquire(s: Slots): (r: (int, Slots))
    ensures r.1.freed + [r.0] == s.freed || (s.freed == [] && r == (s.top, Slots([], s.top + 1)))
  {
    if |s.freed| > 0 then (s.freed[|s.freed| - 1], Slots(s.freed[..|s.freed| - 1], s.top))
    else (s.top, Slots(s.freed, s.top + 1))
  }

  /** BoardAccessor.Return: push the index. */
  function Release(s: Slots, b: int): (r: Slots)
    ensures |r.freed| == |s.freed| + 1 && r.top == s.top
    ensures r.freed[..|s.freed|] == s.freed && r.freed[|s.freed|] == b
  {
    Slots(s.freed + [b], s.top)
  }

  /** `n` calls of Get in a row: the indices handed out, in order, and the ledger after. */
  function GetMany(s: Slots, n: nat): (r: (seq<int>, Slots))
    ensures |r.0| == n
    decreases n
  {
    if n == 0 then ([], s)
    else
      var (b, s') := Acquire(s);
      var (bs, s'') := GetMany(s', n - 1);
      ([b] + bs, s'')
  }

  /** Calls of Return for each of `bs`, in order. */
  function ReturnAll(s: Slots, bs: seq<int>): (r: Slots)
    ensures r.freed == s.freed + bs && r.top == s.top
    decreases |bs|
  {
    if bs == [] then s else ReturnAll(Release(s, bs[0]), bs[1..])
  }

  /** A returned index is the next one handed out, and the ledger is as before. */
  lemma ReleaseAcquire(s: Slots, b: int)
    ensures Acquire(Release(s, b)) == (b, s)
  {
    assert (s.freed + [b])[..|s.freed|] == s.freed;
  }

  /** The pool is last-in first-out: after returning `bs`, as many Gets hand them
      back in reverse order and restore the ledger. */
  lemma {:induction false} LastInFirstOut(s: Slots, bs: seq<int>)
    ensures GetMany(ReturnAll(s, bs), |bs|) == (Reverse(bs), s)
  {
    if bs != [] {
      var last := bs[|bs| - 1];
      var front := bs[..|bs| - 1];
      var mid := ReturnAll(s, front);
      assert ReturnAll(s, bs) == Release(mid, last) by {
        assert (s.freed + front) + [last] == s.freed + bs;
      }
      ReleaseAcquire(mid, last);
      LastInFirstOut(s, front);
      assert Reverse(bs) == [last] + Reverse(front);
    }
  }

  /** With nothing returned, Gets hand out consecutive fresh indices. */
  lemma {:induction false} FreshConsecutive(top: int, n: nat)
    ensures GetMany(Slots([], top), n).1 == Slots([], top + n)
    ensures forall i :: 0 <= i < n ==> GetMany(Slots([], top), n).0[i] == top + i
    decreases n
  {
    if n > 0 {
      FreshConsecutive(top + 1, n - 1);
    }
  }

  /** A slot handed out and not returned since: its owner may rely on its cells. */
  predicate Holds(s: Slots, b: int) {
    0 <= b < s.top && b !in s.freed
  }

  /** The ledger is sane: every returned index was handed out, and none is on the
      stack twice. */
  predicate Sound(s: Slots) {
    0 <= s.top && Distinct(s.freed) && forall k :: 0 <= k < |s.freed| ==> 0 <= s.freed[k] < s.top
  }

  /** From pool state (s0, b0) to a later one (s1, b1): the high-water mark only
      grows, every slot held at the start keeps its cells, and only slots free or
      fresh at the start can be free at the end. */
  predicate Kept(s0: Slots, b0: seq<seq<State>>, s1: Slots, b1: seq<seq<State>>) {
    && s0.top <= s1.top && |b1| == |b0|
    && (forall j :: 0 <= j < |b0| && Holds(s0, j) ==> b1[j] == b0[j])
    && (forall j :: j in s1.freed ==> j in s0.freed || s0.top <= j < s1.top)
  }

  /** A slot held at the start is still held after Kept. */
  lemma KeptHolds(s0: Slots, b0: seq<seq<State>>, s1: Slots, b1: seq<seq<State>>, j: int)
    requires Kept(s0, b0, s1, b1) && Holds(s0, j)
    ensures Holds(s1, j)
  {
  }

  lemma KeptTransitive(s0: Slots, b0: seq<seq<State>>, s1: Slots, b1: seq<seq<State>>, s2: Slots, b2: seq<seq<State>>)
    requires Kept(s0, b0, s1, b1) && Kept(s1, b1, s2, b2)
    ensures Kept(s0, b0, s2, b2)
  {
    forall j | 0 <= j < |b0| && Holds(s0, j) ensures b2[j] == b0[j] {
      KeptHolds(s0, b0, s1, b1, j);
    }
  }

  /** Writing slots nobody held at the start keeps Kept. */
  lemma KeptOverwrite(s0: Slots, b0: seq<seq<State>>, s1: Slots, b1: seq<seq<State>>,
                      idx: seq<int>, vals: seq<seq<State>>)
    requires Kept(s0, b0, s1, b1) && |idx| == |vals| && Distinct(idx)
    requires forall k :: 0 <= k < |idx| ==> 0 <= idx[k] < |b1| && !Holds(s0, idx[k])
    ensures Kept(s0, b0, s1, Overwrite(b1, idx, vals))
  {
    OverwriteAll(b1, idx, vals);
  }

  /** Returning distinct slots that are held now but were not held at the start
      keeps the ledger sound, keeps Kept, and leaves every other held slot held. */
  lemma ReleaseHeld(s0: Slots, b0: seq<seq<State>>, s: Slots, bs: seq<seq<State>>, ls: seq<int>)
    requires Sound(s) && Kept(s0, b0, s, bs) && Distinct(ls)
    requires forall k :: 0 <= k < |ls| ==> Holds(s, ls[k]) && !Holds(s0, ls[k])
    ensures Sound(Slots(s.freed + ls, s.top)) && Kept(s0, b0, Slots(s.freed + ls, s.top), bs)
    ensures forall j :: Holds(s, j) && j !in ls ==> Holds(Slots(s.freed + ls, s.top), j)
  {
    DistinctConcat(s.freed, ls);
  }

  /** What Get does to a sound ledger: it hands out a slot nobody holds, which is
      held afterwards, every held slot stays held, and the ledger stays sound. */
  lemma AcquireSound(s: Slots)
    requires Sound(s)
    ensures var (b, s') := Acquire(s);
      && !Holds(s, b) && Holds(s', b) && Sound(s')
      && (b in s.freed || b == s.top)
      && (forall j :: Holds(s, j) ==> Holds(s', j))
      && (forall j :: j in s'.freed ==> j in s.freed)
      && s.top <= s'.top <= s.top + 1
  {
    var (b, s') := Acquire(s);
    if |s.freed| > 0 {
      assert s.freed == s'.freed + [b];
      assert b !in s'.freed;
    }
  }

  /** `n` Gets, one after another, extend the first `n - 1`. */
  lemma {:induction false} GetManySnoc(s: Slots, n: nat)
    ensures GetMany(s, n + 1).0 == GetMany(s, n).0 + [Acquire(GetMany(s, n).1).0]
    ensures GetMany(s, n + 1).1 == Acquire(GetMany(s, n).1).1
    decreases n
  {
    if n > 0 {
      GetManySnoc(Acquire(s).1, n - 1);
    }
  }

  // ---------------------------------------------------------------------------
  // The pool
  // ---------------------------------------------------------------------------

  /** A board with every cell empty, as a new Board is created. */
  function EmptyBoard(): (cells: seq<State>)
    ensures IsBoard(cells) && Score(cells, Red) == 0 && Score(cells, Yellow) == 0
  {
    seq(CellCount, i => Empty)
  }

  /** The neighbour conversion of Board.Move on cell list `cells`: every occupied
      cell of `ns` takes colour `s`. */
  function Converted(cells: seq<State>, ns: seq<Coord>, s: State): (r: seq<State>)
    requires IsBoard(cells)
    ensures IsBoard(r)
    ensures forall i :: 0 <= i < CellCount && CoordAt(i) !in ns ==> r[i] == cells[i]
    ensures forall i :: 0 <= i < CellCount && cells[i] == Empty ==> r[i] == Empty
  {
    seq(CellCount, i requires 0 <= i < CellCount =>
      if CoordAt(i) in ns && cells[i] != Empty then s else cells[i])
  }

  /** One step of the conversion loop: after visiting `ns[k]`, the cells converted
      are the occupied ones among `ns[..k + 1]`. */
  lemma ConvertStep(mid: seq<State>, ns: seq<Coord>, k: nat, s: State, cur: seq<State>, next: seq<State>)
    requires k < |ns| && IsCell(ns[k]) && |mid| == CellCount && |cur| == CellCount
    requires forall i :: 0 <= i < CellCount ==>
      cur[i] == if CoordAt(i) in ns[..k] && mid[i] != Empty then s else mid[i]
    requires next == if cur[IndexOf(ns[k])] != Empty then cur[IndexOf(ns[k]) := s] else cur
    ensures forall i :: 0 <= i < CellCount ==>
      next[i] == if CoordAt(i) in ns[..k + 1] && mid[i] != Empty then s else mid[i]
  {
    PrefixMember(ns, k);
    forall i | 0 <= i < CellCount
      ensures next[i] == if CoordAt(i) in ns[..k + 1] && mid[i] != Empty then s else mid[i]
    {
      IndexBijection(ns[k], i);
    }
  }

  /** When the loop has visited all of `ns`, the cells are the conversion of the
      board it started from. */
  lemma ConvertDone(mid: seq<State>, ns: seq<Coord>, s: State, cells: seq<State>)
    requires IsBoard(mid) && |cells| == CellCount
    requires forall i :: 0 <= i < CellCount ==>
      cells[i] == if CoordAt(i) in ns[..|ns|] && mid[i] != Empty then s else mid[i]
    ensures cells == Converted(mid, ns, s)
  {
    assert ns[..|ns|] == ns;
  }

  /** The three phases of Board.Move (colour the target, empty the source on a
      jump, convert the occupied step neighbours of the target) give Moved. */
  lemma ConvertedIsMoved(before: seq<State>, m: Move, mid: seq<State>)
    requires IsBoard(before) && IsCell(m.from) && CanMove(before, m)
    requires mid == Placed(before, m)
    ensures Converted(mid, Connections(m.to), At(before, m.from)) == Moved(before, m)
  {
    NeighbourTables(m.from, m.to);
    NeighbourTables(m.to, m.to);
    var after := Converted(mid, Connections(m.to), At(before, m.from));
    forall i | 0 <= i < CellCount ensures after[i] == MovedAt(before, m, i) {
      if CoordAt(i) == m.to {
      } else if CoordAt(i) == m.from {
      } else {
        assert i != IndexOf(m.to) && i != IndexOf(m.from);
      }
    }
  }

  /** The first two phases of Board.Move: the target takes the mover's colour, and
      on a jump the source is emptied. */
  function Placed(before: seq<State>, m: Move): (r: seq<State>)
    requires IsBoard(before) && IsCell(m.from) && IsCell(m.to)
    ensures IsBoard(r)
    ensures r[IndexOf(m.to)] == At(before, m.from)
    ensures m.to in Reach(m.from) ==> r[IndexOf(m.from)] == Empty
    ensures forall i :: 0 <= i < CellCount && i != IndexOf(m.to) && i != IndexOf(m.from) ==> r[i] == before[i]
  {
    NotOwnNeighbour(m.from);
    var r := before[IndexOf(m.to) := At(before, m.from)];
    if m.to in Reach(m.from) then r[IndexOf(m.from) := Empty] else r
  }

  /** Writing one slot twice keeps only the second write. A one-step fact, stated
      on its own so that the proofs that use it stay cheap. */
  lemma UpdateTwice<T>(s: seq<T>, t: seq<T>, b: nat, x: T, y: T)
    requires b < |s| && t == s[b := x]
    ensures t[b := y] == s[b := y]
  {
  }

  class Arena {
    /** Freed: the stack of returned indices, top at the end. */
    var freed: seq<int>
    /** TopBoard: the next never-used index. */
    var topBoard: int
    /** BoardsAvailable: how many boards the growth thread has created. */
    var boardsAvailable: int
    /** MaxBoards: the capacity. */
    const maxBoards: int
    /** AllBoards[i].Cells, as the states of its cells by index. */
    var boards: seq<seq<State>>

    ghost predicate Valid()
      reads this
    {
      && 0 <= topBoard <= boardsAvailable <= maxBoards
      && |boards| == boardsAvailable
      && (forall i :: 0 <= i < |boards| ==> IsBoard(boards[i]))
      && (forall k :: 0 <= k < |freed| ==> 0 <= freed[k] < topBoard)
    }

    /** The ledger that decides the next Get. */
    function Pool(): Slots
      reads this
    {
      Slots(freed, topBoard)
    }

    /** The pool once the growth thread has created `available` empty boards. */
    constructor(capacity: int, available: int)
      requires 0 <= available <= capacity
      ensures Valid()
      ensures maxBoards == capacity && boardsAvailable == available
      ensures freed == [] && topBoard == 0
      ensures boards == seq(available, i => EmptyBoard())
    {
      maxBoards := capacity;
      boardsAvailable := available;
      freed := [];
      topBoard := 0;
      boards := seq(available, i => EmptyBoard());
    }

    /** BoardAccessor.Get, when a board is at hand (a returned one, or a created one
        never used). */
    method Get() returns (b: int)
      modifies this
      requires Valid() && (|freed| > 0 || topBoard < boardsAvailable)
      ensures Valid()
      ensures (b, Pool()) == Acquire(old(Pool()))
      ensures 0 <= b < topBoard
      ensures boards == old(boards) && boardsAvailable == old(boardsAvailable)
    {
      if |freed| > 0 {
        b := freed[|freed| - 1];
        freed := freed[..|freed| - 1];
      } else {
        b := topBoard;
        topBoard := topBoard + 1;
      }
    }

    /** BoardAccessor.Return: push the board's index, whether or not it is already
        on the stack. */
    method Return(b: int)
      modifies this
      requires Valid() && 0 <= b < topBoard
      ensures Valid()
      ensures Pool() == Release(old(Pool()), b)
      ensures boards == old(boards) && boardsAvailable == old(boardsAvailable)
    {
      freed := freed + [b];
    }

    /** Board.Clone: take a board from the pool and copy the source's cells into
        it, cell by cell. */
    method Clone(src: int) returns (b: int)
      modifies this
      requires Valid() && 0 <= src < |boards| && (|freed| > 0 || topBoard < boardsAvailable)
      ensures Valid()
      ensures (b, Pool()) == Acquire(old(Pool()))
      ensures 0 <= b < topBoard
      ensures boards == old(boards)[b := old(boards[src])]
      ensures boardsAvailable == old(boardsAvailable)
    {
      b := Get();
      for i := 0 to CellCount
        invariant Valid() && (b, Pool()) == Acquire(old(Pool())) && 0 <= b < topBoard
        invariant boardsAvailable == old(boardsAvailable) && |boards| == |old(boards)|
        invariant forall j :: 0 <= j < |boards| && j != b ==> boards[j] == old(boards[j])
        invariant IsBoard(boards[b])
        invariant forall k :: 0 <= k < i ==> boards[b][k] == old(boards[src])[k]
        invariant forall k :: i <= k < CellCount ==> boards[b][k] == old(boards[b])[k]
      {
        boards := boards[b := boards[b][i := boards[src][i]]];
      }
      assert boards[b] == old(boards[src]);
    }

    /** Board.Move: reject the move unless the target is a neighbour, the source is
        occupied and the target is empty; otherwise colour the target, empty the
        source on a jump, and convert every occupied step neighbour of the target. */
    method Move(b: int, m: Rules.Move) returns (ok: bool)
      modifies this
      requires Valid() && 0 <= b < |boards| && IsCell(m.from)
      ensures Valid()
      ensures ok == CanMove(old(boards[b]), m)
      ensures boards == old(boards)[b := Outcome(old(boards[b]), m)]
      ensures freed == old(freed) && topBoard == old(topBoard) && boardsAvailable == old(boardsAvailable)
    {
      if m.to !in Connections(m.from) && m.to !in Reach(m.from) {
        return false;
      }
      var fi := IndexOf(m.from);
      var ti := IndexOf(m.to);
      if boards[b][fi] == Empty {
        return false;
      }
      if boards[b][ti] != Empty {
        return false;
      }
      Apply(b, m);
      return true;
    }

    /** Board.Move once its guards hold: the target takes the mover's colour, the
        source empties on a jump, and the target's step neighbours are converted. */
    method Apply(b: int, m: Rules.Move)
      modifies this
      requires Valid() && 0 <= b < |boards| && IsCell(m.from) && CanMove(boards[b], m)
      ensures Valid()
      ensures boards == old(boards)[b := Moved(old(boards[b]), m)]
      ensures freed == old(freed) && topBoard == old(topBoard) && boardsAvailable == old(boardsAvailable)
    {
      var fi := IndexOf(m.from);
      var ti := IndexOf(m.to);
      ghost var before := boards[b];
      var cells := boards[b][ti := boards[b][fi]];
      if m.to in Reach(m.from) {
        cells := cells[fi := Empty];
      }
      assert cells == Placed(before, m) && cells[ti] == At(before, m.from);
      boards := boards[b := cells];
      ghost var placed := boards;
      NotOwnNeighbour(m.to);
      ConvertAround(b, m.to);
      UpdateTwice(old(boards), placed, b, cells, Converted(cells, Connections(m.to), cells[ti]));
      ConvertedIsMoved(before, m, Placed(before, m));
    }

    /** The loop of Board.Move over the step neighbours of `to`: each occupied one
        takes the colour `to` has. */
    method ConvertAround(b: int, to: Coord)
      modifies this
      requires Valid() && 0 <= b < |boards| && IsCell(to) && to !in Connections(to)
      ensures Valid()
      ensures boards == old(boards)[b := Converted(old(boards[b]), Connections(to), old(boards[b][IndexOf(to)]))]
      ensures freed == old(freed) && topBoard == old(topBoard) && boardsAvailable == old(boardsAvailable)
    {
      var ti := IndexOf(to);
      var cells := boards[b];
      ghost var mid, s := cells, cells[ti];
      var ns := Connections(to);
      for k := 0 to |ns|
        modifies {}
        invariant |cells| == CellCount && cells[ti] == s
        invariant forall i :: 0 <= i < CellCount ==>
          cells[i] == if CoordAt(i) in ns[..k] && mid[i] != Empty then s else mid[i]
      {
        var j := IndexOf(ns[k]);
        ghost var cur := cells;
        if cells[j] != Empty {
          cells := cells[j := cells[ti]];
        }
        ConvertStep(mid, ns, k, s, cur, cells);
      }
      ConvertDone(mid, ns, s, cells);
      boards := boards[b := cells];
    }
  }
}
