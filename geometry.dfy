/** The coordinate graph of the board: the fixed set of 61 cells of the
    flower-shaped hex board, the dense index of each cell, and each cell's two
    neighbour lists (one step away for a clone move, two steps away for a jump).
    Coordinates use a doubled-row scheme: the cells of one column are two rows
    apart and the diagonal neighbours of a cell differ by one in row and column. */
module Geometry {
  import opened Wrappers

  datatype Coord = Coord(row: int, col: int)

  /** Number of passes of the banded loop (rows 8, 10, ..., 16). */
  const BandCount: nat := 5

  /** Number of cells on the board. */
  const CellCount: nat := 61

  function Abs(x: int): nat { if x < 0 then -x else x }

  /** The board shape, described independently of the enumeration: columns 4 to 12,
      row + col even, and a taper of one column per row towards the apex (4, 8) and
      the base (20, 8). */
  predicate IsCell(c: Coord) {
    && 4 <= c.col <= 12
    && (c.row + c.col) % 2 == 0
    && Abs(c.col - 8) <= c.row - 4
    && Abs(c.col - 8) <= 20 - c.row
  }

  /** Hex distance of an offset in the doubled-row scheme (dr + dc even). */
  function OffsetDistance(dr: int, dc: int): nat {
    Abs(dc) + (if Abs(dr) > Abs(dc) then (Abs(dr) - Abs(dc)) / 2 else 0)
  }

  function HexDistance(c: Coord, d: Coord): nat {
    OffsetDistance(d.row - c.row, d.col - c.col)
  }

  // ---------------------------------------------------------------------------
  // The enumeration performed by the static constructor
  // ---------------------------------------------------------------------------

  /** The ten cells added one by one before the banded loop. */
  const Head: seq<Coord> :=
    [Coord(4, 8), Coord(5, 7), Coord(5, 9), Coord(6, 6), Coord(6, 8), Coord(6, 10),
     Coord(7, 5), Coord(7, 7), Coord(7, 9), Coord(7, 11)]

  /** The six cells added one by one after the banded loop. */
  const Tail: seq<Coord> :=
    [Coord(18, 6), Coord(18, 8), Coord(18, 10), Coord(19, 7), Coord(19, 9), Coord(20, 8)]

  /** What the inner loop has added for `row` after `n` column steps:
      (row, col) and (row + 1, col + 1) for col = 4, 6, ... */
  function Pairs(row: int, n: nat): (r: seq<Coord>)
    ensures |r| == 2 * n
  {
    if n == 0 then []
    else Pairs(row, n - 1) + [Coord(row, 4 + 2 * (n - 1)), Coord(row + 1, 5 + 2 * (n - 1))]
  }

  /** One pass of the outer loop: four column steps and the edge cell (row, 12). */
  function Band(row: int): (r: seq<Coord>)
    ensures |r| == 9
  {
    Pairs(row, 4) + [Coord(row, 12)]
  }

  /** The first `n` passes of the outer loop, for rows 8, 10, ... */
  function Bands(n: nat): (r: seq<Coord>)
    ensures |r| == 9 * n
  {
    if n == 0 then [] else Bands(n - 1) + Band(8 + 2 * (n - 1))
  }

  /** AllCoords: the list the static constructor builds, in insertion order. */
  function AllCoords(): (r: seq<Coord>)
    ensures |r| == CellCount
  {
    Head + Bands(5) + Tail
  }

  lemma {:induction false} PairsAt(row: int, n: nat, j: nat)
    requires j < 2 * n
    ensures Pairs(row, n)[j] == if j % 2 == 0 then Coord(row, 4 + j) else Coord(row + 1, 4 + j)
  {
    if j < 2 * (n - 1) {
      PairsAt(row, n - 1, j);
    }
  }

  lemma BandAt(row: int, j: nat)
    requires j < 9
    ensures Band(row)[j] == if j % 2 == 0 then Coord(row, 4 + j) else Coord(row + 1, 4 + j)
  {
    if j < 8 { PairsAt(row, 4, j); }
  }

  lemma {:induction false} BandsAt(n: nat, k: nat, j: nat)
    requires k < n && j < 9
    ensures Bands(n)[9 * k + j] == Band(8 + 2 * k)[j]
  {
    if k < n - 1 {
      BandsAt(n - 1, k, j);
    }
  }

  /** Position of a cell in AllCoords, computed from its coordinates. */
  function Rank(c: Coord): nat
    requires IsCell(c)
  {
    if c.row == 4 then 0
    else if c.row == 5 then (c.col - 7) / 2 + 1
    else if c.row == 6 then (c.col - 6) / 2 + 3
    else if c.row == 7 then (c.col - 5) / 2 + 6
    else if c.row <= 17 then 10 + 9 * ((c.row - 8) / 2) + (c.col - 4)
    else if c.row == 18 then (c.col - 6) / 2 + 55
    else if c.row == 19 then (c.col - 7) / 2 + 58
    else 60
  }

  lemma HeadRank(c: Coord)
    requires IsCell(c) && c.row < 8
    ensures Rank(c) < |Head| && Head[Rank(c)] == c
  {
    var k := if c.row == 4 then 0 else if c.row == 5 then 1 else if c.row == 6 then 3 else 6;
    var j := (c.col - (12 - c.row)) / 2;
    assert c.col == 12 - c.row + 2 * j && 0 <= j <= c.row - 4;
    assert Rank(c) == k + j;
  }

  lemma TailRank(c: Coord)
    requires IsCell(c) && 17 < c.row
    ensures 55 <= Rank(c) < 55 + |Tail| && Tail[Rank(c) - 55] == c
  {
    var k := if c.row == 18 then 55 else if c.row == 19 then 58 else 60;
    var j := (c.col - (c.row - 12)) / 2;
    assert c.col == c.row - 12 + 2 * j && 0 <= j <= 20 - c.row;
    assert Rank(c) == k + j;
  }

  /** A cell in rows 8 to 17 sits in band k = (row - 8) / 2 at offset col - 4. */
  lemma BandRank(c: Coord)
    requires IsCell(c) && 8 <= c.row <= 17
    ensures var k, j := (c.row - 8) / 2, c.col - 4;
      && k < 5 && j < 9 && Rank(c) == 10 + 9 * k + j
      && c == if j % 2 == 0 then Coord(8 + 2 * k, 4 + j) else Coord(9 + 2 * k, 4 + j)
  {
    var k, j := (c.row - 8) / 2, c.col - 4;
    var h := (c.row + c.col) / 2;
    assert c.row + c.col == 2 * h;
    assert c.row == 8 + 2 * k || c.row == 9 + 2 * k;
    assert j % 2 == 0 <==> c.row == 8 + 2 * k;
  }

  lemma HeadEntry(i: nat)
    requires i < |Head|
    ensures IsCell(Head[i]) && Rank(Head[i]) == i
  {
  }

  lemma TailEntry(i: nat)
    requires i < |Tail|
    ensures IsCell(Tail[i]) && Rank(Tail[i]) == 55 + i
  {
  }

  lemma BandEntry(k: nat, j: nat)
    requires k < 5 && j < 9
    ensures var c := if j % 2 == 0 then Coord(8 + 2 * k, 4 + j) else Coord(9 + 2 * k, 4 + j);
      IsCell(c) && Rank(c) == 10 + 9 * k + j
  {
  }

  /** Where the three parts of the enumeration sit in AllCoords. */
  lemma AllCoordsParts(i: nat)
    requires i < CellCount
    ensures i < 10 ==> AllCoords()[i] == Head[i]
    ensures 10 <= i < 55 ==> AllCoords()[i] == Bands(5)[i - 10]
    ensures 55 <= i ==> AllCoords()[i] == Tail[i - 55]
  {
    assert AllCoords() == Head + Bands(5) + Tail;
  }

  lemma HeadCellAtRank(c: Coord)
    requires IsCell(c) && c.row < 8
    ensures AllCoords()[Rank(c)] == c
  {
    HeadRank(c);
    AllCoordsParts(Rank(c));
  }

  /** Entry j of band k of AllCoords. */
  lemma BandEntryAt(k: nat, j: nat)
    requires k < 5 && j < 9
    ensures AllCoords()[10 + 9 * k + j] == if j % 2 == 0 then Coord(8 + 2 * k, 4 + j) else Coord(9 + 2 * k, 4 + j)
  {
    AllCoordsParts(10 + 9 * k + j);
    BandsAt(5, k, j);
    BandAt(8 + 2 * k, j);
  }

  lemma BandCellAtRank(c: Coord)
    requires IsCell(c) && 8 <= c.row <= 17
    ensures AllCoords()[Rank(c)] == c
  {
    BandRank(c);
    BandEntryAt((c.row - 8) / 2, c.col - 4);
  }

  lemma TailCellAtRank(c: Coord)
    requires IsCell(c) && 17 < c.row
    ensures AllCoords()[Rank(c)] == c
  {
    TailRank(c);
    AllCoordsParts(Rank(c));
  }

  /** Every cell of the board sits in AllCoords at its rank. */
  lemma RankInverse(c: Coord)
    requires IsCell(c)
    ensures Rank(c) < CellCount && AllCoords()[Rank(c)] == c
  {
    if c.row < 8 {
      HeadRank(c);
      HeadCellAtRank(c);
    } else if c.row <= 17 {
      BandRank(c);
      BandCellAtRank(c);
    } else {
      TailRank(c);
      TailCellAtRank(c);
    }
  }

  /** Every entry of AllCoords is a cell of the board, and its rank is its position. */
  lemma RankOfEntry(i: nat)
    requires i < CellCount
    ensures IsCell(AllCoords()[i]) && Rank(AllCoords()[i]) == i
  {
    AllCoordsParts(i);
    if i < 10 {
      HeadEntry(i);
    } else if i < 55 {
      var k, j := (i - 10) / 9, (i - 10) % 9;
      BandEntryAt(k, j);
      BandEntry(k, j);
    } else {
      TailEntry(i - 55);
    }
  }

  /** Board shape: AllCoords holds exactly the cells of the board, each once. */
  lemma AllCoordsExactly()
    ensures forall c :: c in AllCoords() <==> IsCell(c)
    ensures Distinct(AllCoords())
  {
    forall c ensures c in AllCoords() <==> IsCell(c) {
      if IsCell(c) {
        RankInverse(c);
      }
      if c in AllCoords() {
        var i :| 0 <= i < |AllCoords()| && AllCoords()[i] == c;
        RankOfEntry(i);
      }
    }
    forall p, q | 0 <= p < q < CellCount ensures AllCoords()[p] != AllCoords()[q] {
      RankOfEntry(p);
      RankOfEntry(q);
    }
  }

  /** Indices: each cell mapped to its position in AllCoords (ToDictionary over 0..60). */
  function Indices(): (m: map<Coord, nat>)
    ensures forall c :: c in m <==> IsCell(c)
    ensures forall i :: 0 <= i < CellCount ==> AllCoords()[i] in m && m[AllCoords()[i]] == i
  {
    AllCoordsExactly();
    map i | 0 <= i < CellCount :: AllCoords()[i] := i
  }

  /** The cell at index `i`, in closed form: the inverse of Rank. */
  function CoordAt(i: nat): (c: Coord)
    requires i < CellCount
    ensures IsCell(c) && Rank(c) == i
  {
    if i < 10 then
      HeadEntry(i);
      Head[i]
    else if i < 55 then
      var k, j := (i - 10) / 9, (i - 10) % 9;
      BandEntry(k, j);
      if j % 2 == 0 then Coord(8 + 2 * k, 4 + j) else Coord(9 + 2 * k, 4 + j)
    else
      TailEntry(i - 55);
      Tail[i - 55]
  }

  /** The index of a cell, `Coord.Indices[c]` (IndicesAgree), in closed form. */
  function IndexOf(c: Coord): (i: nat)
    requires IsCell(c)
    ensures i < CellCount && CoordAt(i) == c
  {
    RankRoundTrip(c);
    Rank(c)
  }

  lemma RankRoundTrip(c: Coord)
    requires IsCell(c)
    ensures Rank(c) < CellCount && CoordAt(Rank(c)) == c
  {
    if c.row < 8 {
      HeadRank(c);
      assert CoordAt(Rank(c)) == Head[Rank(c)];
    } else if c.row <= 17 {
      BandRoundTrip(c);
    } else {
      TailRank(c);
      assert CoordAt(Rank(c)) == Tail[Rank(c) - 55];
    }
  }

  lemma BandRoundTrip(c: Coord)
    requires IsCell(c) && 8 <= c.row <= 17
    ensures Rank(c) < CellCount && CoordAt(Rank(c)) == c
  {
    BandRank(c);
    var k, j := (c.row - 8) / 2, c.col - 4;
    DivModNine(k, j);
    var i := Rank(c);
    assert i - 10 == 9 * k + j;
    assert CoordAt(i) == if j % 2 == 0 then Coord(8 + 2 * k, 4 + j) else Coord(9 + 2 * k, 4 + j);
  }

  /** Quotient and remainder of a position within the banded part. */
  lemma DivModNine(k: nat, j: nat)
    requires j < 9
    ensures (9 * k + j) / 9 == k && (9 * k + j) % 9 == j
  {
  }

  /** CoordAt reads AllCoords, i.e. `Cell.Coord`. */
  lemma CoordAtAgrees(i: nat)
    requires i < CellCount
    ensures AllCoords()[i] == CoordAt(i)
  {
    RankOfEntry(i);
    assert CoordAt(IndexOf(AllCoords()[i])) == AllCoords()[i];
  }

  /** IndexOf reads the dictionary Indices, i.e. `Coord.Indices[c]`. */
  lemma IndicesAgree(c: Coord)
    requires IsCell(c)
    ensures c in Indices() && Indices()[c] == IndexOf(c)
  {
    RankInverse(c);
  }

  /** IndexOf and CoordAt are inverse bijections between the cells and 0..60. */
  lemma IndexBijection(c: Coord, i: nat)
    requires IsCell(c) && i < CellCount
    ensures IndexOf(CoordAt(i)) == i
    ensures CoordAt(IndexOf(c)) == c
    ensures IndexOf(c) == i <==> c == CoordAt(i)
  {
  }

  // ---------------------------------------------------------------------------
  // Neighbour tables
  // ---------------------------------------------------------------------------

  /** The six distance-1 offsets, in the order the source lists them. */
  const StepOffsets: seq<(int, int)> := [(-2, 0), (-1, -1), (-1, 1), (1, -1), (1, 1), (2, 0)]

  /** The twelve distance-2 offsets, in the order the source lists them. */
  const JumpOffsets: seq<(int, int)> :=
    [(-4, 0), (-3, -1), (-3, 1), (-2, -2), (-2, 2), (0, -2),
     (0, 2), (2, -2), (2, 2), (3, -1), (3, 1), (4, 0)]

  /** The candidate neighbours of `c`: `c` moved by each offset in turn. */
  function Shifted(c: Coord, offsets: seq<(int, int)>): (r: seq<Coord>)
    ensures |r| == |offsets|
    ensures forall k :: 0 <= k < |r| ==> (r[k].row - c.row, r[k].col - c.col) == offsets[k]
  {
    seq(|offsets|, k requires 0 <= k < |offsets| => Coord(c.row + offsets[k].0, c.col + offsets[k].1))
  }

  /** LINQ Intersect: the distinct elements of `xs` that occur in `ys`, in the order
      of their first occurrence in `xs`. */
  function Intersect(xs: seq<Coord>, ys: seq<Coord>): (r: seq<Coord>)
    ensures forall x :: x in r <==> x in xs && x in ys
    ensures Distinct(r)
    ensures |r| <= |xs|
  {
    if xs == [] then []
    else
      var init, x := Intersect(xs[..|xs| - 1], ys), xs[|xs| - 1];
      MemberSnoc(xs);
      if x in ys && x !in init then init + [x] else init
  }

  /** The elements of `xs` that are cells of the board, in order. */
  function OnBoard(xs: seq<Coord>): (r: seq<Coord>)
    ensures forall x :: x in r <==> x in xs && IsCell(x)
    ensures |r| <= |xs|
  {
    if xs == [] then []
    else
      var init, x := OnBoard(xs[..|xs| - 1]), xs[|xs| - 1];
      MemberSnoc(xs);
      if IsCell(x) then init + [x] else init
  }

  /** For a duplicate-free `xs`, intersecting with any list of exactly the cells of
      the board keeps the elements that are cells. */
  lemma {:induction false} IntersectCells(xs: seq<Coord>, ys: seq<Coord>)
    requires Distinct(xs)
    requires forall y :: y in ys <==> IsCell(y)
    ensures Intersect(xs, ys) == OnBoard(xs)
  {
    if xs != [] {
      var front := xs[..|xs| - 1];
      IntersectCells(front, ys);
      assert xs[|xs| - 1] !in front;
    }
  }

  /** Offsets in strictly increasing lexicographic order. */
  predicate Ascending(offsets: seq<(int, int)>) {
    forall k :: 0 < k < |offsets| ==> Before(offsets[k - 1], offsets[k])
  }

  predicate Before(x: (int, int), y: (int, int)) {
    x.0 < y.0 || (x.0 == y.0 && x.1 < y.1)
  }

  lemma {:induction false} AscendingBefore(offsets: seq<(int, int)>, p: nat, q: nat)
    requires Ascending(offsets) && p < q < |offsets|
    ensures Before(offsets[p], offsets[q])
    decreases q - p
  {
    if p + 1 < q {
      AscendingBefore(offsets, p + 1, q);
    }
  }

  /** Neither offset list repeats an offset. */
  lemma OffsetsDistinct()
    ensures Distinct(StepOffsets) && Distinct(JumpOffsets)
  {
    assert Ascending(StepOffsets) && Ascending(JumpOffsets);
    forall p, q | 0 <= p < q < |StepOffsets| ensures StepOffsets[p] != StepOffsets[q] {
      AscendingBefore(StepOffsets, p, q);
    }
    forall p, q | 0 <= p < q < |JumpOffsets| ensures JumpOffsets[p] != JumpOffsets[q] {
      AscendingBefore(JumpOffsets, p, q);
    }
  }

  lemma ShiftedDistinct(c: Coord, offsets: seq<(int, int)>)
    requires Distinct(offsets)
    ensures Distinct(Shifted(c, offsets))
  {
    var s := Shifted(c, offsets);
    forall p, q | 0 <= p < q < |s| ensures s[p] != s[q] {
      assert offsets[p] != offsets[q];
    }
  }

  lemma ShiftedMember(c: Coord, offsets: seq<(int, int)>, d: Coord)
    ensures d in Shifted(c, offsets) <==> (d.row - c.row, d.col - c.col) in offsets
  {
    var s := Shifted(c, offsets);
    if (d.row - c.row, d.col - c.col) in offsets {
      var k :| 0 <= k < |offsets| && offsets[k] == (d.row - c.row, d.col - c.col);
      assert s[k] == d;
    }
  }

  lemma StepOffsetsAreDistanceOne(dr: int, dc: int)
    requires (dr + dc) % 2 == 0
    ensures (dr, dc) in StepOffsets <==> OffsetDistance(dr, dc) == 1
  {
  }

  lemma JumpOffsetsAreDistanceTwo(dr: int, dc: int)
    requires (dr + dc) % 2 == 0
    ensures (dr, dc) in JumpOffsets <==> OffsetDistance(dr, dc) == 2
  {
  }

  lemma CellParity(c: Coord, d: Coord)
    requires IsCell(c) && IsCell(d)
    ensures (d.row - c.row + (d.col - c.col)) % 2 == 0
  {
    var p, q := (c.row + c.col) / 2, (d.row + d.col) / 2;
    assert c.row + c.col == 2 * p && d.row + d.col == 2 * q;
    assert d.row - c.row + (d.col - c.col) == 2 * (q - p);
  }

  /** A shifted candidate is kept exactly when it is a cell at hex distance one. */
  lemma StepCandidate(c: Coord, d: Coord)
    requires IsCell(c)
    ensures d in Shifted(c, StepOffsets) && IsCell(d) <==> IsCell(d) && HexDistance(c, d) == 1
  {
    ShiftedMember(c, StepOffsets, d);
    if IsCell(d) {
      CellParity(c, d);
      StepOffsetsAreDistanceOne(d.row - c.row, d.col - c.col);
    }
  }

  /** A shifted candidate is kept exactly when it is a cell at hex distance two. */
  lemma JumpCandidate(c: Coord, d: Coord)
    requires IsCell(c)
    ensures d in Shifted(c, JumpOffsets) && IsCell(d) <==> IsCell(d) && HexDistance(c, d) == 2
  {
    ShiftedMember(c, JumpOffsets, d);
    if IsCell(d) {
      CellParity(c, d);
      JumpOffsetsAreDistanceTwo(d.row - c.row, d.col - c.col);
    }
  }

  /** Connections: the cells of the board among the six step offsets of `c`, in
      offset order (ConnectionsExactly: the cells one hex step away). */
  function Connections(c: Coord): (r: seq<Coord>)
    requires IsCell(c)
    ensures forall d :: d in r ==> IsCell(d)
    ensures |r| <= 6
  {
    OnBoard(Shifted(c, StepOffsets))
  }

  /** Reach: the cells of the board among the twelve jump offsets of `c`, in
      offset order (ReachExactly: the cells two hex steps away). */
  function Reach(c: Coord): (r: seq<Coord>)
    requires IsCell(c)
    ensures forall d :: d in r ==> IsCell(d)
    ensures |r| <= 12
  {
    OnBoard(Shifted(c, JumpOffsets))
  }

  /** A cell is a connection of `c` exactly when it is one hex step away. */
  lemma ConnectionsAt(c: Coord, d: Coord)
    requires IsCell(c)
    ensures d in Connections(c) <==> IsCell(d) && HexDistance(c, d) == 1
  {
    StepCandidate(c, d);
  }

  /** A cell is in the reach of `c` exactly when it is two hex steps away. */
  lemma ReachAt(c: Coord, d: Coord)
    requires IsCell(c)
    ensures d in Reach(c) <==> IsCell(d) && HexDistance(c, d) == 2
  {
    JumpCandidate(c, d);
  }

  /** The connections of a cell are exactly the cells one hex step away. */
  lemma ConnectionsExactly(c: Coord)
    requires IsCell(c)
    ensures forall d :: d in Connections(c) <==> IsCell(d) && HexDistance(c, d) == 1
  {
    forall d ensures d in Connections(c) <==> IsCell(d) && HexDistance(c, d) == 1 {
      ConnectionsAt(c, d);
    }
  }

  /** The reach of a cell is exactly the cells two hex steps away. */
  lemma ReachExactly(c: Coord)
    requires IsCell(c)
    ensures forall d :: d in Reach(c) <==> IsCell(d) && HexDistance(c, d) == 2
  {
    forall d ensures d in Reach(c) <==> IsCell(d) && HexDistance(c, d) == 2 {
      ReachAt(c, d);
    }
  }

  lemma OnBoardAsBuilt(xs: seq<Coord>)
    requires Distinct(xs)
    ensures Intersect(xs, AllCoords()) == OnBoard(xs)
    ensures Distinct(OnBoard(xs))
  {
    AllCoordsExactly();
    IntersectCells(xs, AllCoords());
  }

  /** The two lists are what the static constructor stores: the shifted candidates
      intersected with AllCoords; neither repeats a cell. */
  lemma ConnectionsAsBuilt(c: Coord)
    requires IsCell(c)
    ensures Connections(c) == Intersect(Shifted(c, StepOffsets), AllCoords())
    ensures Distinct(Connections(c))
  {
    OffsetsDistinct();
    ShiftedDistinct(c, StepOffsets);
    OnBoardAsBuilt(Shifted(c, StepOffsets));
  }

  lemma ReachAsBuilt(c: Coord)
    requires IsCell(c)
    ensures Reach(c) == Intersect(Shifted(c, JumpOffsets), AllCoords())
    ensures Distinct(Reach(c))
  {
    OffsetsDistinct();
    ShiftedDistinct(c, JumpOffsets);
    OnBoardAsBuilt(Shifted(c, JumpOffsets));
  }

  /** Hex distance does not depend on the direction it is measured in. */
  lemma HexDistanceSymmetric(c: Coord, d: Coord)
    ensures HexDistance(c, d) == HexDistance(d, c)
  {
    assert Abs(c.row - d.row) == Abs(d.row - c.row) && Abs(c.col - d.col) == Abs(d.col - c.col);
  }

  lemma ConnectionsSymmetric(c: Coord, d: Coord)
    requires IsCell(c) && IsCell(d)
    ensures d in Connections(c) <==> c in Connections(d)
  {
    ConnectionsAt(c, d);
    ConnectionsAt(d, c);
    HexDistanceSymmetric(c, d);
  }

  lemma ReachSymmetric(c: Coord, d: Coord)
    requires IsCell(c) && IsCell(d)
    ensures d in Reach(c) <==> c in Reach(d)
  {
    ReachAt(c, d);
    ReachAt(d, c);
    HexDistanceSymmetric(c, d);
  }

  lemma ListsDisjoint(c: Coord, d: Coord)
    requires IsCell(c)
    ensures !(d in Connections(c) && d in Reach(c))
  {
    ConnectionsAt(c, d);
    ReachAt(c, d);
  }

  lemma NotOwnNeighbour(c: Coord)
    requires IsCell(c)
    ensures c !in Connections(c) && c !in Reach(c)
  {
    ConnectionsAt(c, c);
    ReachAt(c, c);
  }

  /** Both neighbour relations are symmetric, the two lists of a cell are disjoint,
      and no cell is its own neighbour. */
  lemma NeighbourTables(c: Coord, d: Coord)
    requires IsCell(c) && IsCell(d)
    ensures d in Connections(c) <==> c in Connections(d)
    ensures d in Reach(c) <==> c in Reach(d)
    ensures !(d in Connections(c) && d in Reach(c))
    ensures c !in Connections(c) && c !in Reach(c)
  {
    ConnectionsSymmetric(c, d);
    ReachSymmetric(c, d);
    ListsDisjoint(c, d);
    NotOwnNeighbour(c);
  }

  // ---------------------------------------------------------------------------
  // The static constructor
  // ---------------------------------------------------------------------------

  /** The process-wide tables the static constructor fills. */
  datatype Tables = Tables(
    allCoords: seq<Coord>,
    indices: map<Coord, nat>,
    connections: map<Coord, seq<Coord>>,
    reach: map<Coord, seq<Coord>>)

  /** One pass of the banded loop: the inner loop over columns 4, 6, 8, 10 adds
      (row, col) and (row + 1, col + 1), then the edge cell (row, 12) is added. */
  method AddBand(start: seq<Coord>, row: int) returns (all: seq<Coord>)
    ensures all == start + Band(row)
  {
    all := start;
    var col := 4;
    ghost var m := 0;
    while col <= 11
      invariant 0 <= m <= 4 && col == 4 + 2 * m
      invariant all == start + Pairs(row, m)
    {
      all := all + [Coord(row, col)];
      all := all + [Coord(row + 1, col + 1)];
      assert all == start + (Pairs(row, m) + [Coord(row, 4 + 2 * m), Coord(row + 1, 5 + 2 * m)]);
      col := col + 2;
      m := m + 1;
    }
    all := all + [Coord(row, 12)];
    assert all == start + (Pairs(row, 4) + [Coord(row, 12)]);
  }

  /** One more pass of the banded loop extends the bands by the next row's band. */
  lemma BandsSnoc(start: seq<Coord>, n: nat)
    ensures (start + Bands(n)) + Band(8 + 2 * n) == start + Bands(n + 1)
  {
    assert Bands(n + 1) == Bands(n) + Band(8 + 2 * n);
  }

  /** The banded part of the enumeration, for rows 8, 10, ..., 6 + 2 * count
      (the constructor runs it with count = BandCount, rows 8 to 16). */
  method AddBands(start: seq<Coord>, count: nat) returns (all: seq<Coord>)
    ensures all == start + Bands(count)
  {
    all := start;
    var row := 8;
    ghost var n := 0;
    while row < 8 + 2 * count
      invariant 0 <= n <= count && row == 8 + 2 * n
      invariant all == start + Bands(n)
    {
      all := AddBand(all, row);
      BandsSnoc(start, n);
      row := row + 2;
      n := n + 1;
    }
  }

  /** The ten cells the static constructor adds one by one before the banded loop. */
  method AddHead() returns (all: seq<Coord>)
    ensures all == Head
  {
    all := [];
    all := all + [Coord(4, 8)];
    all := all + [Coord(5, 7)];
    all := all + [Coord(5, 9)];
    all := all + [Coord(6, 6)];
    all := all + [Coord(6, 8)];
    all := all + [Coord(6, 10)];
    all := all + [Coord(7, 5)];
    all := all + [Coord(7, 7)];
    all := all + [Coord(7, 9)];
    all := all + [Coord(7, 11)];
  }

  /** The six cells the static constructor adds one by one after the banded loop. */
  method AddTail(start: seq<Coord>) returns (all: seq<Coord>)
    ensures all == start + Tail
  {
    all := start;
    all := all + [Coord(18, 6)];
    all := all + [Coord(18, 8)];
    all := all + [Coord(18, 10)];
    all := all + [Coord(19, 7)];
    all := all + [Coord(19, 9)];
    all := all + [Coord(20, 8)];
  }

  /** The first half of the static constructor of Coord: the hard-coded
      enumeration of the 61 cells. */
  method BuildCoords() returns (all: seq<Coord>)
    ensures all == AllCoords()
  {
    all := AddHead();
    all := AddBands(all, BandCount);
    all := AddTail(all);
  }

  /** The loop of the static constructor that fills both neighbour dictionaries:
      for each cell of `all`, its shifted candidates intersected with `all`. */
  method FillNeighbours(all: seq<Coord>)
    returns (connections: map<Coord, seq<Coord>>, reach: map<Coord, seq<Coord>>)
    ensures forall c :: c in connections <==> c in all
    ensures forall c :: c in reach <==> c in all
    ensures forall c :: c in connections ==> connections[c] == Intersect(Shifted(c, StepOffsets), all)
    ensures forall c :: c in reach ==> reach[c] == Intersect(Shifted(c, JumpOffsets), all)
  {
    connections := map[];
    reach := map[];
    for i := 0 to |all|
      invariant forall c :: c in connections <==> c in all[..i]
      invariant forall c :: c in reach <==> c in all[..i]
      invariant forall c :: c in connections ==> connections[c] == Intersect(Shifted(c, StepOffsets), all)
      invariant forall c :: c in reach ==> reach[c] == Intersect(Shifted(c, JumpOffsets), all)
    {
      var coord := all[i];
      var cxns := Shifted(coord, StepOffsets);
      var rch := Shifted(coord, JumpOffsets);
      connections := connections[coord := Intersect(cxns, all)];
      reach := reach[coord := Intersect(rch, all)];
      PrefixMember(all, i);
    }
    assert all[..|all|] == all;
  }

  /** The static constructor of Coord: the enumeration, the index dictionary, and
      the two neighbour dictionaries. */
  method BuildTables() returns (t: Tables)
    ensures t.allCoords == AllCoords() && |t.allCoords| == CellCount && Distinct(t.allCoords)
    ensures forall c :: c in t.allCoords <==> IsCell(c)
    ensures forall c :: c in t.indices <==> IsCell(c)
    ensures forall i :: 0 <= i < CellCount ==> t.indices[t.allCoords[i]] == i
    ensures forall c :: c in t.connections <==> IsCell(c)
    ensures forall c :: c in t.reach <==> IsCell(c)
    ensures forall c :: c in t.connections ==> t.connections[c] == Connections(c)
    ensures forall c :: c in t.reach ==> t.reach[c] == Reach(c)
  {
    var all := BuildCoords();
    var indices := Indices();
    var connections, reach := FillNeighbours(all);
    AllCoordsExactly();
    forall c | IsCell(c)
      ensures Connections(c) == Intersect(Shifted(c, StepOffsets), all)
      ensures Reach(c) == Intersect(Shifted(c, JumpOffsets), all)
    {
      ConnectionsAsBuilt(c);
      ReachAsBuilt(c);
    }
    t := Tables(all, indices, connections, reach);
  }
}
