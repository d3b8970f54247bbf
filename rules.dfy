/** The rules of HexAtaxx on one board, as values: the state of each of the 61
    cells (indexed as in AllCoords), the scores, the legality and the effect of a
    move, and the moves a side may make. */
module Rules {
  import opened Wrappers
  import opened Geometry

  /** The content of a cell. */
  datatype State = Empty | Red | Yellow

  /** The opponent as `GetDifferential` and the search choose it: Yellow for Red,
      and Red for every other value (Empty included). */
  function Other(team: State): (o: State)
    ensures o != Empty && o != team
    ensures o == Yellow <==> team == Red
  {
    if team == Red then Yellow else Red
  }

  /** Between the two sides, Other is an involution. */
  lemma OtherInvolution(team: State)
    requires team != Empty
    ensures Other(Other(team)) == team
  {
  }

  /** A board's cells, by index; every board has exactly CellCount of them. */
  predicate IsBoard(cells: seq<State>) {
    |cells| == CellCount
  }

  /** The content of cell `c`, read through the index dictionary. */
  function At(cells: seq<State>, c: Coord): (r: State)
    requires IsBoard(cells) && IsCell(c)
    ensures forall i :: 0 <= i < CellCount && CoordAt(i) == c ==> r == cells[i]
  {
    IndexedAt(c);
    cells[IndexOf(c)]
  }

  /** The dictionary index of `c` is the only position whose coordinate is `c`. */
  lemma IndexedAt(c: Coord)
    requires IsCell(c)
    ensures forall i :: 0 <= i < CellCount && CoordAt(i) == c ==> i == IndexOf(c)
  {
    forall i | 0 <= i < CellCount && CoordAt(i) == c {
      IndexBijection(c, i);
    }
  }

  /** GetScore: the number of cells holding `team`. */
  function Score(cells: seq<State>, team: State): (n: nat)
    ensures n <= |cells|
    ensures n == 0 <==> team !in cells
  {
    Count(cells, team)
  }

  /** The three counts partition the cells. */
  lemma {:induction false} ScoresSum(cells: seq<State>)
    ensures Score(cells, Empty) + Score(cells, Red) + Score(cells, Yellow) == |cells|
  {
    if cells != [] {
      var front := cells[..|cells| - 1];
      ScoresSum(front);
      assert Score(cells, Empty) == Score(front, Empty) + (if cells[|cells| - 1] == Empty then 1 else 0);
      assert Score(cells, Red) == Score(front, Red) + (if cells[|cells| - 1] == Red then 1 else 0);
      assert Score(cells, Yellow) == Score(front, Yellow) + (if cells[|cells| - 1] == Yellow then 1 else 0);
    }
  }

  /** GetDifferential: the own score minus the opponent's. */
  function Differential(cells: seq<State>, team: State): (d: int)
    ensures IsBoard(cells) ==> -61 <= d <= 61
  {
    Score(cells, team) - Score(cells, Other(team))
  }

  /** The two sides' differentials are opposite, and together with the empty cells
      they account for the whole board. */
  lemma DifferentialSides(cells: seq<State>, team: State)
    requires IsBoard(cells) && team != Empty
    ensures Differential(cells, team) == -Differential(cells, Other(team))
    ensures Differential(cells, team) + 2 * Score(cells, Other(team)) + Score(cells, Empty) == CellCount
  {
    OtherInvolution(team);
    ScoresSum(cells);
  }

  // ---------------------------------------------------------------------------
  // Moves
  // ---------------------------------------------------------------------------

  datatype Move = Move(from: Coord, to: Coord)

  /** ValidDestinations: the step neighbours followed by the jump neighbours. */
  function Destinations(c: Coord): (r: seq<Coord>)
    requires IsCell(c)
    ensures forall d :: d in r ==> IsCell(d)
    ensures |r| <= 18
  {
    Connections(c) + Reach(c)
  }

  /** The destinations of a cell are exactly the cells one or two hex steps away. */
  lemma DestinationsExactly(c: Coord)
    requires IsCell(c)
    ensures forall d :: d in Destinations(c) <==> IsCell(d) && 1 <= HexDistance(c, d) <= 2
  {
    ConnectionsExactly(c);
    ReachExactly(c);
  }

  /** Board.Move's three guards: the target is a neighbour (one or two steps), the
      source is occupied, the target is empty. */
  predicate CanMove(cells: seq<State>, m: Move)
    requires IsBoard(cells) && IsCell(m.from)
    ensures CanMove(cells, m) ==> IsCell(m.to) && m.to != m.from
  {
    NotOwnNeighbour(m.from);
    && m.to in Destinations(m.from)
    && At(cells, m.from) != Empty
    && At(cells, m.to) == Empty
  }

  /** The content of cell `i` after a legal move: the target takes the mover's
      colour, the source empties on a jump, and every occupied step neighbour of
      the target is converted. */
  function MovedAt(cells: seq<State>, m: Move, i: nat): (r: State)
    requires IsBoard(cells) && IsCell(m.from) && IsCell(m.to) && i < CellCount
    ensures CoordAt(i) == m.to ==> r == At(cells, m.from)
    ensures r != cells[i] ==> CoordAt(i) == m.to || CoordAt(i) == m.from || CoordAt(i) in Connections(m.to)
  {
    var d := CoordAt(i);
    if d == m.to then At(cells, m.from)
    else if d == m.from && m.to in Reach(m.from) then Empty
    else if d in Connections(m.to) && cells[i] != Empty then At(cells, m.from)
    else cells[i]
  }

  /** The board after a legal move, cell by cell. */
  function Moved(cells: seq<State>, m: Move): (r: seq<State>)
    requires IsBoard(cells) && IsCell(m.from) && IsCell(m.to)
    ensures IsBoard(r)
    ensures forall i :: 0 <= i < CellCount ==> r[i] == MovedAt(cells, m, i)
    ensures r[IndexOf(m.to)] == At(cells, m.from)
    ensures forall i :: 0 <= i < CellCount && r[i] != cells[i] ==>
      CoordAt(i) == m.to || CoordAt(i) == m.from || CoordAt(i) in Connections(m.to)
  {
    seq(CellCount, i requires 0 <= i < CellCount => MovedAt(cells, m, i))
  }

  /** The board after `Board.Move`: moved when the move is legal, as it was otherwise. */
  function Outcome(cells: seq<State>, m: Move): (r: seq<State>)
    requires IsBoard(cells) && IsCell(m.from)
    ensures IsBoard(r)
    ensures !CanMove(cells, m) ==> r == cells
  {
    if CanMove(cells, m) then Moved(cells, m) else cells
  }

  /** What a legal move does, stated per cell by coordinate. */
  lemma MoveEffect(cells: seq<State>, m: Move, c: Coord)
    requires IsBoard(cells) && IsCell(m.from) && IsCell(c) && CanMove(cells, m)
    ensures c == m.to ==> At(Outcome(cells, m), c) == At(cells, m.from)
    ensures c == m.from ==>
      At(Outcome(cells, m), c) == (if m.to in Reach(m.from) then Empty else At(cells, m.from))
    ensures c in Connections(m.to) && At(cells, c) != Empty ==> At(Outcome(cells, m), c) == At(cells, m.from)
    ensures At(cells, c) == Empty && c != m.to ==> At(Outcome(cells, m), c) == Empty
    ensures c != m.to && c != m.from && c !in Connections(m.to) ==> At(Outcome(cells, m), c) == At(cells, c)
  {
    NeighbourTables(m.from, m.to);
  }

  /** After a legal move no cell next to the target keeps the opponent's colour. */
  lemma MoveConverts(cells: seq<State>, m: Move, c: Coord)
    requires IsBoard(cells) && IsCell(m.from) && CanMove(cells, m)
    requires c in Connections(m.to)
    ensures At(Outcome(cells, m), c) in {Empty, At(cells, m.from)}
  {
    MoveEffect(cells, m, c);
  }

  // ---------------------------------------------------------------------------
  // The moves a side may make
  // ---------------------------------------------------------------------------

  /** Destinations of `c` that are empty on the board (the Where of ValidMoves). */
  function EmptyDestinations(cells: seq<State>, ds: seq<Coord>): (r: seq<Coord>)
    requires IsBoard(cells) && forall d :: d in ds ==> IsCell(d)
    ensures forall d :: d in r <==> d in ds && At(cells, d) == Empty
    ensures |r| <= |ds|
  {
    if ds == [] then []
    else
      var rest := EmptyDestinations(cells, ds[..|ds| - 1]);
      var d := ds[|ds| - 1];
      if At(cells, d) == Empty then rest + [d] else rest
  }

  /** Cell.ValidMoves of the cell at index `i`. */
  function ValidMoves(cells: seq<State>, i: nat): (r: seq<Move>)
    requires IsBoard(cells) && i < CellCount
    ensures |r| <= 18
    ensures forall k :: 0 <= k < |r| ==> r[k].from == CoordAt(i)
  {
    var c := CoordAt(i);
    var ds := EmptyDestinations(cells, Destinations(c));
    seq(|ds|, k requires 0 <= k < |ds| => Move(c, ds[k]))
  }

  /** The SelectMany over the first `n` cells holding `turn`, in index order. */
  function CandidatesUpTo(cells: seq<State>, turn: State, n: nat): (r: seq<Move>)
    requires IsBoard(cells) && n <= CellCount
    ensures |r| <= 18 * n
    ensures forall k :: 0 <= k < |r| ==> IsCell(r[k].from)
  {
    if n == 0 then []
    else
      CandidatesUpTo(cells, turn, n - 1)
        + (if cells[n - 1] == turn then ValidMoves(cells, n - 1) else [])
  }

  /** The moves GetBestMoveFor tries for `turn`, one trial each, in this order.
      (Its second Where, on an empty target, keeps every element: ValidMoves
      already filtered on it.) */
  function Candidates(cells: seq<State>, turn: State): (r: seq<Move>)
    requires IsBoard(cells)
    ensures |r| <= CellCount * 18
    ensures forall k :: 0 <= k < |r| ==> IsCell(r[k].from)
  {
    CandidatesUpTo(cells, turn, |cells|)
  }

  /** The moves of one cell: from it to each empty cell one or two steps away. */
  lemma ValidMovesExactly(cells: seq<State>, i: nat, m: Move)
    requires IsBoard(cells) && i < CellCount
    ensures m in ValidMoves(cells, i) <==>
      && m.from == CoordAt(i)
      && m.to in Destinations(m.from) && At(cells, m.to) == Empty
  {
    var c := CoordAt(i);
    var ds := EmptyDestinations(cells, Destinations(c));
    if m in ValidMoves(cells, i) {
      var k :| 0 <= k < |ds| && m == Move(c, ds[k]);
    }
    if m.from == c && m.to in ds {
      var k :| 0 <= k < |ds| && m.to == ds[k];
      assert ValidMoves(cells, i)[k] == m;
    }
  }

  /** A move of `turn` from one of its cells to an empty cell one or two steps away. */
  predicate IsMoveOf(cells: seq<State>, turn: State, m: Move)
    requires IsBoard(cells)
  {
    && IsCell(m.from) && At(cells, m.from) == turn
    && m.to in Destinations(m.from) && At(cells, m.to) == Empty
  }

  /** The candidates from the first `n` cells are exactly the moves of `turn` from
      those cells. */
  lemma {:induction false} CandidatesUpToExactly(cells: seq<State>, turn: State, n: nat, m: Move)
    requires IsBoard(cells) && n <= CellCount
    ensures m in CandidatesUpTo(cells, turn, n) <==> IsMoveOf(cells, turn, m) && IndexOf(m.from) < n
  {
    if n > 0 {
      CandidatesUpToExactly(cells, turn, n - 1, m);
      var here := if cells[n - 1] == turn then ValidMoves(cells, n - 1) else [];
      var inPrev := m in CandidatesUpTo(cells, turn, n - 1);
      var inHere := m in here;
      assert m in CandidatesUpTo(cells, turn, n) <==> inPrev || inHere;
      CellMoves(cells, turn, n - 1, m);
      var legal := IsMoveOf(cells, turn, m);
      assert inPrev <==> legal && IndexOf(m.from) < n - 1;
      assert inHere <==> legal && IndexOf(m.from) == n - 1;
    }
  }

  /** The moves the cell at index `i` contributes. */
  lemma CellMoves(cells: seq<State>, turn: State, i: nat, m: Move)
    requires IsBoard(cells) && i < CellCount
    ensures m in (if cells[i] == turn then ValidMoves(cells, i) else []) <==>
      IsMoveOf(cells, turn, m) && IndexOf(m.from) == i
  {
    ValidMovesExactly(cells, i, m);
    if IsCell(m.from) {
      IndexBijection(m.from, i);
    }
  }

  /** The candidate moves are exactly the moves of `turn`. */
  lemma CandidatesExactly(cells: seq<State>, turn: State, m: Move)
    requires IsBoard(cells)
    ensures m in Candidates(cells, turn) <==> IsMoveOf(cells, turn, m)
  {
    CandidatesUpToExactly(cells, turn, CellCount, m);
  }

  /** For a real side every candidate passes Board.Move's guards, so every trial
      board is really moved. */
  lemma CandidatesAreLegal(cells: seq<State>, turn: State, m: Move)
    requires IsBoard(cells) && turn != Empty && m in Candidates(cells, turn)
    ensures IsCell(m.from) && CanMove(cells, m)
  {
    CandidatesExactly(cells, turn, m);
  }

  /** Trials for Empty: every candidate fails Board.Move, so its board stays a copy. */
  lemma EmptyCandidatesAreIllegal(cells: seq<State>, m: Move)
    requires IsBoard(cells) && m in Candidates(cells, Empty)
    ensures IsCell(m.from) && Outcome(cells, m) == cells
  {
    CandidatesExactly(cells, Empty, m);
  }
}
