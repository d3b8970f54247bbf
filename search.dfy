/** The game-tree search: the Trial record, the value every search is proved to
    compute (Best), the search itself (GetBestMoveFor, sequential), and
    Trial.Return. */
module Search {
  import opened Wrappers
  import opened Geometry
  import opened Rules
  import opened Ordering
  import opened Boards

  /** The default of GetBestMoveFor's maxTrials, which the recursive call relies on. */
  const DefaultMaxTrials: int := 10

  /** The most moves one side can have: 61 cells, 18 destinations each. */
  const MaxCandidates: nat := CellCount * 18

  /** A Trial: the board it owns, the side that moved, the move (none for a
      terminal trial), its score, whether the game ended, and the reply chosen
      below it. The board is named by its pool index. */
  datatype Trial = Trial(
    board: int,
    turn: State,
    move: Option<Move>,
    score: Byte,
    endGame: bool,
    bestResponse: Option<Trial>)

  /** What a trial says about the game, without the pool indices. */
  datatype Plan = Plan(
    turn: State,
    move: Option<Move>,
    score: Byte,
    endGame: bool,
    response: Option<Plan>)

  function PlanOf(t: Trial): (p: Plan)
    ensures p.turn == t.turn && p.move == t.move && p.score == t.score && p.endGame == t.endGame
    ensures p.response.Some? == t.bestResponse.Some?
  {
    Plan(t.turn, t.move, t.score, t.endGame,
      if t.bestResponse.Some? then Some(PlanOf(t.bestResponse.value)) else None)
  }

  // ---------------------------------------------------------------------------
  // The value a search computes
  // ---------------------------------------------------------------------------

  /** The score each trial gets right after its move: the mover's differential on
      the moved board, cast to a byte. */
  function MoveScores(cells: seq<State>, turn: State, ms: seq<Move>): (r: seq<Byte>)
    requires IsBoard(cells) && forall k :: 0 <= k < |ms| ==> IsCell(ms[k].from)
    ensures |r| == |ms|
    ensures forall i :: 0 <= i < |ms| ==>
      var d := Differential(Outcome(cells, ms[i]), turn);
      r[i] == if d >= 0 then d else d + 256
  {
    seq(|ms|, i requires 0 <= i < |ms| => ToByte(Differential(Outcome(cells, ms[i]), turn)))
  }

  /** The trials GetBestMoveFor expands below: with depth left, the first
      `maxTrials` in descending order of their move scores. */
  function Expanded(keys: seq<Byte>, depth: nat, maxTrials: int): seq<nat> {
    if depth == 0 then [] else Take(DescOrder(keys), maxTrials)
  }

  /** The plan of an expanded trial: the opponent's search on the moved board,
      one level shallower and with the default maxTrials, whose score the trial
      adopts. */
  function ExpandedPlan(cells: seq<State>, turn: State, m: Move, depth: nat): (p: Plan)
    requires IsBoard(cells) && IsCell(m.from) && depth > 0
    ensures p.turn == turn && p.move == Some(m) && !p.endGame && p.response.Some?
    ensures p.score == p.response.value.score
    decreases depth, 0
  {
    var reply := Best(Outcome(cells, m), Other(turn), depth - 1, DefaultMaxTrials);
    Plan(turn, Some(m), reply.score, false, Some(reply))
  }

  /** The final plan of every trial, in the order of the candidate moves. */
  function Options(cells: seq<State>, turn: State, depth: nat, maxTrials: int): (r: seq<Plan>)
    requires IsBoard(cells)
    ensures |r| == |Candidates(cells, turn)|
    ensures forall i :: 0 <= i < |r| ==>
      r[i].turn == turn && r[i].move == Some(Candidates(cells, turn)[i]) && !r[i].endGame
    decreases depth, 2
  {
    var ms := Candidates(cells, turn);
    var keys := MoveScores(cells, turn, ms);
    var top := Expanded(keys, depth, maxTrials);
    FinalPlans(cells, turn, ms, keys, top, depth)
  }

  /** The trials' final plans: trial i is expanded when it is among `top` and depth
      is left, and otherwise keeps its move score `keys[i]` with no reply. */
  function FinalPlans(cells: seq<State>, turn: State, ms: seq<Move>, keys: seq<Byte>, top: seq<nat>, depth: nat): (r: seq<Plan>)
    requires IsBoard(cells) && |keys| == |ms| && forall k :: 0 <= k < |ms| ==> IsCell(ms[k].from)
    ensures |r| == |ms|
    ensures forall i :: 0 <= i < |r| ==> r[i].turn == turn && r[i].move == Some(ms[i]) && !r[i].endGame
    ensures forall i :: 0 <= i < |r| && (depth == 0 || i !in top) ==> r[i] == Plan(turn, Some(ms[i]), keys[i], false, None)
    ensures forall i :: 0 <= i < |r| && depth > 0 && i in top ==> r[i] == ExpandedPlan(cells, turn, ms[i], depth)
    decreases depth, 1
  {
    seq(|ms|, i requires 0 <= i < |ms| =>
      if depth > 0 && i in top then ExpandedPlan(cells, turn, ms[i], depth)
      else Plan(turn, Some(ms[i]), keys[i], false, None))
  }

  /** The scores of a list of plans. */
  function ScoresOf(ps: seq<Plan>): (r: seq<Byte>)
    ensures |r| == |ps| && forall i :: 0 <= i < |ps| ==> r[i] == ps[i].score
  {
    seq(|ps|, i requires 0 <= i < |ps| => ps[i].score)
  }

  /** `OrderByDescending(t => t.Score).First()`: the first plan of highest score. */
  function WinnerOf(ps: seq<Plan>): (w: nat)
    requires |ps| > 0
    ensures w < |ps|
    ensures forall j :: 0 <= j < |ps| ==> ps[j].score <= ps[w].score
    ensures forall j :: 0 <= j < w ==> ps[j].score < ps[w].score
  {
    DescOrderFirst(ScoresOf(ps));
    DescOrder(ScoresOf(ps))[0]
  }

  /** The trial GetBestMoveFor returns for `turn` on `cells`: a terminal trial when
      there is no move, otherwise the first trial of highest final score. */
  function Best(cells: seq<State>, turn: State, depth: nat, maxTrials: int): (p: Plan)
    requires IsBoard(cells)
    ensures p.turn == turn
    ensures p.endGame <==> |Candidates(cells, turn)| == 0
    decreases depth, 3
  {
    if |Candidates(cells, turn)| == 0 then
      Plan(turn, None, ToByte(Score(cells, turn)), true, None)
    else
      var os := Options(cells, turn, depth, maxTrials);
      os[WinnerOf(os)]
  }

  // ---------------------------------------------------------------------------
  // What the search promises
  // ---------------------------------------------------------------------------

  /** With no move for `turn`, the search ends the game with the side's own score. */
  lemma BestTerminal(cells: seq<State>, turn: State, depth: nat, maxTrials: int)
    requires IsBoard(cells) && |Candidates(cells, turn)| == 0
    ensures Best(cells, turn, depth, maxTrials) == Plan(turn, None, Score(cells, turn), true, None)
  {
  }

  /** No move for a side exactly when none of its cells has an empty cell within
      two steps. */
  lemma NoMovesExactly(cells: seq<State>, turn: State)
    requires IsBoard(cells)
    ensures |Candidates(cells, turn)| == 0 <==>
      forall m: Move :: !IsMoveOf(cells, turn, m)
  {
    var ms := Candidates(cells, turn);
    if |ms| > 0 {
      CandidatesExactly(cells, turn, ms[0]);
    }
    forall m: Move | IsMoveOf(cells, turn, m) ensures m in ms {
      CandidatesExactly(cells, turn, m);
    }
  }

  /** Otherwise the result is one of the trials: the first whose final score is
      highest. */
  lemma BestIsFirstMaximum(cells: seq<State>, turn: State, depth: nat, maxTrials: int)
    requires IsBoard(cells) && |Candidates(cells, turn)| > 0
    ensures var os := Options(cells, turn, depth, maxTrials);
      var w := WinnerOf(os);
      && Best(cells, turn, depth, maxTrials) == os[w]
      && (forall j :: 0 <= j < |os| ==> os[j].score <= os[w].score)
      && (forall j :: 0 <= j < w ==> os[j].score < os[w].score)
  {
  }

  /** Every trial makes its candidate move; a trial that was not expanded keeps
      the byte-cast differential of its moved board. */
  lemma OptionMoves(cells: seq<State>, turn: State, depth: nat, maxTrials: int, i: nat)
    requires IsBoard(cells) && i < |Candidates(cells, turn)|
    ensures var o := Options(cells, turn, depth, maxTrials)[i];
      var m := Candidates(cells, turn)[i];
      && o.turn == turn && o.move == Some(m) && !o.endGame
      && (o.response.None? ==> o.score == ToByte(Differential(Outcome(cells, m), turn)))
  {
  }

  /** At depth zero no trial is expanded. */
  lemma DepthZeroLeaves(cells: seq<State>, turn: State, maxTrials: int, i: nat)
    requires IsBoard(cells) && i < |Candidates(cells, turn)|
    ensures Options(cells, turn, 0, maxTrials)[i].response.None?
  {
  }

  /** With depth left, exactly the trials among the first `maxTrials` of the stable
      descending order of move scores are expanded, and an expanded trial adopts
      the reply's score as it is (the reply's own differential, not negated). */
  lemma OnlyTopExpanded(cells: seq<State>, turn: State, depth: nat, maxTrials: int, i: nat)
    requires IsBoard(cells) && depth > 0 && i < |Candidates(cells, turn)|
    ensures var ms := Candidates(cells, turn);
      var o := Options(cells, turn, depth, maxTrials)[i];
      && (o.response.Some? <==> i in Take(DescOrder(MoveScores(cells, turn, ms)), maxTrials))
      && (o.response.Some? ==>
            && o.response.value == Best(Outcome(cells, ms[i]), Other(turn), depth - 1, DefaultMaxTrials)
            && o.score == o.response.value.score)
  {
    var ms := Candidates(cells, turn);
    var keys := MoveScores(cells, turn, ms);
    assert Options(cells, turn, depth, maxTrials) == FinalPlans(cells, turn, ms, keys, Expanded(keys, depth, maxTrials), depth);
  }

  /** An expanded trial's move score is no lower than that of any trial left
      unexpanded. */
  lemma ExpandedOutrankOthers(cells: seq<State>, turn: State, depth: nat, maxTrials: int, i: nat, j: nat)
    requires IsBoard(cells) && i < |Candidates(cells, turn)| && j < |Candidates(cells, turn)|
    requires Options(cells, turn, depth, maxTrials)[i].response.Some?
    requires Options(cells, turn, depth, maxTrials)[j].response.None?
    ensures var keys := MoveScores(cells, turn, Candidates(cells, turn));
      keys[j] <= keys[i]
  {
    var keys := MoveScores(cells, turn, Candidates(cells, turn));
    TopPositionsHighest(keys, maxTrials, i, j);
  }

  /** At most `maxTrials` trials are expanded (none when it is not positive). */
  lemma ExpandedCount(keys: seq<Byte>, depth: nat, maxTrials: int)
    ensures |Expanded(keys, depth, maxTrials)| <= if maxTrials > 0 then maxTrials else 0
    ensures |Expanded(keys, depth, maxTrials)| <= |keys|
  {
  }

  /** Scores are bytes: a loss wraps round to 195..255 and so ranks above every
      gain or draw (0..61) in the descending order. */
  lemma LossOutranksGain(loss: int, gain: int)
    requires -61 <= loss < 0 && 0 <= gain <= 61
    ensures ToByte(loss) > ToByte(gain)
    ensures ToByte(loss) >= 195
  {
  }

  /** A side with no cell has no move. */
  lemma NoCellsNoMoves(cells: seq<State>, team: State)
    requires IsBoard(cells) && Score(cells, team) == 0
    ensures |Candidates(cells, team)| == 0
  {
    var ms := Candidates(cells, team);
    if |ms| > 0 {
      CandidatesExactly(cells, team, ms[0]);
    }
  }

  /** An expanded trial whose move leaves the opponent no cell gets the terminal
      reply's score, the opponent's own count: zero. */
  lemma WipeOutScoresZero(cells: seq<State>, turn: State, depth: nat, maxTrials: int, i: nat)
    requires IsBoard(cells) && i < |Candidates(cells, turn)|
    requires Options(cells, turn, depth, maxTrials)[i].response.Some?
    requires Score(Outcome(cells, Candidates(cells, turn)[i]), Other(turn)) == 0
    ensures Options(cells, turn, depth, maxTrials)[i].score == 0
    ensures Options(cells, turn, depth, maxTrials)[i].response.value.endGame
  {
    var ms := Candidates(cells, turn);
    assert depth > 0;
    OnlyTopExpanded(cells, turn, depth, maxTrials, i);
    NoCellsNoMoves(Outcome(cells, ms[i]), Other(turn));
  }

  // ---------------------------------------------------------------------------
  // The search on the pool
  // ---------------------------------------------------------------------------

  /** The pool indices of a list of trials. */
  function BoardsOf(ts: seq<Trial>): (r: seq<int>)
    ensures |r| == |ts| && forall i :: 0 <= i < |ts| ==> r[i] == ts[i].board
  {
    seq(|ts|, i requires 0 <= i < |ts| => ts[i].board)
  }

  /** The plans of a list of trials. */
  function PlansOf(ts: seq<Trial>): (r: seq<Plan>)
    ensures |r| == |ts| && forall i :: 0 <= i < |ts| ==> r[i] == PlanOf(ts[i])
  {
    seq(|ts|, i requires 0 <= i < |ts| => PlanOf(ts[i]))
  }

  /** Never-used slots a search at `depth` may take: one per candidate move at
      each level, for each expanded trial. */
  function Budget(depth: nat, maxTrials: int): (n: nat)
    ensures n >= MaxCandidates
  {
    if depth == 0 then MaxCandidates
    else MaxCandidates + (if maxTrials > 0 then maxTrials else 0) * Budget(depth - 1, DefaultMaxTrials)
  }

  /** The capacity the program gives the pool. */
  const MaxBoards: nat := 2500000

  /** Budget with the default maxTrials never shrinks as the depth grows. */
  lemma {:induction false} BudgetDeeper(depth: nat)
    requires depth >= 4
    ensures Budget(depth, DefaultMaxTrials) >= Budget(4, DefaultMaxTrials)
  {
    if depth > 4 {
      BudgetDeeper(depth - 1);
    }
  }

  /** What Budget asks of the program's pool: a search of depth 3 fits its
      capacity and a search of depth 4 or more exceeds it, since Budget counts
      every slot a search may take as never used and none as reused. */
  lemma BudgetAtCapacity(depth: nat)
    ensures Budget(3, DefaultMaxTrials) == 1219878 <= MaxBoards
    ensures depth >= 4 ==> Budget(depth, DefaultMaxTrials) > MaxBoards
  {
    assert Budget(0, DefaultMaxTrials) == 1098;
    assert Budget(1, DefaultMaxTrials) == 12078;
    assert Budget(2, DefaultMaxTrials) == 121878;
    assert Budget(3, DefaultMaxTrials) == 1219878;
    assert Budget(4, DefaultMaxTrials) == 12199878;
    if depth >= 4 {
      BudgetDeeper(depth);
    }
  }

  /** After the first |ts| clones of the Select, from pool (s0, b0) to (s, bs): each
      trial starts the next move on a slot nobody held before, now a copy of `board`,
      and every slot held at the start, `board` among them, is still held and untouched. */
  ghost predicate Started(s0: Slots, b0: seq<seq<State>>, board: int, turn: State, ms: seq<Move>,
                          ts: seq<Trial>, s: Slots, bs: seq<seq<State>>)
  {
    && 0 <= board < |b0| && s.top <= |bs| && |ts| <= |ms|
    && Holds(s0, board) && Sound(s) && Kept(s0, b0, s, bs) && Holds(s, board)
    && (BoardsOf(ts), s) == GetMany(s0, |ts|)
    && s.top <= s0.top + |ts|
    && FreshTrials(ts, turn, ms)
    && (forall k :: 0 <= k < |ts| ==>
          Holds(s, ts[k].board) && !Holds(s0, ts[k].board) && bs[ts[k].board] == b0[board])
    && Distinct(BoardsOf(ts))
  }

  /** One more Clone of `board`, on the ledger and the boards alone. */
  lemma ClonePool(s0: Slots, b0: seq<seq<State>>, board: int, s: Slots, bs: seq<seq<State>>,
                  b: int, s': Slots, bs': seq<seq<State>>)
    requires 0 <= board < |b0| && Holds(s0, board) && Kept(s0, b0, s, bs) && Sound(s) && Holds(s, board)
    requires (b, s') == Acquire(s) && s'.top <= |bs| && bs' == bs[b := bs[board]]
    ensures Sound(s') && Kept(s0, b0, s', bs') && Holds(s', board) && b != board
    ensures !Holds(s, b) && Holds(s', b) && bs'[b] == b0[board] && s'.top <= s.top + 1
    ensures forall j :: Holds(s, j) && j != b ==> Holds(s', j) && bs'[j] == bs[j]
  {
    AcquireSound(s);
    assert Kept(s, bs, s', bs');
    KeptTransitive(s0, b0, s, bs, s', bs');
  }

  /** One more Clone of `board` keeps Started. */
  lemma StartStep(s0: Slots, b0: seq<seq<State>>, board: int, turn: State, ms: seq<Move>,
                  ts: seq<Trial>, s: Slots, bs: seq<seq<State>>, b: int, s': Slots, bs': seq<seq<State>>)
    requires Started(s0, b0, board, turn, ms, ts, s, bs) && |ts| < |ms|
    requires (b, s') == Acquire(s) && s'.top <= |bs| && bs' == bs[b := bs[board]]
    ensures Started(s0, b0, board, turn, ms, ts + [Trial(b, turn, Some(ms[|ts|]), 0, false, None)], s', bs')
  {
    var ts' := ts + [Trial(b, turn, Some(ms[|ts|]), 0, false, None)];
    ClonePool(s0, b0, board, s, bs, b, s', bs');
    GetManySnoc(s0, |ts|);
    assert BoardsOf(ts') == BoardsOf(ts) + [b];
    FreshTrialsSnoc(ts, turn, ms, b);
    forall k | 0 <= k < |ts|
      ensures Holds(s', ts'[k].board) && !Holds(s0, ts'[k].board) && bs'[ts'[k].board] == b0[board]
    {
      assert ts'[k] == ts[k];
    }
    assert forall k :: 0 <= k < |ts| ==> BoardsOf(ts)[k] != b;
    DistinctConcat(BoardsOf(ts), [b]);
  }

  /** The trials so far are the candidate moves in order, each on its board, with
      score 0 and no reply. */
  predicate FreshTrials(ts: seq<Trial>, turn: State, ms: seq<Move>) {
    |ts| <= |ms| && forall k :: 0 <= k < |ts| ==> ts[k] == Trial(ts[k].board, turn, Some(ms[k]), 0, false, None)
  }

  /** One more trial for the next move keeps the trials fresh. */
  lemma FreshTrialsSnoc(ts: seq<Trial>, turn: State, ms: seq<Move>, b: int)
    requires FreshTrials(ts, turn, ms) && |ts| < |ms|
    ensures FreshTrials(ts + [Trial(b, turn, Some(ms[|ts|]), 0, false, None)], turn, ms)
  {
    var ts' := ts + [Trial(b, turn, Some(ms[|ts|]), 0, false, None)];
    forall k | 0 <= k < |ts'| ensures ts'[k] == Trial(ts'[k].board, turn, Some(ms[k]), 0, false, None) {
      if k < |ts| {
        assert ts'[k] == ts[k];
      }
    }
  }

  /** The Select of GetBestMoveFor: one trial per candidate move, in order, each on
      a fresh clone of `board` taken from the pool. */
  method StartTrials(a: Arena, board: int, turn: State, ms: seq<Move>) returns (ts: seq<Trial>)
    modifies a
    requires a.Valid() && Sound(a.Pool()) && Holds(a.Pool(), board)
    requires a.topBoard + |ms| <= a.boardsAvailable
    ensures a.Valid() && a.boardsAvailable == old(a.boardsAvailable) && |ts| == |ms|
    ensures Started(old(a.Pool()), old(a.boards), board, turn, ms, ts, a.Pool(), a.boards)
  {
    ts := [];
    assert Kept(a.Pool(), a.boards, a.Pool(), a.boards);
    for i := 0 to |ms|
      invariant a.Valid() && a.boardsAvailable == old(a.boardsAvailable) && |ts| == i
      invariant Started(old(a.Pool()), old(a.boards), board, turn, ms, ts, a.Pool(), a.boards)
    {
      ghost var s := a.Pool();
      ghost var bs := a.boards;
      var b := a.Clone(board);
      StartStep(old(a.Pool()), old(a.boards), board, turn, ms, ts, s, bs, b, a.Pool(), a.boards);
      ts := ts + [Trial(b, turn, Some(ms[i]), 0, false, None)];
    }
  }

  /** Every trial carries a move from a cell. */
  predicate Moves(ts: seq<Trial>) {
    forall i :: 0 <= i < |ts| ==> ts[i].move.Some? && IsCell(ts[i].move.value.from)
  }

  /** Every trial carries a move from a cell and is on one of the first `n` boards. */
  predicate OnPool(ts: seq<Trial>, n: nat) {
    Moves(ts) && forall i :: 0 <= i < |ts| ==> 0 <= ts[i].board < n
  }

  /** The cells each trial's move produces from `cells`. */
  function Outcomes(ts: seq<Trial>, cells: seq<State>): (r: seq<seq<State>>)
    requires IsBoard(cells) && Moves(ts)
    ensures |r| == |ts| && forall i :: 0 <= i < |ts| ==> IsBoard(r[i])
  {
    seq(|ts|, i requires 0 <= i < |ts| => Outcome(cells, ts[i].move.value))
  }

  /** Each trial with its score set to the mover's byte-cast differential after its move. */
  function ScoredTrials(ts: seq<Trial>, cells: seq<State>, turn: State): (r: seq<Trial>)
    requires IsBoard(cells) && Moves(ts)
    ensures |r| == |ts|
  {
    seq(|ts|, i requires 0 <= i < |ts| =>
      ts[i].(score := ToByte(Differential(Outcome(cells, ts[i].move.value), turn))))
  }

  /** One step of GetBestMoveFor's first loop: make the trial's move on its
      board and return the mover's differential cast to a byte. */
  method ScoreOne(a: Arena, t: Trial, turn: State, ghost cells: seq<State>) returns (score: Byte)
    modifies a
    requires a.Valid() && IsBoard(cells) && 0 <= t.board < |a.boards| && a.boards[t.board] == cells
    requires t.move.Some? && IsCell(t.move.value.from)
    ensures a.Valid() && a.Pool() == old(a.Pool()) && a.boardsAvailable == old(a.boardsAvailable)
    ensures a.boards == old(a.boards)[t.board := Outcome(cells, t.move.value)]
    ensures score == ToByte(Differential(Outcome(cells, t.move.value), turn))
  {
    var ok := a.Move(t.board, t.move.value);
    score := ToByte(Differential(a.boards[t.board], turn));
  }

  /** Before trial `i` is played, its board still holds the copied cells. */
  lemma BoardUntouched(bs0: seq<seq<State>>, ts: seq<Trial>, cells: seq<State>, i: nat)
    requires IsBoard(cells) && Distinct(BoardsOf(ts)) && OnPool(ts, |bs0|) && i < |ts|
    requires forall k :: 0 <= k < |ts| ==> bs0[ts[k].board] == cells
    ensures Overwrite(bs0, BoardsOf(ts)[..i], Outcomes(ts, cells)[..i])[ts[i].board] == cells
  {
    DistinctFresh(BoardsOf(ts), i);
    OverwriteAt(bs0, BoardsOf(ts)[..i], Outcomes(ts, cells)[..i], ts[i].board);
  }

  /** Playing trial `i` extends the overwritten prefix by its board's outcome. */
  lemma BoardsStep(bs0: seq<seq<State>>, ts: seq<Trial>, cells: seq<State>, i: nat)
    requires IsBoard(cells) && OnPool(ts, |bs0|) && i < |ts|
    ensures Overwrite(bs0, BoardsOf(ts)[..i + 1], Outcomes(ts, cells)[..i + 1])
         == Overwrite(bs0, BoardsOf(ts)[..i], Outcomes(ts, cells)[..i])[ts[i].board := Outcome(cells, ts[i].move.value)]
  {
    PrefixSnoc(BoardsOf(ts), i);
    PrefixSnoc(Outcomes(ts, cells), i);
  }

  /** Scoring trial `i` extends the scored prefix by that trial. */
  lemma ScoresStep(ts: seq<Trial>, cells: seq<State>, turn: State, i: nat)
    requires IsBoard(cells) && Moves(ts) && i < |ts|
    ensures ScoredTrials(ts, cells, turn)[..i + 1]
         == ScoredTrials(ts, cells, turn)[..i] + [ts[i].(score := ToByte(Differential(Outcome(cells, ts[i].move.value), turn)))]
  {
    PrefixSnoc(ScoredTrials(ts, cells, turn), i);
  }

  /** The first loop of GetBestMoveFor: make each trial's move on its board and
      score the trial by the mover's differential, cast to a byte. */
  method ScoreTrials(a: Arena, ts: seq<Trial>, turn: State, ghost cells: seq<State>) returns (scored: seq<Trial>)
    modifies a
    requires a.Valid() && IsBoard(cells) && Distinct(BoardsOf(ts)) && OnPool(ts, |a.boards|)
    requires forall i :: 0 <= i < |ts| ==> a.boards[ts[i].board] == cells
    ensures a.Valid() && a.Pool() == old(a.Pool()) && a.boardsAvailable == old(a.boardsAvailable)
    ensures a.boards == Overwrite(old(a.boards), BoardsOf(ts), Outcomes(ts, cells))
    ensures scored == ScoredTrials(ts, cells, turn)
  {
    scored := [];
    for i := 0 to |ts|
      invariant a.Valid() && a.Pool() == old(a.Pool()) && a.boardsAvailable == old(a.boardsAvailable)
      invariant a.boards == Overwrite(old(a.boards), BoardsOf(ts)[..i], Outcomes(ts, cells)[..i])
      invariant scored == ScoredTrials(ts, cells, turn)[..i]
    {
      BoardUntouched(old(a.boards), ts, cells, i);
      BoardsStep(old(a.boards), ts, cells, i);
      ScoresStep(ts, cells, turn, i);
      var score := ScoreOne(a, ts[i], turn, cells);
      scored := scored + [ts[i].(score := score)];
    }
    PrefixAll(BoardsOf(ts));
    PrefixAll(Outcomes(ts, cells));
    PrefixAll(ScoredTrials(ts, cells, turn));
  }

  /** `e` is trial `t` after act: it took the reply found by the opponent's search
      on `cells` one level shallower, with the default maxTrials, and adopted the
      reply's score; a terminal reply owns the same board as the trial. */
  ghost predicate Replied(t: Trial, e: Trial, cells: seq<State>, turn: State, depth: nat) {
    depth > 0 && IsBoard(cells) && Adopted(t, e, Reply(cells, turn, depth))
  }

  /** The opponent's answer on `cells`: its search one level shallower, with the
      default maxTrials. */
  ghost function Reply(cells: seq<State>, turn: State, depth: nat): Plan
    requires depth > 0 && IsBoard(cells)
  {
    Best(cells, Other(turn), depth - 1, DefaultMaxTrials)
  }

  /** `e` is `t` having taken a reply of plan `want` and its score; a terminal
      reply owns the same board as the trial. */
  ghost predicate Adopted(t: Trial, e: Trial, want: Plan) {
    && e.bestResponse.Some?
    && e == t.(score := e.bestResponse.value.score, bestResponse := e.bestResponse)
    && PlanOf(e.bestResponse.value) == want
    && (e.bestResponse.value.endGame ==> e.bestResponse.value.board == t.board)
  }

  /** The replies the foreach looks for, one per trial board. */
  ghost function Replies(outs: seq<seq<State>>, turn: State, depth: nat): (r: seq<Plan>)
    requires depth > 0 && forall i :: 0 <= i < |outs| ==> IsBoard(outs[i])
    ensures |r| == |outs|
    ensures forall i {:trigger Reply(outs[i], turn, depth)} :: 0 <= i < |outs| ==> r[i] == Reply(outs[i], turn, depth)
  {
    seq(|outs|, i requires 0 <= i < |outs| => Reply(outs[i], turn, depth))
  }

  /** Multiplying by a natural keeps order. A one-step fact, stated on its own so
      that the proofs that use it stay cheap. */
  lemma MulMono(x: nat, y: nat, g: nat)
    requires x <= y
    ensures x * g <= y * g
  {
  }

  /** Every trial's slot is held. */
  predicate HeldAll(s: Slots, ts: seq<Trial>) {
    forall i :: 0 <= i < |ts| ==> Holds(s, ts[i].board)
  }

  lemma KeptHeldAll(s0: Slots, b0: seq<seq<State>>, s1: Slots, b1: seq<seq<State>>, ts: seq<Trial>)
    requires Kept(s0, b0, s1, b1) && HeldAll(s0, ts)
    ensures HeldAll(s1, ts)
  {
    forall i | 0 <= i < |ts| ensures Holds(s1, ts[i].board) {
      KeptHolds(s0, b0, s1, b1, ts[i].board);
    }
  }

  /** The slots a trial owns: its board, then those of its reply, down the chain.
      A terminal trial owns none: its board is the one it was searched on, which
      belongs to its caller. */
  function OwnedBoards(t: Trial): seq<int>
    decreases t
  {
    if t.endGame then []
    else [t.board] + if t.bestResponse.Some? then OwnedBoards(t.bestResponse.value) else []
  }

  /** Every slot `t` owns is held in `s` and was not held in `s0`, and none is
      owned twice. */
  ghost predicate OwnsFresh(s0: Slots, s: Slots, t: Trial) {
    && Distinct(OwnedBoards(t))
    && forall k :: 0 <= k < |OwnedBoards(t)| ==> Holds(s, OwnedBoards(t)[k]) && !Holds(s0, OwnedBoards(t)[k])
  }

  /** A slot not held after Kept was not held before it. */
  lemma KeptNotHeld(s0: Slots, b0: seq<seq<State>>, s1: Slots, b1: seq<seq<State>>, j: int)
    requires Kept(s0, b0, s1, b1) && !Holds(s1, j)
    ensures !Holds(s0, j)
  {
  }

  /** Kept leaves the slots a trial owns held. */
  lemma KeptOwns(s0: Slots, s: Slots, b: seq<seq<State>>, s': Slots, b': seq<seq<State>>, t: Trial)
    requires OwnsFresh(s0, s, t) && Kept(s, b, s', b')
    ensures OwnsFresh(s0, s', t)
  {
    forall k | 0 <= k < |OwnedBoards(t)| ensures Holds(s', OwnedBoards(t)[k]) {
      KeptHolds(s, b, s', b', OwnedBoards(t)[k]);
    }
  }

  /** Slots fresh since a state are fresh since any state Kept before it. */
  lemma OwnsEarlier(s0: Slots, b0: seq<seq<State>>, s1: Slots, b1: seq<seq<State>>, s: Slots, t: Trial)
    requires Kept(s0, b0, s1, b1) && OwnsFresh(s1, s, t)
    ensures OwnsFresh(s0, s, t)
  {
    forall k | 0 <= k < |OwnedBoards(t)| ensures !Holds(s0, OwnedBoards(t)[k]) {
      KeptNotHeld(s0, b0, s1, b1, OwnedBoards(t)[k]);
    }
  }

  /** After `n` rounds of the foreach, every reply taken so far owns slots held in
      `s` and not held in `s0`. */
  ghost predicate RepliesOwned(s0: Slots, s: Slots, ex: seq<Trial>, top: seq<nat>, n: nat) {
    n <= |top| &&
    forall i :: 0 <= i < |ex| && i in top[..n] && ex[i].bestResponse.Some? ==>
      OwnsFresh(s0, s, ex[i].bestResponse.value)
  }

  /** One more round keeps RepliesOwned: earlier replies stay held by Kept, and the
      new one is fresh since the round began, hence since the foreach began. */
  lemma RepliesStep(s0: Slots, b0: seq<seq<State>>, s: Slots, b: seq<seq<State>>, s': Slots, b': seq<seq<State>>,
                    ex: seq<Trial>, ex': seq<Trial>, top: seq<nat>, j: nat)
    requires Kept(s0, b0, s, b) && Kept(s, b, s', b') && RepliesOwned(s0, s, ex, top, j)
    requires j < |top| && top[j] < |ex| && |ex'| == |ex|
    requires forall i :: 0 <= i < |ex| && i != top[j] ==> ex'[i] == ex[i]
    requires ex'[top[j]].bestResponse.Some? && OwnsFresh(s, s', ex'[top[j]].bestResponse.value)
    ensures RepliesOwned(s0, s', ex', top, j + 1)
  {
    PrefixMember(top, j);
    forall i | 0 <= i < |ex'| && i in top[..j + 1] && ex'[i].bestResponse.Some?
      ensures OwnsFresh(s0, s', ex'[i].bestResponse.value)
    {
      if i == top[j] {
        OwnsEarlier(s0, b0, s, b, s', ex'[i].bestResponse.value);
      } else {
        KeptOwns(s0, s, b, s', b', ex[i].bestResponse.value);
      }
    }
  }

  /** After `n` rounds of the foreach: the trials at the first `n` positions of
      `top` took their replies, the rest are as they were, all on their own boards. */
  ghost predicate Acted(ts: seq<Trial>, ex: seq<Trial>, top: seq<nat>, n: nat, wants: seq<Plan>) {
    && n <= |top| && |ex| == |ts| && |wants| == |ts|
    && (forall i :: 0 <= i < |ts| ==> ex[i].board == ts[i].board)
    && (forall i :: 0 <= i < |ts| && i !in top[..n] ==> ex[i] == ts[i])
    && (forall i :: 0 <= i < |ts| && i in top[..n] ==> Adopted(ts[i], ex[i], wants[i]))
  }

  /** One more round: the next position of `top`, untouched so far, takes its reply. */
  lemma ActStep(ts: seq<Trial>, ex: seq<Trial>, top: seq<nat>, j: nat, wants: seq<Plan>, e: Trial)
    requires Acted(ts, ex, top, j, wants) && j < |top| && Distinct(top) && top[j] < |ts|
    requires Adopted(ts[top[j]], e, wants[top[j]])
    ensures Acted(ts, ex[top[j] := e], top, j + 1, wants)
  {
    PrefixSnoc(top, j);
    DistinctFresh(top, j);
  }

  /** The act of GetBestMoveFor on one trial: the opponent's search on the trial's
      board, one level shallower, whose reply the trial adopts with its score. */
  method ExpandOne(a: Arena, t: Trial, turn: State, depth: nat, ghost cells: seq<State>)
    returns (e: Trial)
    modifies a
    requires depth > 0 && a.Valid() && Sound(a.Pool()) && Holds(a.Pool(), t.board) && a.boards[t.board] == cells
    requires a.topBoard + Budget(depth - 1, DefaultMaxTrials) <= a.boardsAvailable
    ensures a.Valid() && Sound(a.Pool()) && a.boardsAvailable == old(a.boardsAvailable)
    ensures Kept(old(a.Pool()), old(a.boards), a.Pool(), a.boards)
    ensures a.topBoard <= old(a.topBoard) + Budget(depth - 1, DefaultMaxTrials)
    ensures Replied(t, e, cells, turn, depth)
    ensures OwnsFresh(old(a.Pool()), a.Pool(), e.bestResponse.value)
    decreases depth, 0
  {
    ghost var rs;
    var r;
    r, rs := GetBestMoveFor(a, Other(turn), t.board, depth - 1, DefaultMaxTrials);
    e := t.(score := r.score, bestResponse := Some(r));
    assert e.bestResponse.value == r && PlanOf(r) == Reply(cells, turn, depth);
  }

  /** One round of the foreach: the trial at position `top[j]` takes its reply. */
  method ActOne(a: Arena, ts: seq<Trial>, ex: seq<Trial>, turn: State, depth: nat, top: seq<nat>, j: nat,
                ghost outs: seq<seq<State>>, ghost wants: seq<Plan>)
    returns (ex': seq<Trial>)
    modifies a
    requires depth > 0 && a.Valid() && Sound(a.Pool()) && HeldAll(a.Pool(), ts)
    requires j < |top| && Distinct(top) && top[j] < |ts| && Acted(ts, ex, top, j, wants) && |outs| == |ts|
    requires a.boards[ts[top[j]].board] == outs[top[j]]
    requires forall i {:trigger Reply(outs[i], turn, depth)} :: 0 <= i < |ts| ==>
      IsBoard(outs[i]) && wants[i] == Reply(outs[i], turn, depth)
    requires a.topBoard + Budget(depth - 1, DefaultMaxTrials) <= a.boardsAvailable
    ensures a.Valid() && Sound(a.Pool()) && a.boardsAvailable == old(a.boardsAvailable)
    ensures Kept(old(a.Pool()), old(a.boards), a.Pool(), a.boards) && HeldAll(a.Pool(), ts)
    ensures a.topBoard <= old(a.topBoard) + Budget(depth - 1, DefaultMaxTrials)
    ensures Acted(ts, ex', top, j + 1, wants)
    ensures |ex'| == |ex| && forall i :: 0 <= i < |ex| && i != top[j] ==> ex'[i] == ex[i]
    ensures ex'[top[j]].bestResponse.Some? && OwnsFresh(old(a.Pool()), a.Pool(), ex'[top[j]].bestResponse.value)
    decreases depth, 1
  {
    var i := top[j];
    var e := ExpandOne(a, ts[i], turn, depth, outs[i]);
    KeptHeldAll(old(a.Pool()), old(a.boards), a.Pool(), a.boards, ts);
    ActStep(ts, ex, top, j, wants, e);
    ex' := ex[i := e];
  }

  /** The sequential foreach of GetBestMoveFor over the trials at positions `top`:
      each runs the opponent's search on its board and adopts its reply. */
  method ExpandTop(a: Arena, ts: seq<Trial>, turn: State, depth: nat, top: seq<nat>,
                   ghost outs: seq<seq<State>>, ghost wants: seq<Plan>)
    returns (ex: seq<Trial>)
    modifies a
    requires depth > 0 && a.Valid() && Sound(a.Pool())
    requires |outs| == |ts| && Distinct(top) && forall j :: 0 <= j < |top| ==> top[j] < |ts|
    requires forall i :: 0 <= i < |ts| ==> Holds(a.Pool(), ts[i].board) && a.boards[ts[i].board] == outs[i]
    requires a.topBoard + |top| * Budget(depth - 1, DefaultMaxTrials) <= a.boardsAvailable
    requires |wants| == |ts|
    requires forall i {:trigger Reply(outs[i], turn, depth)} :: 0 <= i < |ts| ==>
      IsBoard(outs[i]) && wants[i] == Reply(outs[i], turn, depth)
    ensures a.Valid() && Sound(a.Pool()) && a.boardsAvailable == old(a.boardsAvailable)
    ensures Kept(old(a.Pool()), old(a.boards), a.Pool(), a.boards)
    ensures a.topBoard <= old(a.topBoard) + |top| * Budget(depth - 1, DefaultMaxTrials)
    ensures |ex| == |ts|
    ensures forall i :: 0 <= i < |ts| ==> Holds(a.Pool(), ts[i].board) && ex[i].board == ts[i].board
    ensures forall i :: 0 <= i < |ts| && i !in top ==> ex[i] == ts[i]
    ensures forall i :: 0 <= i < |ts| && i in top ==> Adopted(ts[i], ex[i], wants[i])
    ensures forall i :: 0 <= i < |ts| && i in top && ex[i].bestResponse.Some? ==>
      OwnsFresh(old(a.Pool()), a.Pool(), ex[i].bestResponse.value)
    decreases depth, 2
  {
    ghost var g := Budget(depth - 1, DefaultMaxTrials);
    ex := ts;
    assert Kept(a.Pool(), a.boards, a.Pool(), a.boards);
    for j := 0 to |top|
      invariant a.Valid() && Sound(a.Pool()) && a.boardsAvailable == old(a.boardsAvailable)
      invariant Kept(old(a.Pool()), old(a.boards), a.Pool(), a.boards)
      invariant a.topBoard <= old(a.topBoard) + j * g
      invariant HeldAll(a.Pool(), ts)
      invariant Acted(ts, ex, top, j, wants)
      invariant RepliesOwned(old(a.Pool()), a.Pool(), ex, top, j)
    {
      MulMono(j + 1, |top|, g);
      assert (j + 1) * g == j * g + g;
      ghost var s := a.Pool();
      ghost var bs := a.boards;
      ghost var ex0 := ex;
      ex := ActOne(a, ts, ex, turn, depth, top, j, outs, wants);
      RepliesStep(old(a.Pool()), old(a.boards), s, bs, a.Pool(), a.boards, ex0, ex, top, j);
      KeptTransitive(old(a.Pool()), old(a.boards), s, bs, a.Pool(), a.boards);
    }
    PrefixAll(top);
  }

  /** The loop over the trials in GetBestMoveFor's last Access: every trial but the
      winner gives its board back, in trial order. */
  method ReturnLosers(a: Arena, ts: seq<Trial>, w: nat)
    modifies a
    requires a.Valid() && w < |ts| && forall i :: 0 <= i < |ts| ==> 0 <= ts[i].board < a.topBoard
    ensures a.Valid() && a.Pool() == Slots(old(a.freed) + Without(BoardsOf(ts), w), old(a.topBoard))
    ensures a.boards == old(a.boards) && a.boardsAvailable == old(a.boardsAvailable)
  {
    for i := 0 to |ts|
      invariant a.Valid() && a.Pool() == Slots(old(a.freed) + Without(BoardsOf(ts)[..i], w), old(a.topBoard))
      invariant a.boards == old(a.boards) && a.boardsAvailable == old(a.boardsAvailable)
    {
      WithoutStep(BoardsOf(ts), w, i);
      if i != w {
        a.Return(ts[i].board);
        PushAfter(old(a.freed), Without(BoardsOf(ts)[..i], w), ts[i].board);
      }
    }
    PrefixAll(BoardsOf(ts));
  }

  /** The trials after the first loop have the shape the Select gave them, on the
      move scores of the candidate moves. */
  lemma ScoredShape(cells: seq<State>, turn: State, ms: seq<Move>, ts: seq<Trial>)
    requires IsBoard(cells) && |ts| == |ms| && forall k :: 0 <= k < |ms| ==> IsCell(ms[k].from)
    requires forall k :: 0 <= k < |ts| ==> ts[k] == Trial(ts[k].board, turn, Some(ms[k]), 0, false, None)
    ensures Moves(ts)
    ensures forall k :: 0 <= k < |ts| ==>
      ScoredTrials(ts, cells, turn)[k] == Trial(ts[k].board, turn, Some(ms[k]), MoveScores(cells, turn, ms)[k], false, None)
    ensures ScoresOf(PlansOf(ScoredTrials(ts, cells, turn))) == MoveScores(cells, turn, ms)
  {
  }

  /** After the Select and the first loop, from pool (s0, b0) to (s, bs): one trial
      per move of `ms`, in order, scored by its move, each on its own slot that
      nobody held before and that now holds the move's outcome on `cells`. */
  ghost predicate Played(s0: Slots, b0: seq<seq<State>>, cells: seq<State>, turn: State, ms: seq<Move>,
                         ts: seq<Trial>, s: Slots, bs: seq<seq<State>>)
  {
    && IsBoard(cells) && |ts| == |ms| && (forall k :: 0 <= k < |ms| ==> IsCell(ms[k].from))
    && Sound(s) && Kept(s0, b0, s, bs) && s.top <= s0.top + |ms| && s.top <= |bs|
    && Distinct(BoardsOf(ts))
    && (forall k :: 0 <= k < |ts| ==>
          ts[k] == Trial(ts[k].board, turn, Some(ms[k]), MoveScores(cells, turn, ms)[k], false, None))
    && (forall k :: 0 <= k < |ts| ==>
          Holds(s, ts[k].board) && !Holds(s0, ts[k].board) && bs[ts[k].board] == Outcome(cells, ms[k]))
  }

  /** Started, then the moves made on the trial boards, give Played. */
  lemma PlayedAfter(s0: Slots, b0: seq<seq<State>>, board: int, cells: seq<State>, turn: State, ms: seq<Move>,
                    ts: seq<Trial>, s: Slots, bs: seq<seq<State>>)
    requires IsBoard(cells) && |ts| == |ms| && forall k :: 0 <= k < |ms| ==> IsCell(ms[k].from)
    requires Started(s0, b0, board, turn, ms, ts, s, bs) && b0[board] == cells
    ensures Moves(ts)
    ensures Played(s0, b0, cells, turn, ms, ScoredTrials(ts, cells, turn), s,
                   Overwrite(bs, BoardsOf(ts), Outcomes(ts, cells)))
  {
    ScoredShape(cells, turn, ms, ts);
    OverwriteAll(bs, BoardsOf(ts), Outcomes(ts, cells));
    KeptOverwrite(s0, b0, s, bs, BoardsOf(ts), Outcomes(ts, cells));
    assert BoardsOf(ScoredTrials(ts, cells, turn)) == BoardsOf(ts);
  }

  /** The Select of GetBestMoveFor and its first loop: a trial per move on a fresh
      clone of `board`, with the move made and the mover's score recorded. */
  method PlayTrials(a: Arena, board: int, turn: State, ms: seq<Move>, ghost cells: seq<State>)
    returns (scored: seq<Trial>)
    modifies a
    requires a.Valid() && Sound(a.Pool()) && Holds(a.Pool(), board) && a.boards[board] == cells
    requires forall k :: 0 <= k < |ms| ==> IsCell(ms[k].from)
    requires a.topBoard + |ms| <= a.boardsAvailable
    ensures a.Valid() && a.boardsAvailable == old(a.boardsAvailable) && Holds(a.Pool(), board)
    ensures Played(old(a.Pool()), old(a.boards), cells, turn, ms, scored, a.Pool(), a.boards)
  {
    var ts := StartTrials(a, board, turn, ms);
    ScoredShape(cells, turn, ms, ts);
    ghost var s := a.Pool();
    ghost var bs := a.boards;
    scored := ScoreTrials(a, ts, turn, cells);
    PlayedAfter(old(a.Pool()), old(a.boards), board, cells, turn, ms, ts, s, bs);
  }

  /** A trial's final plan is the option Best considers for its move. */
  lemma TrialPlan(cells: seq<State>, turn: State, depth: nat, maxTrials: int, t: Trial, e: Trial, i: nat)
    requires IsBoard(cells) && i < |Candidates(cells, turn)|
    requires var ms := Candidates(cells, turn);
      t == Trial(t.board, turn, Some(ms[i]), MoveScores(cells, turn, ms)[i], false, None)
    requires var ms := Candidates(cells, turn);
      var top := Expanded(MoveScores(cells, turn, ms), depth, maxTrials);
      && (i in top ==> Replied(t, e, Outcome(cells, ms[i]), turn, depth))
      && (i !in top ==> e == t)
    ensures PlanOf(e) == Options(cells, turn, depth, maxTrials)[i]
  {
    var ms := Candidates(cells, turn);
    if depth == 0 {
      DepthZeroLeaves(cells, turn, maxTrials, i);
    } else {
      OnlyTopExpanded(cells, turn, depth, maxTrials, i);
    }
    OptionMoves(cells, turn, depth, maxTrials, i);
  }

  /** With every trial's final plan equal to Best's option for its move, the first
      trial of highest final score is Best's plan. */
  lemma TrialPlans(cells: seq<State>, turn: State, depth: nat, maxTrials: int, scored: seq<Trial>, final: seq<Trial>)
    requires IsBoard(cells) && |Candidates(cells, turn)| > 0
    requires var ms := Candidates(cells, turn);
      && |scored| == |ms| && |final| == |ms|
      && forall k :: 0 <= k < |scored| ==>
           scored[k] == Trial(scored[k].board, turn, Some(ms[k]), MoveScores(cells, turn, ms)[k], false, None)
    requires var ms := Candidates(cells, turn);
      var top := Expanded(MoveScores(cells, turn, ms), depth, maxTrials);
      forall i :: 0 <= i < |ms| ==>
        && (i in top ==> Replied(scored[i], final[i], Outcome(cells, ms[i]), turn, depth))
        && (i !in top ==> final[i] == scored[i])
    ensures PlansOf(final) == Options(cells, turn, depth, maxTrials)
    ensures PlanOf(final[WinnerOf(PlansOf(final))]) == Best(cells, turn, depth, maxTrials)
  {
    var ms := Candidates(cells, turn);
    var os := Options(cells, turn, depth, maxTrials);
    forall i | 0 <= i < |ms| ensures PlanOf(final[i]) == os[i] {
      TrialPlan(cells, turn, depth, maxTrials, scored[i], final[i], i);
    }
    PlansAgree(final, os);
    WinnerIsBest(cells, turn, depth, maxTrials, final);
  }

  /** Trials whose plans are, one by one, the given plans. */
  lemma PlansAgree(ts: seq<Trial>, os: seq<Plan>)
    requires |ts| == |os| && forall i :: 0 <= i < |ts| ==> PlanOf(ts[i]) == os[i]
    ensures PlansOf(ts) == os
  {
  }

  /** Trials carrying Best's options have Best's plan at the winning position. */
  lemma WinnerIsBest(cells: seq<State>, turn: State, depth: nat, maxTrials: int, final: seq<Trial>)
    requires IsBoard(cells) && |Candidates(cells, turn)| > 0
    requires PlansOf(final) == Options(cells, turn, depth, maxTrials)
    ensures PlanOf(final[WinnerOf(PlansOf(final))]) == Best(cells, turn, depth, maxTrials)
  {
    BestIsFirstMaximum(cells, turn, depth, maxTrials);
  }

  /** After the first loop the trials' scores are the move scores. */
  lemma PlayedKeys(s0: Slots, b0: seq<seq<State>>, cells: seq<State>, turn: State, ms: seq<Move>,
                   scored: seq<Trial>, s1: Slots, b1: seq<seq<State>>)
    requires Played(s0, b0, cells, turn, ms, scored, s1, b1)
    ensures ScoresOf(PlansOf(scored)) == MoveScores(cells, turn, ms)
  {
  }

  /** After the first loop every trial's slot is held and holds its outcome. */
  lemma PlayedBoards(s0: Slots, b0: seq<seq<State>>, cells: seq<State>, turn: State, ms: seq<Move>,
                     scored: seq<Trial>, s1: Slots, b1: seq<seq<State>>)
    requires Played(s0, b0, cells, turn, ms, scored, s1, b1)
    ensures Moves(scored)
    ensures forall i :: 0 <= i < |scored| ==>
      Holds(s1, scored[i].board) && b1[scored[i].board] == Outcomes(scored, cells)[i]
  {
    forall i | 0 <= i < |scored| ensures scored[i].move.Some? && IsCell(scored[i].move.value.from) {
      assert scored[i].move == Some(ms[i]);
    }
  }

  /** A trial that adopted the reply the foreach looks for on its board is Replied
      on the outcome of its move. */
  lemma AdoptedReplied(s0: Slots, b0: seq<seq<State>>, cells: seq<State>, turn: State, ms: seq<Move>,
                       scored: seq<Trial>, s1: Slots, b1: seq<seq<State>>, depth: nat, final: seq<Trial>, top: seq<nat>)
    requires Played(s0, b0, cells, turn, ms, scored, s1, b1) && Moves(scored) && depth > 0 && |final| == |scored|
    requires forall i :: 0 <= i < |scored| && i in top ==>
      Adopted(scored[i], final[i], Replies(Outcomes(scored, cells), turn, depth)[i])
    ensures forall i :: 0 <= i < |ms| && i in top ==> Replied(scored[i], final[i], Outcome(cells, ms[i]), turn, depth)
  {
    forall i | 0 <= i < |ms| && i in top ensures Replied(scored[i], final[i], Outcome(cells, ms[i]), turn, depth) {
      assert scored[i].move == Some(ms[i]);
      assert Outcomes(scored, cells)[i] == Outcome(cells, ms[i]);
    }
  }

  /** The positions the foreach expands are the ones Best expands, each names a
      trial once, and the fresh slots of the budget suffice for their searches. */
  lemma ExpandSetup(keys: seq<Byte>, top: seq<nat>, depth: nat, maxTrials: int)
    requires depth > 0 && |keys| <= MaxCandidates && top == Expanded(keys, depth, maxTrials)
    ensures Distinct(top) && forall j :: 0 <= j < |top| ==> top[j] < |keys|
    ensures |keys| + |top| * Budget(depth - 1, DefaultMaxTrials) <= Budget(depth, maxTrials)
  {
    TopPositions(keys, maxTrials, top);
    ExpandedCount(keys, depth, maxTrials);
    MulMono(|top|, if maxTrials > 0 then maxTrials else 0, Budget(depth - 1, DefaultMaxTrials));
  }

  /** What the last Access needs: the losers' slots are distinct, held now and not
      held before the search; the winner's slot is not among them. */
  lemma ReturnSetup(s0: Slots, scored: seq<Trial>, s1: Slots, s2: Slots, final: seq<Trial>, w: nat)
    requires Distinct(BoardsOf(scored)) && forall k :: 0 <= k < |scored| ==> !Holds(s0, scored[k].board)
    requires forall k :: 0 <= k < |scored| ==> Holds(s1, scored[k].board)
    requires |final| == |scored| && w < |final|
    requires forall i :: 0 <= i < |scored| ==> final[i].board == scored[i].board && Holds(s2, scored[i].board)
    ensures BoardsOf(final) == BoardsOf(scored)
    ensures var ls := Without(BoardsOf(final), w);
      && Distinct(ls) && final[w].board !in ls
      && (forall k :: 0 <= k < |ls| ==> Holds(s2, ls[k]) && !Holds(s0, ls[k]) && Holds(s1, ls[k]))
    ensures forall i :: 0 <= i < |final| ==> 0 <= final[i].board < s2.top
    ensures Holds(s2, final[w].board) && !Holds(s0, final[w].board) && Holds(s1, final[w].board)
  {
    assert BoardsOf(final) == BoardsOf(scored);
    WithoutDistinct(BoardsOf(final), w);
  }

  /** After the first loop every trial carries its move, is not terminal, has no
      reply yet, and its slot, held, holds that move's outcome. */
  lemma PlayedCells(s0: Slots, b0: seq<seq<State>>, cells: seq<State>, turn: State, ms: seq<Move>,
                    scored: seq<Trial>, s1: Slots, b1: seq<seq<State>>)
    requires Played(s0, b0, cells, turn, ms, scored, s1, b1)
    ensures forall i :: 0 <= i < |scored| ==>
      && scored[i].move == Some(ms[i]) && !scored[i].endGame && scored[i].bestResponse.None?
      && Holds(s1, scored[i].board) && 0 <= scored[i].board < |b1| && b1[scored[i].board] == Outcome(cells, ms[i])
  {
  }

  /** Through the foreach, every trial keeps its move and its slot keeps the
      outcome of that move: the slots were held before it, and Kept leaves held
      slots alone. A trial with a reply took it in the foreach. */
  lemma ExpandedCells(s1: Slots, b1: seq<seq<State>>, s2: Slots, b2: seq<seq<State>>, cells: seq<State>,
                      ms: seq<Move>, scored: seq<Trial>, final: seq<Trial>, top: seq<nat>, wants: seq<Plan>)
    requires IsBoard(cells) && forall k :: 0 <= k < |ms| ==> IsCell(ms[k].from)
    requires Kept(s1, b1, s2, b2) && |scored| == |ms| && |final| == |scored| && |wants| == |scored|
    requires forall i :: 0 <= i < |scored| ==>
      && scored[i].move == Some(ms[i]) && !scored[i].endGame && scored[i].bestResponse.None?
      && Holds(s1, scored[i].board) && 0 <= scored[i].board < |b1| && b1[scored[i].board] == Outcome(cells, ms[i])
    requires forall i :: 0 <= i < |scored| ==> final[i].board == scored[i].board
    requires forall i :: 0 <= i < |scored| && i !in top ==> final[i] == scored[i]
    requires forall i :: 0 <= i < |scored| && i in top ==> Adopted(scored[i], final[i], wants[i])
    requires forall i :: 0 <= i < |scored| && i in top && final[i].bestResponse.Some? ==>
      OwnsFresh(s1, s2, final[i].bestResponse.value)
    ensures forall i :: 0 <= i < |final| ==>
      && final[i].move == Some(ms[i]) && !final[i].endGame
      && 0 <= final[i].board < |b2| && b2[final[i].board] == Outcome(cells, ms[i])
      && (final[i].bestResponse.Some? ==> OwnsFresh(s1, s2, final[i].bestResponse.value))
  {
    forall i | 0 <= i < |final|
      ensures && final[i].move == Some(ms[i]) && !final[i].endGame
              && 0 <= final[i].board < |b2| && b2[final[i].board] == Outcome(cells, ms[i])
              && (final[i].bestResponse.Some? ==> OwnsFresh(s1, s2, final[i].bestResponse.value))
    {
      assert final[i].move == scored[i].move && final[i].endGame == scored[i].endGame;
    }
  }

  /** Giving back slots that were all held before the foreach spares the slots of
      every reply, which were not held then. */
  lemma ReleaseOwns(s1: Slots, s2: Slots, ls: seq<int>, t: Trial)
    requires forall k :: 0 <= k < |ls| ==> Holds(s1, ls[k])
    requires OwnsFresh(s1, s2, t)
    ensures OwnsFresh(s1, Slots(s2.freed + ls, s2.top), t)
  {
  }

  /** The last Access gives back only slots held before the foreach, so every
      reply still owns its slots afterwards, and the winner owns its own slot
      followed by its reply's. */
  lemma SearchOwns(s0: Slots, b0: seq<seq<State>>, s1: Slots, b1: seq<seq<State>>, s2: Slots,
                   final: seq<Trial>, w: nat, ls: seq<int>)
    requires Kept(s0, b0, s1, b1) && w < |final|
    requires forall k :: 0 <= k < |ls| ==> Holds(s1, ls[k])
    requires forall i :: 0 <= i < |final| && final[i].bestResponse.Some? ==>
      OwnsFresh(s1, s2, final[i].bestResponse.value)
    requires !final[w].endGame && Holds(s1, final[w].board) && !Holds(s0, final[w].board)
    requires final[w].board !in ls && Holds(s2, final[w].board)
    ensures forall i :: 0 <= i < |final| && final[i].bestResponse.Some? ==>
      OwnsFresh(s0, Slots(s2.freed + ls, s2.top), final[i].bestResponse.value)
    ensures OwnsFresh(s0, Slots(s2.freed + ls, s2.top), final[w])
  {
    var s3 := Slots(s2.freed + ls, s2.top);
    forall i | 0 <= i < |final| && final[i].bestResponse.Some?
      ensures OwnsFresh(s0, s3, final[i].bestResponse.value)
    {
      ReleaseOwns(s1, s2, ls, final[i].bestResponse.value);
      OwnsEarlier(s0, b0, s1, b1, s3, final[i].bestResponse.value);
    }
    var t := final[w];
    if t.bestResponse.Some? {
      var r := t.bestResponse.value;
      assert OwnedBoards(t) == [t.board] + OwnedBoards(r);
      DistinctConcat([t.board], OwnedBoards(r));
    } else {
      assert OwnedBoards(t) == [t.board];
    }
  }

  /** After the depth branch, from pool (s0, b0) to (s, bs): every trial is on its
      own slot, still held, and Best's option for its move; the pool respects Kept
      and the budget. */
  ghost predicate Expansion(s0: Slots, b0: seq<seq<State>>, cells: seq<State>, turn: State, depth: nat,
                            maxTrials: int, scored: seq<Trial>, final: seq<Trial>, s: Slots, bs: seq<seq<State>>)
  {
    && IsBoard(cells) && |final| == |scored| == |Candidates(cells, turn)| > 0
    && Sound(s) && Kept(s0, b0, s, bs) && s.top <= s0.top + Budget(depth, maxTrials)
    && (forall i :: 0 <= i < |scored| ==> final[i].board == scored[i].board && Holds(s, scored[i].board))
    && PlansOf(final) == Options(cells, turn, depth, maxTrials)
    && PlanOf(final[WinnerOf(PlansOf(final))]) == Best(cells, turn, depth, maxTrials)
  }

  /** Without depth left, the trials after the first loop are already final. */
  lemma ShallowExpansion(s0: Slots, b0: seq<seq<State>>, cells: seq<State>, turn: State, maxTrials: int,
                         ms: seq<Move>, scored: seq<Trial>, s1: Slots, b1: seq<seq<State>>)
    requires IsBoard(cells) && ms == Candidates(cells, turn) && |ms| > 0
    requires Played(s0, b0, cells, turn, ms, scored, s1, b1)
    ensures Expansion(s0, b0, cells, turn, 0, maxTrials, scored, scored, s1, b1)
    ensures forall i :: 0 <= i < |scored| ==>
      && scored[i].move == Some(ms[i]) && !scored[i].endGame
      && 0 <= scored[i].board < |b1| && b1[scored[i].board] == Outcome(cells, ms[i])
      && (scored[i].bestResponse.Some? ==> OwnsFresh(s1, s1, scored[i].bestResponse.value))
  {
    PlayedCells(s0, b0, cells, turn, ms, scored, s1, b1);
    TrialPlans(cells, turn, 0, maxTrials, scored, scored);
  }

  /** The depth branch of GetBestMoveFor: with depth left, the top trials by move
      score take the opponent's reply; then every trial's plan is Best's option. */
  method ExpandPhase(a: Arena, scored: seq<Trial>, turn: State, depth: nat, maxTrials: int,
                     ghost s0: Slots, ghost b0: seq<seq<State>>, ghost cells: seq<State>, ghost ms: seq<Move>)
    returns (final: seq<Trial>)
    modifies a
    requires a.Valid() && IsBoard(cells) && ms == Candidates(cells, turn) && |ms| > 0
    requires Played(s0, b0, cells, turn, ms, scored, a.Pool(), a.boards)
    requires s0.top + Budget(depth, maxTrials) <= a.boardsAvailable
    ensures a.Valid() && a.boardsAvailable == old(a.boardsAvailable)
    ensures Expansion(s0, b0, cells, turn, depth, maxTrials, scored, final, a.Pool(), a.boards)
    ensures forall i :: 0 <= i < |final| ==>
      && final[i].move == Some(ms[i]) && !final[i].endGame
      && 0 <= final[i].board < |a.boards| && a.boards[final[i].board] == Outcome(cells, ms[i])
      && (final[i].bestResponse.Some? ==> OwnsFresh(old(a.Pool()), a.Pool(), final[i].bestResponse.value))
    decreases depth, 3
  {
    ghost var s1 := a.Pool();
    ghost var b1 := a.boards;
    final := scored;
    if depth > 0 {
      PlayedCells(s0, b0, cells, turn, ms, scored, s1, b1);
      var keys := ScoresOf(PlansOf(scored));
      var top := Expanded(keys, depth, maxTrials);
      PlayedKeys(s0, b0, cells, turn, ms, scored, s1, b1);
      PlayedBoards(s0, b0, cells, turn, ms, scored, s1, b1);
      ExpandSetup(keys, top, depth, maxTrials);
      ghost var wants := Replies(Outcomes(scored, cells), turn, depth);
      final := ExpandTop(a, scored, turn, depth, top, Outcomes(scored, cells), wants);
      KeptTransitive(s0, b0, s1, b1, a.Pool(), a.boards);
      AdoptedReplied(s0, b0, cells, turn, ms, scored, s1, b1, depth, final, top);
      ExpandedCells(s1, b1, a.Pool(), a.boards, cells, ms, scored, final, top, wants);
      TrialPlans(cells, turn, depth, maxTrials, scored, final);
    } else {
      ShallowExpansion(s0, b0, cells, turn, maxTrials, ms, scored, s1, b1);
    }
  }

  /** The end of GetBestMoveFor: the first trial of highest score wins, and every
      other trial's board goes back to the pool, in trial order. */
  method FinishSearch(a: Arena, final: seq<Trial>, ghost s0: Slots, ghost b0: seq<seq<State>>, ghost cells: seq<State>,
                      ghost turn: State, ghost ms: seq<Move>, ghost scored: seq<Trial>, ghost s1: Slots, ghost b1: seq<seq<State>>)
    returns (t: Trial, w: nat)
    modifies a
    requires a.Valid() && Played(s0, b0, cells, turn, ms, scored, s1, b1) && |final| == |scored| > 0
    requires Sound(a.Pool()) && Kept(s0, b0, a.Pool(), a.boards)
    requires forall i :: 0 <= i < |scored| ==> final[i].board == scored[i].board && Holds(a.Pool(), scored[i].board)
    requires forall i :: 0 <= i < |final| ==>
      !final[i].endGame && (final[i].bestResponse.Some? ==> OwnsFresh(s1, a.Pool(), final[i].bestResponse.value))
    ensures w == WinnerOf(PlansOf(final)) && t == final[w]
    ensures a.Valid() && Sound(a.Pool()) && Kept(s0, b0, a.Pool(), a.boards)
    ensures a.topBoard == old(a.topBoard) && a.boards == old(a.boards) && a.boardsAvailable == old(a.boardsAvailable)
    ensures Holds(a.Pool(), t.board) && !Holds(s0, t.board)
    ensures a.freed == old(a.freed) + Without(BoardsOf(final), w)
    ensures |a.freed| >= |final| - 1 && a.freed[|a.freed| - (|final| - 1)..] == Without(BoardsOf(final), w)
    ensures OwnsFresh(s0, a.Pool(), t)
    ensures forall i :: 0 <= i < |final| && final[i].bestResponse.Some? ==>
      OwnsFresh(s0, a.Pool(), final[i].bestResponse.value)
  {
    w := WinnerOf(PlansOf(final));
    t := final[w];
    ghost var s2 := a.Pool();
    ghost var b2 := a.boards;
    ReturnSetup(s0, scored, s1, s2, final, w);
    ReturnLosers(a, final, w);
    ReleaseHeld(s0, b0, s2, b2, Without(BoardsOf(final), w));
    SearchOwns(s0, b0, s1, b1, s2, final, w, Without(BoardsOf(final), w));
    SuffixOfConcat(old(a.freed), Without(BoardsOf(final), w));
  }

  /** GetBestMoveFor past its terminal check: every move gets a trial, the top
      ones are searched deeper, the first best one wins and the others' boards
      go back to the pool, in trial order. */
  method SearchMoves(a: Arena, turn: State, board: int, depth: nat, maxTrials: int,
                     ms: seq<Move>, ghost cells: seq<State>)
    returns (t: Trial, ghost trials: seq<Trial>)
    modifies a
    requires a.Valid() && Sound(a.Pool()) && Holds(a.Pool(), board) && a.boards[board] == cells
    requires ms == Candidates(cells, turn) && |ms| > 0
    requires a.topBoard + Budget(depth, maxTrials) <= a.boardsAvailable
    ensures a.Valid() && Sound(a.Pool()) && a.boardsAvailable == old(a.boardsAvailable)
    ensures Kept(old(a.Pool()), old(a.boards), a.Pool(), a.boards)
    ensures a.topBoard <= old(a.topBoard) + Budget(depth, maxTrials)
    ensures PlanOf(t) == Best(cells, turn, depth, maxTrials)
    ensures Holds(a.Pool(), t.board) && !Holds(old(a.Pool()), t.board)
    ensures |trials| == |ms| && PlansOf(trials) == Options(cells, turn, depth, maxTrials)
    ensures t == trials[WinnerOf(PlansOf(trials))]
    ensures |a.freed| >= |trials| - 1
    ensures a.freed[|a.freed| - (|trials| - 1)..] == Without(BoardsOf(trials), WinnerOf(PlansOf(trials)))
    ensures t.move.Some? && t.move.value in ms && IsCell(t.move.value.from)
    ensures a.boards[t.board] == Outcome(cells, t.move.value)
    ensures OwnsFresh(old(a.Pool()), a.Pool(), t)
    ensures forall i :: 0 <= i < |trials| && trials[i].bestResponse.Some? ==>
      OwnsFresh(old(a.Pool()), a.Pool(), trials[i].bestResponse.value)
    decreases depth, 4
  {
    ghost var s0 := a.Pool();
    ghost var b0 := a.boards;
    var scored := PlayTrials(a, board, turn, ms, cells);
    ghost var s1 := a.Pool();
    ghost var b1 := a.boards;
    var final := ExpandPhase(a, scored, turn, depth, maxTrials, s0, b0, cells, ms);
    var w;
    t, w := FinishSearch(a, final, s0, b0, cells, turn, ms, scored, s1, b1);
    assert t.move == Some(ms[w]) && a.boards[t.board] == Outcome(cells, ms[w]);
    trials := final;
  }

  /** GetBestMoveFor, sequential: the trial for the best move of `turn` on `board`,
      searching `depth` levels below; every loser's board goes back to the pool. */
  method GetBestMoveFor(a: Arena, turn: State, board: int, depth: nat, maxTrials: int)
    returns (t: Trial, ghost trials: seq<Trial>)
    modifies a
    requires a.Valid() && Sound(a.Pool()) && Holds(a.Pool(), board)
    requires a.topBoard + Budget(depth, maxTrials) <= a.boardsAvailable
    ensures a.Valid() && Sound(a.Pool()) && a.boardsAvailable == old(a.boardsAvailable)
    ensures Kept(old(a.Pool()), old(a.boards), a.Pool(), a.boards)
    ensures a.topBoard <= old(a.topBoard) + Budget(depth, maxTrials)
    ensures PlanOf(t) == Best(old(a.boards[board]), turn, depth, maxTrials)
    ensures Holds(a.Pool(), t.board) && (t.board == board || !Holds(old(a.Pool()), t.board))
    ensures t.endGame ==> t.board == board && a.Pool() == old(a.Pool()) && a.boards == old(a.boards)
    ensures !t.endGame ==>
      && |trials| == |Candidates(old(a.boards[board]), turn)|
      && PlansOf(trials) == Options(old(a.boards[board]), turn, depth, maxTrials)
      && t == trials[WinnerOf(PlansOf(trials))]
      && |a.freed| >= |trials| - 1
      && a.freed[|a.freed| - (|trials| - 1)..] == Without(BoardsOf(trials), WinnerOf(PlansOf(trials)))
    ensures !t.endGame ==>
      && t.move.Some? && t.move.value in Candidates(old(a.boards[board]), turn) && IsCell(t.move.value.from)
      && a.boards[t.board] == Outcome(old(a.boards[board]), t.move.value)
    ensures OwnsFresh(old(a.Pool()), a.Pool(), t)
    ensures !t.endGame ==> forall i :: 0 <= i < |trials| && trials[i].bestResponse.Some? ==>
      OwnsFresh(old(a.Pool()), a.Pool(), trials[i].bestResponse.value)
    decreases depth, 5
  {
    ghost var cells := a.boards[board];
    var ms := Candidates(a.boards[board], turn);
    if |ms| == 0 {
      t := Trial(board, turn, None, ToByte(Score(a.boards[board], turn)), true, None);
      trials := [];
    } else {
      t, trials := SearchMoves(a, turn, board, depth, maxTrials, ms, cells);
    }
  }

  // ---------------------------------------------------------------------------
  // Trial.Return
  // ---------------------------------------------------------------------------

  /** The boards of a trial and of its chain of replies, from the trial down. */
  function ChainBoards(t: Trial): (r: seq<int>)
    ensures |r| >= 1 && r[0] == t.board
    ensures t.bestResponse.None? <==> |r| == 1
    decreases t
  {
    [t.board] + if t.bestResponse.Some? then ChainBoards(t.bestResponse.value) else []
  }

  /** Trial.Return (both overloads; the one without an accessor only takes the
      lock): the reply's chain goes back first, then the trial's own board, so the
      stack receives the chain deepest first. */
  method ReturnTrial(a: Arena, t: Trial)
    modifies a
    requires a.Valid() && forall k :: 0 <= k < |ChainBoards(t)| ==> 0 <= ChainBoards(t)[k] < a.topBoard
    ensures a.Valid() && a.Pool() == Slots(old(a.freed) + Reverse(ChainBoards(t)), old(a.topBoard))
    ensures a.boards == old(a.boards) && a.boardsAvailable == old(a.boardsAvailable)
    decreases t
  {
    ghost var rest := if t.bestResponse.Some? then ChainBoards(t.bestResponse.value) else [];
    assert ChainBoards(t) == [t.board] + rest;
    ghost var f0 := a.freed;
    if t.bestResponse.Some? {
      assert forall k :: 0 <= k < |rest| ==> rest[k] == ChainBoards(t)[k + 1];
      ReturnTrial(a, t.bestResponse.value);
    }
    assert a.freed == f0 + Reverse(rest);
    a.Return(t.board);
    PushAfterChain(f0, rest, t.board);
  }

  /** Trial.Return as evidently intended: the reply's slots go back first, then
      the trial's own, but a terminal trial gives back nothing, since its slot is
      the one its caller searched on. */
  method ReturnOwned(a: Arena, t: Trial)
    modifies a
    requires a.Valid() && forall k :: 0 <= k < |OwnedBoards(t)| ==> 0 <= OwnedBoards(t)[k] < a.topBoard
    ensures a.Valid() && a.Pool() == Slots(old(a.freed) + Reverse(OwnedBoards(t)), old(a.topBoard))
    ensures a.boards == old(a.boards) && a.boardsAvailable == old(a.boardsAvailable)
    decreases t
  {
    if !t.endGame {
      ghost var rest := if t.bestResponse.Some? then OwnedBoards(t.bestResponse.value) else [];
      assert OwnedBoards(t) == [t.board] + rest && OwnedBoards(t)[0] == t.board;
      ghost var f0 := a.freed;
      if t.bestResponse.Some? {
        assert forall k :: 0 <= k < |rest| ==> rest[k] == OwnedBoards(t)[k + 1];
        ReturnOwned(a, t.bestResponse.value);
      }
      assert a.freed == f0 + Reverse(rest);
      a.Return(t.board);
      PushAfterChain(f0, rest, t.board);
    }
  }

  /** Giving back the slots a trial owns, each held and none twice, keeps the
      ledger sound: afterwards none of them is held and every other held slot
      still is. With GetBestMoveFor's promise about the trial it returns, this is
      what lets the next search of the game start from a sound ledger. */
  lemma ReturnOwnedSound(s0: Slots, s: Slots, t: Trial)
    requires Sound(s) && OwnsFresh(s0, s, t)
    ensures var s' := Slots(s.freed + Reverse(OwnedBoards(t)), s.top);
      && Sound(s')
      && (forall k :: 0 <= k < |OwnedBoards(t)| ==> !Holds(s', OwnedBoards(t)[k]))
      && (forall j :: Holds(s, j) && j !in OwnedBoards(t) ==> Holds(s', j))
  {
    var o := OwnedBoards(t);
    var r := Reverse(o);
    ReverseDistinct(o);
    forall k | 0 <= k < |r| ensures r[k] !in s.freed && 0 <= r[k] < s.top {
      assert r[k] == o[|o| - 1 - k];
    }
    DistinctConcat(s.freed, r);
    forall k | 0 <= k < |o| ensures o[k] in r {
      assert r[|o| - 1 - k] == o[k];
    }
    forall k | 0 <= k < |r| ensures r[k] in o {
      assert r[k] == o[|o| - 1 - k];
    }
  }

  /** Pushing onto a stack that already holds `f0 + xs`. A one-step fact, stated on
      its own so that the proofs that use it stay cheap. */
  lemma PushAfter(f0: seq<int>, xs: seq<int>, b: int)
    ensures (f0 + xs) + [b] == f0 + (xs + [b])
  {
  }

  /** Pushing a trial's board after its reply chain is pushing its whole chain. */
  lemma PushAfterChain(f0: seq<int>, rest: seq<int>, b: int)
    ensures (f0 + Reverse(rest)) + [b] == f0 + Reverse([b] + rest)
  {
    ReverseCons(b, rest);
    assert (f0 + Reverse(rest)) + [b] == f0 + (Reverse(rest) + [b]);
  }

  /** When the opponent has no move after a trial's move, its reply is terminal and
      owns the trial's own board, so Trial.Return pushes that board twice. */
  lemma TerminalReplyReturnedTwice(t: Trial, e: Trial, cells: seq<State>, turn: State, depth: nat)
    requires Replied(t, e, cells, turn, depth) && |Candidates(cells, Other(turn))| == 0
    ensures Reverse(ChainBoards(e)) == [e.board, e.board]
  {
    BestTerminal(cells, Other(turn), depth - 1, DefaultMaxTrials);
    var r := e.bestResponse.value;
    assert PlanOf(r).response == None;
    assert ChainBoards(r) == [r.board];
  }

  /** So Trial.Return as written leaves such a slot on the stack twice, and the
      ledger is no longer sound, whatever was on it before. */
  lemma DoubleReturnUnsound(f: seq<int>, n: int, t: Trial, e: Trial, cells: seq<State>, turn: State, depth: nat)
    requires Replied(t, e, cells, turn, depth) && |Candidates(cells, Other(turn))| == 0
    ensures !Sound(Slots(f + Reverse(ChainBoards(e)), n))
  {
    TerminalReplyReturnedTwice(t, e, cells, turn, depth);
    var g := f + Reverse(ChainBoards(e));
    assert g[|f|] == e.board && g[|f| + 1] == e.board;
  }

  /** ReturnOwned gives the shared slot back once: a terminal reply owns nothing. */
  lemma TerminalReplyReturnedOnce(t: Trial, e: Trial, cells: seq<State>, turn: State, depth: nat)
    requires Replied(t, e, cells, turn, depth) && |Candidates(cells, Other(turn))| == 0 && !t.endGame
    ensures OwnedBoards(e) == [e.board]
  {
    BestTerminal(cells, Other(turn), depth - 1, DefaultMaxTrials);
    assert e.bestResponse.value.endGame;
  }
}
