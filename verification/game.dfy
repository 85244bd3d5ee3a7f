/** The game's rule state and its transitions, one pure function per handler
    or effect of the component. Every draw of a random symbol is an argument. */
module Game {
  import opened Symbols
  import opened Board
  import opened Selection

  datatype Option<T> = None | Some(value: T)

  /** Score gained, and match count required, for a booster match. */
  const BOOSTER_MATCH: nat := 4
  /** Booster progress gained per booster match, and its ceiling. */
  const SLIDER_STEP: int := 20
  const SLIDER_MAX: int := 100

  /** A finished level, as recorded in the results history. */
  datatype LevelResult = LevelResult(level: int, score: int)

  datatype Game = Game(
    board: Board,
    selection: seq<nat>,
    score: int,
    moves: int,
    timer: int,
    level: int,
    slider: int,
    starAvailable: bool,
    bombIndex: Option<nat>,
    levelComplete: bool,
    history: seq<LevelResult>)

  /** What every reachable state satisfies. */
  predicate Valid(g: Game)
  {
    && |g.board| == CELL_COUNT
    && WellFormed(g.selection)
    && InBounds(g.selection, CELL_COUNT)
    && 0 <= g.score && g.score % BOOSTER_MATCH == 0
    && 0 <= g.moves
    && 0 <= g.timer <= TIME_LIMIT
    && 0 <= g.slider <= SLIDER_MAX && g.slider % SLIDER_STEP == 0
    && (g.bombIndex.Some? ==> g.bombIndex.value < CELL_COUNT)
    && g.level == |g.history| + 1
    && (forall j :: 0 <= j < |g.history| ==> g.history[j].level == j + 1 && g.history[j].score >= 0)
  }

  /** The countdown is running: time is left and no score or move limit is reached. */
  predicate Running(g: Game)
  {
    g.timer > 0 && g.score < TARGET_SCORE && g.moves < MAX_MOVES
  }

  /** The level is over: target score reached, moves used up, or time out. */
  predicate LevelOver(g: Game)
  {
    g.score >= TARGET_SCORE || g.moves >= MAX_MOVES || g.timer == 0
  }

  /** The state after mounting: the initial state values, with the board
      the mount-time effect generates. */
  function Initial(rolls: seq<Roll>): (g: Game)
    requires |rolls| == CELL_COUNT
    ensures Valid(g)
    ensures BombFree(g.board) && g.selection == [] && g.history == []
    ensures g.level == 1 && g.score == 0 && g.moves == 0 && g.timer == TIME_LIMIT
    ensures g.slider == 0 && !g.starAvailable && g.bombIndex == None && !g.levelComplete
    ensures g.board == GenerateRandomCards(rolls)
  {
    Game(GenerateRandomCards(rolls), [], 0, 0, TIME_LIMIT, 1, 0, false, None, false, [])
  }

  /** One second of the countdown: the timer drops by one exactly when the
      countdown is running; nothing else ever changes. */
  function Tick(g: Game): (r: Game)
    ensures r == g.(timer := r.timer)
    ensures Running(g) <==> r.timer == g.timer - 1
    ensures !Running(g) ==> r == g
    ensures g.timer >= 0 ==> r.timer >= 0
    ensures Valid(g) ==> Valid(r)
  {
    if g.timer > 0 && g.score < TARGET_SCORE && g.moves < MAX_MOVES then g.(timer := g.timer - 1) else g
  }

  /** The end-of-level effect: raise the level-complete flag once the level is over. */
  function CheckEnd(g: Game): (r: Game)
    ensures r == g.(levelComplete := r.levelComplete)
    ensures r.levelComplete <==> g.levelComplete || LevelOver(g)
    ensures !g.levelComplete ==> (r.levelComplete <==> LevelOver(g))
    ensures Valid(g) ==> Valid(r)
  {
    if g.score >= TARGET_SCORE || g.moves >= MAX_MOVES || g.timer == 0 then g.(levelComplete := true) else g
  }

  /** Clicking a non-bomb card flips it. */
  function Flip(g: Game, index: nat): (r: Game)
    ensures r == g.(selection := r.selection)
    ensures r.selection == FlipCard(g.selection, index)
    ensures Valid(g) && index < CELL_COUNT ==> Valid(r)
  {
    g.(selection := FlipCard(g.selection, index))
  }

  /** `handleBombClick`: blast the clicked cell's row and column, forget the
      bomb, and drop the selection. Score, moves, timer and the rest stay. */
  function HandleBombClick(g: Game, index: nat, rowRolls: seq<Roll>, colRolls: seq<Roll>): (r: Game)
    requires |g.board| == CELL_COUNT && index < CELL_COUNT
    requires |rowRolls| == GRID_SIZE && |colRolls| == GRID_SIZE
    ensures r.board == BombBlast(g.board, index, rowRolls, colRolls)
    ensures |r.board| == CELL_COUNT
    ensures forall k :: 0 <= k < CELL_COUNT && InBlast(k, index) ==> r.board[k] != Bomb
    ensures forall k :: 0 <= k < CELL_COUNT && !InBlast(k, index) ==> r.board[k] == g.board[k]
    ensures r.bombIndex == None && r.selection == []
    ensures r == g.(board := r.board, bombIndex := None, selection := [])
    ensures Valid(g) ==> Valid(r)
  {
    g.(board := BombBlast(g.board, index, rowRolls, colRolls), bombIndex := None, selection := [])
  }

  /** A click on a board cell: a bomb cell is blasted, any other is flipped. */
  function Click(g: Game, index: nat, rowRolls: seq<Roll>, colRolls: seq<Roll>): (r: Game)
    requires |g.board| == CELL_COUNT && index < CELL_COUNT
    requires |rowRolls| == GRID_SIZE && |colRolls| == GRID_SIZE
    ensures g.board[index] == Bomb ==> r.selection == [] && r.bombIndex == None
    ensures g.board[index] != Bomb ==> r.board == g.board && r.bombIndex == g.bombIndex
    ensures g.board[index] != Bomb ==> r.selection == FlipCard(g.selection, index)
    ensures r == g.(board := r.board, selection := r.selection, bombIndex := r.bombIndex)
    ensures |r.board| == CELL_COUNT
    ensures g.board[index] == Bomb ==> r.board == BombBlast(g.board, index, rowRolls, colRolls)
    ensures g.board[index] == Bomb ==> forall k :: 0 <= k < CELL_COUNT && !InBlast(k, index) ==> r.board[k] == g.board[k]
    ensures r.score == g.score && r.moves == g.moves && r.timer == g.timer
    ensures Valid(g) ==> Valid(r)
  {
    if g.board[index] == Bomb then HandleBombClick(g, index, rowRolls, colRolls) else Flip(g, index)
  }

  /** The immediate part of match evaluation: the counters of an exact
      four-match, and the bomb placed on the `pick`-th selected card when five
      or more match. The selection is kept for the deferred part. */
  function Evaluate(g: Game, pick: nat): (r: Game)
    requires InBounds(g.selection, |g.board|)
    requires MatchCount(g.board, g.selection) >= 5 ==> pick < |g.selection|
    ensures var m := MatchCount(g.board, g.selection);
      && r.selection == g.selection
      && (m == BOOSTER_MATCH ==>
            r.score == g.score + BOOSTER_MATCH && r.moves == g.moves + 1 && r.starAvailable
            && r.slider == (if g.slider + SLIDER_STEP < SLIDER_MAX then g.slider + SLIDER_STEP else SLIDER_MAX))
      && (m != BOOSTER_MATCH ==>
            r.score == g.score && r.moves == g.moves && r.slider == g.slider && r.starAvailable == g.starAvailable)
      && (m >= 5 ==> |r.board| == |g.board| && r.board[g.selection[pick]] == Bomb
                     && r.bombIndex == Some(g.selection[pick])
                     && forall k :: 0 <= k < |g.board| && k != g.selection[pick] ==> r.board[k] == g.board[k])
      && (m < 5 ==> r.board == g.board && r.bombIndex == g.bombIndex)
    ensures r.timer == g.timer && r.level == g.level && r.history == g.history && r.levelComplete == g.levelComplete
    ensures Valid(g) ==> Valid(r)
  {
    var m := MatchCount(g.board, g.selection);
    assert Valid(g) ==> (g.score + BOOSTER_MATCH) % BOOSTER_MATCH == 0 by {
      if Valid(g) {
        BoosterKeepsCounters(g.score, g.slider);
      }
    }
    var scored :=
      if m == BOOSTER_MATCH then
        g.(score := g.score + m, moves := g.moves + 1,
           slider := if g.slider + SLIDER_STEP < SLIDER_MAX then g.slider + SLIDER_STEP else SLIDER_MAX,
           starAvailable := true)
      else g;
    if m >= 5 then
      var target := g.selection[pick];
      scored.(board := scored.board[target := Bomb], bombIndex := Some(target))
    else scored
  }

  /** The deferred part: after a match, rebuild the selected cells of the
      board `captured` when the evaluation was scheduled; either way the
      selection is dropped. */
  function Settle(g: Game, captured: Board, matched: bool, rolls: seq<Roll>): (r: Game)
    requires |rolls| == |g.selection|
    requires InBounds(g.selection, |captured|)
    ensures r.selection == []
    ensures !matched ==> r == g.(selection := [])
    ensures matched ==> r == g.(board := r.board, selection := [])
    ensures matched ==> |r.board| == |captured|
    ensures Valid(g) && |captured| == CELL_COUNT ==> Valid(r)
    ensures matched ==> forall k :: 0 <= k < |captured| && k !in g.selection ==> r.board[k] == captured[k]
    ensures matched ==> forall k :: k in g.selection ==> r.board[k] != Bomb
    ensures matched && Distinct(g.selection) ==>
      forall j :: 0 <= j < |g.selection| ==> r.board[g.selection[j]] == GetRandomSymbol(rolls[j])
  {
    if matched then g.(board := WriteAll(captured, g.selection, rolls), selection := [])
    else g.(selection := [])
  }

  /** The match effect as one atomic step: nothing below three flipped cards;
      otherwise evaluate and settle against the board as it was. */
  function ResolveMatch(g: Game, pick: nat, rolls: seq<Roll>): (r: Game)
    requires InBounds(g.selection, |g.board|)
    requires |rolls| == |g.selection|
    requires |g.selection| >= MATCH_TRIGGER ==> pick < |g.selection|
    ensures |g.selection| < MATCH_TRIGGER ==> r == g
    ensures |g.selection| >= MATCH_TRIGGER ==> r.selection == []
    ensures |g.selection| >= MATCH_TRIGGER && MatchCount(g.board, g.selection) < MATCH_TRIGGER ==>
      r == g.(selection := [])
    ensures |g.selection| >= MATCH_TRIGGER && MatchCount(g.board, g.selection) >= MATCH_TRIGGER ==>
      && |r.board| == |g.board|
      && (forall k :: 0 <= k < |g.board| && k !in g.selection ==> r.board[k] == g.board[k])
      && (forall k :: k in g.selection ==> r.board[k] != Bomb)
      && (Distinct(g.selection) ==>
            forall j :: 0 <= j < |g.selection| ==> r.board[g.selection[j]] == GetRandomSymbol(rolls[j]))
    ensures |g.selection| >= MATCH_TRIGGER && MatchCount(g.board, g.selection) == BOOSTER_MATCH ==>
      r.score == g.score + BOOSTER_MATCH && r.moves == g.moves + 1 && r.starAvailable
      && r.slider == (if g.slider + SLIDER_STEP < SLIDER_MAX then g.slider + SLIDER_STEP else SLIDER_MAX)
    ensures MatchCount(g.board, g.selection) != BOOSTER_MATCH ==>
      r.score == g.score && r.moves == g.moves && r.slider == g.slider && r.starAvailable == g.starAvailable
    ensures |g.selection| >= MATCH_TRIGGER && MatchCount(g.board, g.selection) >= 5 ==>
      r.bombIndex == Some(g.selection[pick])
    ensures MatchCount(g.board, g.selection) < 5 ==> r.bombIndex == g.bombIndex
    ensures r.timer == g.timer && r.level == g.level && r.history == g.history && r.levelComplete == g.levelComplete
    ensures Valid(g) ==> Valid(r)
  {
    if |g.selection| < MATCH_TRIGGER then g
    else
      var matched := MatchCount(g.board, g.selection) >= MATCH_TRIGGER;
      Settle(Evaluate(g, pick), g.board, matched, rolls)
  }

  /** A booster match keeps the score a multiple of four and the slider a
      multiple of twenty within 0..100. */
  lemma BoosterKeepsCounters(score: int, slider: int)
    requires 0 <= score && score % BOOSTER_MATCH == 0
    requires 0 <= slider <= SLIDER_MAX && slider % SLIDER_STEP == 0
    ensures (score + BOOSTER_MATCH) % BOOSTER_MATCH == 0
    ensures var t := if slider + SLIDER_STEP < SLIDER_MAX then slider + SLIDER_STEP else SLIDER_MAX;
      0 <= t <= SLIDER_MAX && t % SLIDER_STEP == 0
  {
  }

  /** `handleStarClick`: a fresh board for the score; the booster is spent
      and the selection dropped. Moves, slider and timer stay. */
  function HandleStarClick(g: Game, rolls: seq<Roll>): (r: Game)
    requires |rolls| == CELL_COUNT
    ensures r.score == 0 && !r.starAvailable && r.selection == []
    ensures r.board == GenerateRandomCards(rolls)
    ensures |r.board| == CELL_COUNT && BombFree(r.board)
    ensures r == g.(board := r.board, starAvailable := false, selection := [], score := 0)
    ensures Valid(g) ==> Valid(r)
  {
    g.(board := GenerateRandomCards(rolls), starAvailable := false, selection := [], score := 0)
  }

  /** `handleNextLevel`: record the finished level, then start the next one
      with a fresh board, a full clock and zeroed counters. The selection,
      the star and the remembered bomb are carried over untouched. */
  function HandleNextLevel(g: Game, rolls: seq<Roll>): (r: Game)
    requires |rolls| == CELL_COUNT
    ensures r.history == g.history + [LevelResult(g.level, g.score)]
    ensures r.level == g.level + 1
    ensures r.score == 0 && r.moves == 0 && r.slider == 0 && r.timer == TIME_LIMIT && !r.levelComplete
    ensures r.board == GenerateRandomCards(rolls)
    ensures |r.board| == CELL_COUNT && BombFree(r.board)
    ensures r.selection == g.selection && r.starAvailable == g.starAvailable && r.bombIndex == g.bombIndex
    ensures Valid(g) ==> Valid(r)
  {
    g.(history := g.history + [LevelResult(g.level, g.score)],
       level := g.level + 1,
       levelComplete := false,
       slider := 0,
       score := 0,
       moves := 0,
       timer := TIME_LIMIT,
       board := GenerateRandomCards(rolls))
  }
}
