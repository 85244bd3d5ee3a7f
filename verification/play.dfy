/** A session as a sequence of events fed to the game: clicks, the match
    effect, the star and next-level buttons, timer ticks and the end check.
    Properties that span several transitions live here. */
module Play {
  import opened Symbols
  import opened Board
  import opened Selection
  import opened Game

  datatype Event =
    | CellClick(index: nat, rowRolls: seq<Roll>, colRolls: seq<Roll>)
    | MatchEffect(pick: nat, rolls: seq<Roll>)
    | StarButton(rolls: seq<Roll>)
    | NextLevelButton(rolls: seq<Roll>)
    | TimerTick
    | EndCheck

  /** An event can occur in state g: a click hits a rendered cell, the
      buttons are only shown while their flag is set, and every event brings
      as many draws as its handler makes. */
  predicate Enabled(g: Game, e: Event)
  {
    match e
    case CellClick(index, rowRolls, colRolls) =>
      index < |g.board| && |rowRolls| == GRID_SIZE && |colRolls| == GRID_SIZE
    case MatchEffect(pick, rolls) =>
      |rolls| == |g.selection| && (|g.selection| >= MATCH_TRIGGER ==> pick < |g.selection|)
    case StarButton(rolls) => g.starAvailable && |rolls| == CELL_COUNT
    case NextLevelButton(rolls) => g.levelComplete && |rolls| == CELL_COUNT
    case TimerTick => true
    case EndCheck => true
  }

  function Step(g: Game, e: Event): (r: Game)
    requires Valid(g) && Enabled(g, e)
    ensures Valid(r)
    ensures r.history == g.history || (e.NextLevelButton? && r.history == g.history + [LevelResult(g.level, g.score)])
    ensures r.score > g.score ==> e.MatchEffect? && MatchCount(g.board, g.selection) == BOOSTER_MATCH
    ensures r.slider != g.slider ==> e.NextLevelButton? || (e.MatchEffect? && MatchCount(g.board, g.selection) == BOOSTER_MATCH)
  {
    match e
    case CellClick(index, rowRolls, colRolls) => Click(g, index, rowRolls, colRolls)
    case MatchEffect(pick, rolls) => ResolveMatch(g, pick, rolls)
    case StarButton(rolls) => HandleStarClick(g, rolls)
    case NextLevelButton(rolls) => HandleNextLevel(g, rolls)
    case TimerTick => Tick(g)
    case EndCheck => CheckEnd(g)
  }

  /** Every event of the sequence is enabled when its turn comes. */
  predicate Admissible(g: Game, es: seq<Event>)
    requires Valid(g)
    decreases |es|
  {
    |es| == 0 || (Enabled(g, es[0]) && Admissible(Step(g, es[0]), es[1..]))
  }

  /** Feed the events to the game in order. The results history only ever
      grows at its end, and the invariant (timer in 0..TIME_LIMIT, booster
      progress in 0..100, at most five distinct flipped cards) holds throughout. */
  function Run(g: Game, es: seq<Event>): (r: Game)
    requires Valid(g) && Admissible(g, es)
    ensures Valid(r)
    ensures g.history <= r.history
    ensures |r.history| - |g.history| <= |es|
    decreases |es|
  {
    if |es| == 0 then g else Run(Step(g, es[0]), es[1..])
  }

  /** From the first state on, the timer never goes below zero, the
      booster never leaves 0..100, and the selection stays capped. */
  lemma {:induction false} SessionBounds(rolls: seq<Roll>, es: seq<Event>)
    requires |rolls| == CELL_COUNT
    requires Admissible(Initial(rolls), es)
    ensures var r := Run(Initial(rolls), es);
      && 0 <= r.timer <= TIME_LIMIT
      && 0 <= r.slider <= SLIDER_MAX
      && |r.selection| <= MAX_SELECTION && Distinct(r.selection)
      && r.level == |r.history| + 1
  {
    var r := Run(Initial(rolls), es);
    assert Valid(r);
  }

  /** The number of levels recorded is exactly the number of next-level
      presses, and every earlier record is kept. */
  function NextLevelPresses(es: seq<Event>): nat
  {
    if |es| == 0 then 0 else (if es[0].NextLevelButton? then 1 else 0) + NextLevelPresses(es[1..])
  }

  lemma {:induction false} HistoryCountsLevels(g: Game, es: seq<Event>)
    requires Valid(g) && Admissible(g, es)
    ensures |Run(g, es).history| == |g.history| + NextLevelPresses(es)
    ensures Run(g, es).level == g.level + NextLevelPresses(es)
    decreases |es|
  {
    if |es| > 0 {
      HistoryCountsLevels(Step(g, es[0]), es[1..]);
    }
  }

  /** In this atomic model the settle step rebuilds the bomb's cell as well,
      so a resolved match never leaves a bomb on a bomb-free board. */
  lemma BombDoesNotSurviveResolution(g: Game, pick: nat, rolls: seq<Roll>)
    requires InBounds(g.selection, |g.board|)
    requires |rolls| == |g.selection|
    requires |g.selection| >= MATCH_TRIGGER ==> pick < |g.selection|
    requires BombFree(g.board)
    ensures BombFree(ResolveMatch(g, pick, rolls).board)
  {
  }

  /** A consequence of atomic resolution: a session that starts from a
      bomb-free board never shows a bomb, so the bomb branch of a click is
      never taken from such a session. */
  lemma {:induction false} SessionNeverShowsBomb(g: Game, es: seq<Event>)
    requires Valid(g) && BombFree(g.board) && Admissible(g, es)
    ensures BombFree(Run(g, es).board)
    decreases |es|
  {
    if |es| > 0 {
      var e := es[0];
      var n := Step(g, e);
      assert BombFree(n.board) by {
        if e.MatchEffect? {
          BombDoesNotSurviveResolution(g, e.pick, e.rolls);
        }
      }
      SessionNeverShowsBomb(n, es[1..]);
    }
  }

  /** The settle step reads the board captured before the bomb was placed.
      Rebuilding the board that holds the bomb gives the same cells, because
      the bomb sits on a selected card. */
  lemma StaleCaptureIsHarmless(g: Game, pick: nat, rolls: seq<Roll>)
    requires InBounds(g.selection, |g.board|)
    requires |rolls| == |g.selection|
    requires |g.selection| >= MATCH_TRIGGER && pick < |g.selection|
    requires MatchCount(g.board, g.selection) >= MATCH_TRIGGER
    ensures ResolveMatch(g, pick, rolls).board == WriteAll(Evaluate(g, pick).board, g.selection, rolls)
  {
    if MatchCount(g.board, g.selection) >= 5 {
      WriteAllAbsorbs(g.board, g.selection, rolls, g.selection[pick], Bomb);
    }
  }

  /** One evaluation of a three-card selection never scores: a booster needs
      a count of four, so four cards must be flipped when it is evaluated. */
  lemma ThreeCardsNeverScore(g: Game, pick: nat, rolls: seq<Roll>)
    requires InBounds(g.selection, |g.board|)
    requires |rolls| == |g.selection| == MATCH_TRIGGER && pick < MATCH_TRIGGER
    ensures var r := ResolveMatch(g, pick, rolls);
      r.score == g.score && r.moves == g.moves && r.slider == g.slider
  {
  }

  /** The countdown's guard and the end condition are complements: while the
      timer is not negative, the clock runs exactly until the level is over,
      and once it is over a tick changes nothing. */
  lemma TimerStopsAtLevelEnd(g: Game)
    requires g.timer >= 0
    ensures Running(g) <==> !LevelOver(g)
    ensures LevelOver(g) ==> Tick(g) == g
  {
  }
}
