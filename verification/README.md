# Match game rules in Dafny

This project models the rule engine of a browser tile-matching game. The game
is a single React component. It shows an 8x8 board of five glyphs
(circle, triangle, cross, star, square). The player flips up to five cards.
Once three or more are flipped, the component evaluates a match against the
symbol of the *first* flipped card:

- an exact four-match scores 4 points and one move, advances the booster
  slider by 20 up to 100, and offers the star reset;
- a match of five puts a bomb on one of the flipped cards;
- every match of three or more redraws the flipped cells.

Clicking a bomb redraws its whole row and column. The level ends at 100
points, 7 moves or when the 120-second clock runs out. "Next level" records
`(level, score)` in the results history and starts afresh.

The model turns the component's state into an immutable record (`Game.Game`).
Each handler and effect becomes a pure function. Randomness is an argument:

- a `Roll` (0..4) stands for one call of `getRandomSymbol`, i.e. for
  `floor(random * 5)`;
- every transition that draws symbols takes the rolls of its calls, in call order;
- the bomb's position among the flipped cards is a caller-chosen `pick`.

Modules:

- `Symbols`: the glyphs, the constants, and a draw turned into a symbol.
- `Board`: board generation, the settle rewrite (`WriteAll`), and the bomb
  blast. The blast has a declarative definition (`BombBlast`) and the
  source's two loops (`BlastRowAndColumn`), which are proved equal.
- `Selection`: `flipCard` and the match count.
- `Game`: the state, its invariant `Valid`, and one function per handler or effect.
- `Play`: sessions as event sequences (`Step`, `Run`), and the properties
  that span several transitions.

The match effect is modelled as one atomic step (`ResolveMatch`). It has two parts:

- `Evaluate` is the immediate part (counters, bomb placement).
- `Settle` is the deferred part. It rebuilds the flipped cells from the board
  captured before the bomb was placed, as the source's closure does.

`StaleCaptureIsHarmless` shows that this capture changes nothing in the
atomic model. `BombDoesNotSurviveResolution` shows a consequence: a bomb
placed by a resolution is redrawn by the same resolution.

In one evaluation of a selection, only an exact four-match changes score,
moves, slider and star (`src/App.jsx:93-99`). A single evaluation of a match
of three, or of five, scores nothing and uses no move, even though the cells
are resolved and redrawn. `Evaluate` and `ResolveMatch` keep this behaviour
as written rather than awarding the match count for every match. The model
evaluates each selection once; the program evaluates it again after every
flip and board change (see "Left out").

## Model

| member | source | states |
|---|---|---|
| Symbols.GetRandomSymbol | src/App.jsx:4-6 | a draw yields one of the five listed glyphs and never the bomb |
| Symbols.GeneratorRange | src/App.jsx:4-6 | the generator's range is exactly the non-bomb symbols: every one of the five can be drawn and the bomb cannot |
| Symbols.RollRoundTrip | src/App.jsx:4-6 | RollOf maps the symbol that a draw yields back to that same draw. |
| Board.GenerateRandomCards | src/App.jsx:44-46 | a generated board has GRID_SIZE*GRID_SIZE = 64 cells, none a bomb, each cell recording its own draw |
| Board.WriteAll | src/App.jsx:112-117 | the settle rewrite keeps the board length, leaves unselected cells unchanged, gives every selected cell a non-bomb symbol, and for distinct cells the j-th cell gets the j-th draw |
| Board.WriteAllAbsorbs | src/App.jsx:104-117 | a write to a cell the rewrite covers (the bomb) makes no difference to the rewrite's result |
| Board.BombBlast | src/App.jsx:60-73 | after a blast at index the board length is kept; cell (i, col) of the bomb's column holds the i-th column draw, intersection included; cell (row, i) of the rest of its row holds the i-th row draw; every blasted cell is non-bomb; every other cell is unchanged |
| Board.BlastRowAndColumn | src/App.jsx:61-73 | the row loop followed by the column loop computes exactly BombBlast, the column draws winning at the intersection |
| Board.BlastSpares49 | src/App.jsx:60-73 | for any index below 64 a blast leaves exactly 49 cells outside its row and column |
| Selection.FlipCard | src/App.jsx:53-57 | flipping only appends at the end; the card ends up flipped iff it already was or fewer than five were flipped; the cap of five and distinctness are preserved |
| Selection.FlipIdempotent | src/App.jsx:53-57 | flipping the same card again changes nothing |
| Selection.CountOf | src/App.jsx:89 | the filter count equals the multiplicity of the symbol, is at most the length, and equals the length iff all entries are that symbol |
| Selection.MatchCount | src/App.jsx:88-89 | for a non-empty selection the count lies in 1..size, equals the multiplicity of the first card's symbol, and equals the size iff all cards show the first card's symbol |
| Selection.FiveMatchIsFullSelection | src/App.jsx:54-102 | under the five-card cap a count of five or more means exactly five cards, all with the first card's symbol |
| Selection.FirstCardIsTheReference | src/App.jsx:88-89 | the count follows the first flipped card, not the majority: [circle, cross, cross] counts 1, [cross, cross, circle] counts 2 |
| Game.Initial | src/App.jsx:14-25 | the first state is valid: level 1, score 0, moves 0, slider 0, a full clock, no star, no bomb index, level not complete, empty selection and history, and the board generated from the supplied draws |
| Game.Tick | src/App.jsx:28-36 | the timer drops by one exactly when it is positive and score and moves are below their limits; nothing else changes and it never goes below zero |
| Game.CheckEnd | src/App.jsx:154-159 | the level-complete flag is raised exactly when score >= 100, moves >= 7 or timer == 0, and nothing else changes |
| Game.Flip | src/App.jsx:53-57 | a card click on a non-bomb cell changes only the selection, which becomes exactly flipCard's result: the old selection with at most the clicked index appended |
| Game.HandleBombClick | src/App.jsx:60-78 | the board becomes BombBlast's result, so the bomb's row and column hold the supplied row and column draws and the other cells are unchanged, bombIndex is cleared, the selection is emptied, and score, moves, timer and the rest are kept |
| Game.Click | src/App.jsx:218-224 | a click on a bomb cell sets the board to BombBlast's result and clears the selection and bomb; any other click leaves board and bomb alone and sets the selection to flipCard's result; no click changes any field other than board, selection and bomb index |
| Game.Evaluate | src/App.jsx:88-110 | an exact four-match adds 4 to score and 1 to moves, sets the star and raises the slider to min(slider+20, 100); any other count leaves these alone; a count of five or more puts the bomb on the picked card and records it, changing no other cell |
| Game.Settle | src/App.jsx:112-123 | after a match the selected cells of the captured board are redrawn and all other cells kept; after a non-match only the selection is cleared |
| Game.ResolveMatch | src/App.jsx:86-126 | below three cards nothing happens; otherwise the selection is emptied, a non-match changes nothing else, and a match redraws exactly the selected cells; score, moves and slider move only on an exact four-match; the bomb index is set only by a five-match; timer, level and history are kept |
| Game.BoosterKeepsCounters | src/App.jsx:94-96 | a booster keeps the score a multiple of four and the slider a multiple of twenty within 0..100 |
| Game.HandleStarClick | src/App.jsx:129-134 | a star reset zeroes the score, clears the star, empties the selection and replaces the board with the 64-cell board generated from the supplied draws; moves, slider and timer are kept |
| Game.HandleNextLevel | src/App.jsx:137-146 | appends exactly (level, score) to the history, increments the level, resets score, moves and slider to 0 and the timer to 120, clears level-complete, and replaces the board with the 64-cell board generated from the supplied draws |
| Play.Step | src/App.jsx:28-159 | every enabled event keeps the invariant; only the next-level button changes the history, by appending one record; the score only rises on an exact four-match |
| Play.Run | src/App.jsx:28-159 | over any admissible session the invariant holds and the earlier history is a prefix of the later one |
| Play.SessionBounds | src/App.jsx:24-36 | from the first state on, the timer stays in 0..120, the slider in 0..100, the selection holds at most five distinct cards, and level = number of records + 1 |
| Play.HistoryCountsLevels | src/App.jsx:137-146 | a session adds one history record and one level per next-level press and none otherwise |
| Play.BombDoesNotSurviveResolution | src/App.jsx:102-119 | a resolution that starts from a bomb-free board leaves a bomb-free board |
| Play.SessionNeverShowsBomb | src/App.jsx:102-119 | in any admissible session that starts from a bomb-free board, the board stays bomb-free, so the bomb branch of a click is never taken |
| Play.StaleCaptureIsHarmless | src/App.jsx:104-117 | rebuilding from the board captured before the bomb gives the same board as rebuilding from the board that holds the bomb |
| Play.ThreeCardsNeverScore | src/App.jsx:87-99 | one evaluation of exactly three selected cards never changes score, moves or slider |
| Play.TimerStopsAtLevelEnd | src/App.jsx:30-31 | for a non-negative timer the countdown runs exactly when the level is not over, and a tick after the end changes nothing |

## Left out

- Rendering, styling and the theme toggle (`src/App.jsx:39-41`, `161-233`) are presentation only. The click dispatch (`218-224`) is modelled as `Game.Click`.
- The alerts (hint, booster, results, game over) are browser side effects. The hint and results handlers change no state.
- `Math.random` is not modelled. Each draw is a caller-supplied `Roll`, and the bomb's position is a caller-supplied `pick`. Nothing is said about distributions.
- Timing and scheduling are not modelled: the one-second interval, the one-second deferred settle, and the race in which a click during that second meets a settle that rebuilds from a stale board. Each resolution is one atomic step (`ResolveMatch`): one evaluation of the selection followed at once by its settle.
- Re-evaluation on every flip is not modelled. In the program the match effect depends on the selection and the board (`src/App.jsx:126`). Its evaluation runs right after every flip from the third card on, and again whenever the board changes; only the settle is deferred. The model evaluates a selection once, at a `MatchEffect` event the caller places, so cards may be flipped before it. Because of this the model under-counts the program's score. A five-card match can only be reached through a four-card state, which the program already scored as a booster (+4, one move, slider and star). When the bomb is then placed off the first card, the re-run on the bomb board counts four again and scores once more. A selection of four equal cards and one other card scores at four cards and again at five.
- Bomb clicks in sessions: under atomic resolution no session that starts from a bomb-free board ever shows a bomb (`Play.SessionNeverShowsBomb`). The properties of `Game.HandleBombClick`, `Board.BombBlast` and `Board.BlastRowAndColumn` are therefore proved for arbitrary states, not for states a modelled session reaches. In the program the bomb stays on screen and can be clicked until the deferred settle fires (`src/App.jsx:104-119`).
- React's effect re-runs beyond the match effect are not modelled. The end check re-fires and re-alerts. The level effect (`48-50`) draws a second board after `handleNextLevel`. The model draws one board per level change.
- `bombIndex` is written but never read by the source. The model keeps it as written: it stays set after a resolution redraws the bomb's cell, and `handleNextLevel` does not clear it.
- `handleNextLevel` does not clear the selection or the star flag. The model carries both into the next level, as the source does.
- Game.ResolveMatch: a selected cell is given its own draw only for a selection without duplicates. `flipCard` guarantees that, and `Valid` records it.
