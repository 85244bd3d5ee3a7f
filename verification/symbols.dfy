/** The glyphs of the match game, its fixed configuration, and the single
    source of randomness (`getRandomSymbol`) turned into an explicit draw. */
module Symbols {

  /** What a card can show: the five glyphs the generator draws from, plus the
      bomb marker, which only a five-card match puts on the board. */
  datatype Symbol = Circle | Triangle | Cross | Star | Square | Bomb

  /** Side of the square board; the board has GRID_SIZE * GRID_SIZE cells. */
  const GRID_SIZE: nat := 8
  const CELL_COUNT: nat := GRID_SIZE * GRID_SIZE
  /** The level ends once the score reaches this value. */
  const TARGET_SCORE: int := 100
  /** The level ends once this many scoring moves have been made. */
  const MAX_MOVES: int := 7
  /** Seconds on the countdown at the start of every level. */
  const TIME_LIMIT: int := 120

  /** The generator's alphabet, in the order the source lists it. */
  const Palette: seq<Symbol> := [Circle, Triangle, Cross, Star, Square]

  /** One random draw: the array position `floor(random * 5)` for a random
      number in [0, 1). The model does not say how draws are distributed. */
  type Roll = k: int | 0 <= k < 5

  /** The symbol a draw selects. */
  function GetRandomSymbol(r: Roll): (s: Symbol)
    ensures s in Palette
    ensures s != Bomb
  {
    Palette[r]
  }

  /** The draw that yields a given non-bomb symbol: the inverse of GetRandomSymbol. */
  function RollOf(s: Symbol): (r: Roll)
    requires s != Bomb
    ensures Palette[r] == s
  {
    match s
    case Circle => 0
    case Triangle => 1
    case Cross => 2
    case Star => 3
    case Square => 4
  }

  /** Every non-bomb symbol can be drawn, and only the bomb cannot: the
      generator's range is exactly the non-bomb symbols. */
  lemma GeneratorRange(s: Symbol)
    ensures s != Bomb <==> exists r: Roll :: GetRandomSymbol(r) == s
  {
    if s != Bomb {
      assert GetRandomSymbol(RollOf(s)) == s;
    }
  }

  /** Different draws give different symbols, so a drawn symbol records its draw. */
  lemma RollRoundTrip(r: Roll)
    ensures RollOf(GetRandomSymbol(r)) == r
  {
  }
}
