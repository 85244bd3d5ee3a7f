/** The player's selection of flipped cards and the match count over it. */
module Selection {
  import opened Symbols
  import opened Board

  /** At most this many cards can be flipped at once. */
  const MAX_SELECTION: nat := 5
  /** A selection is evaluated once it holds at least this many cards. */
  const MATCH_TRIGGER: nat := 3

  /** The selection invariant: at most five cards, none twice. */
  predicate WellFormed(sel: seq<nat>)
  {
    |sel| <= MAX_SELECTION && Distinct(sel)
  }

  /** `flipCard`: flip `index` if fewer than five cards are flipped and it is
      not flipped already; otherwise nothing happens. */
  function FlipCard(sel: seq<nat>, index: nat): (r: seq<nat>)
    ensures sel <= r && |r| <= |sel| + 1
    ensures index in r <==> index in sel || |sel| < MAX_SELECTION
    ensures forall x :: x in r ==> x in sel || x == index
    ensures WellFormed(sel) ==> WellFormed(r)
  {
    if |sel| < MAX_SELECTION && index !in sel then sel + [index] else sel
  }

  /** Flipping the same card twice is the same as flipping it once. */
  lemma FlipIdempotent(sel: seq<nat>, index: nat)
    ensures FlipCard(FlipCard(sel, index), index) == FlipCard(sel, index)
  {
  }

  /** The symbols under the selected cards, in selection order. */
  function SelectedSymbols(b: Board, sel: seq<nat>): (xs: seq<Symbol>)
    requires InBounds(sel, |b|)
    ensures |xs| == |sel|
    ensures forall j :: 0 <= j < |sel| ==> xs[j] == b[sel[j]]
  {
    seq(|sel|, j requires 0 <= j < |sel| => b[sel[j]])
  }

  /** How many entries of xs equal x, counted front to back as `filter` does. */
  function CountOf(xs: seq<Symbol>, x: Symbol): (n: nat)
    ensures n == multiset(xs)[x]
    ensures n <= |xs|
    ensures n == |xs| <==> forall j :: 0 <= j < |xs| ==> xs[j] == x
  {
    if xs == [] then 0
    else
      assert xs == [xs[0]] + xs[1..];
      (if xs[0] == x then 1 else 0) + CountOf(xs[1..], x)
  }

  /** How many selected cards show the symbol of the FIRST selected card
      (not the most frequent symbol); zero for an empty selection. */
  function MatchCount(b: Board, sel: seq<nat>): (n: nat)
    requires InBounds(sel, |b|)
    ensures |sel| == 0 ==> n == 0
    ensures |sel| > 0 ==> 1 <= n <= |sel|
    ensures |sel| > 0 ==> (n == |sel| <==> forall j :: 0 <= j < |sel| ==> b[sel[j]] == b[sel[0]])
    ensures |sel| > 0 ==> n == multiset(SelectedSymbols(b, sel))[b[sel[0]]]
  {
    var xs := SelectedSymbols(b, sel);
    if |xs| == 0 then 0 else CountOf(xs, xs[0])
  }

  /** Because of the five-card cap, a count of five or more means exactly five
      cards are flipped and all show the first card's symbol. */
  lemma FiveMatchIsFullSelection(b: Board, sel: seq<nat>)
    requires InBounds(sel, |b|)
    requires WellFormed(sel)
    requires MatchCount(b, sel) >= 5
    ensures |sel| == MAX_SELECTION
    ensures forall j :: 0 <= j < |sel| ==> b[sel[j]] == b[sel[0]]
  {
  }

  /** The count follows the first card, not the majority: with two crosses
      behind a circle the count is one, with the circle last it is two. */
  lemma FirstCardIsTheReference()
    ensures MatchCount([Circle, Cross, Cross], [0, 1, 2]) == 1
    ensures MatchCount([Circle, Cross, Cross], [1, 2, 0]) == 2
  {
    var b := [Circle, Cross, Cross];
    assert SelectedSymbols(b, [0, 1, 2]) == [Circle, Cross, Cross];
    assert SelectedSymbols(b, [1, 2, 0]) == [Cross, Cross, Circle];
    assert [Circle, Cross, Cross][1..] == [Cross, Cross];
    assert [Cross, Cross][1..] == [Cross];
    assert [Cross, Cross, Circle][1..] == [Cross, Circle];
    assert [Cross, Circle][1..] == [Circle];
  }
}
