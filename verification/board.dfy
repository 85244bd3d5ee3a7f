/** The 8x8 board as a row-major sequence of symbols: generation, the
    per-cell rewrite used when a match settles, and the bomb's row-and-column
    blast (a declarative definition and the loop-based rewrite of the source). */
module Board {
  import opened Symbols

  type Board = seq<Symbol>

  /** No cell holds the bomb marker. */
  predicate BombFree(b: Board)
  {
    forall k :: 0 <= k < |b| ==> b[k] != Bomb
  }

  /** No index occurs twice. */
  predicate Distinct(cells: seq<nat>)
  {
    forall a, b :: 0 <= a < b < |cells| ==> cells[a] != cells[b]
  }

  /** Every index names a cell of a board with n cells. */
  predicate InBounds(cells: seq<nat>, n: nat)
  {
    forall j :: 0 <= j < |cells| ==> cells[j] < n
  }

  function RowOf(k: nat): nat { k / GRID_SIZE }

  function ColOf(k: nat): nat { k % GRID_SIZE }

  /** Cell k shares a row or a column with cell `index`. */
  predicate InBlast(k: nat, index: nat)
  {
    RowOf(k) == RowOf(index) || ColOf(k) == ColOf(index)
  }

  /** `generateRandomCards`: one draw per cell, cells in order. */
  function GenerateRandomCards(rolls: seq<Roll>): (b: Board)
    requires |rolls| == CELL_COUNT
    ensures |b| == CELL_COUNT
    ensures BombFree(b)
    ensures forall k :: 0 <= k < |b| ==> b[k] in Palette && RollOf(b[k]) == rolls[k]
  {
    seq(CELL_COUNT, k requires 0 <= k < CELL_COUNT => GetRandomSymbol(rolls[k]))
  }

  /** The deferred rewrite of a settled match: walk the selected cells in
      order and give each a freshly drawn symbol (a later write to the same
      cell would win). */
  function WriteAll(b: Board, cells: seq<nat>, rolls: seq<Roll>): (r: Board)
    requires |rolls| == |cells|
    requires InBounds(cells, |b|)
    ensures |r| == |b|
    ensures forall k :: 0 <= k < |b| && k !in cells ==> r[k] == b[k]
    ensures forall k :: k in cells ==> r[k] != Bomb
    ensures Distinct(cells) ==> forall j :: 0 <= j < |cells| ==> r[cells[j]] == GetRandomSymbol(rolls[j])
    decreases |cells|
  {
    if |cells| == 0 then b
    else WriteAll(b[cells[0] := GetRandomSymbol(rolls[0])], cells[1..], rolls[1..])
  }

  /** Writing a cell that the rewrite will overwrite anyway makes no difference
      to the rewrite's result. */
  lemma {:induction false} WriteAllAbsorbs(b: Board, cells: seq<nat>, rolls: seq<Roll>, c: nat, x: Symbol)
    requires |rolls| == |cells|
    requires InBounds(cells, |b|)
    requires c in cells
    ensures WriteAll(b[c := x], cells, rolls) == WriteAll(b, cells, rolls)
    decreases |cells|
  {
    var v := GetRandomSymbol(rolls[0]);
    if cells[0] == c {
      assert b[c := x][c := v] == b[c := v];
    } else {
      assert b[c := x][cells[0] := v] == b[cells[0] := v][c := x];
      WriteAllAbsorbs(b[cells[0] := v], cells[1..], rolls[1..], c, x);
    }
  }

  /** The bomb's effect, stated cell by cell: the column rewrite runs second,
      so cell (i, col) of the bomb's column (intersection included) takes the
      i-th column draw, cell (row, i) of the rest of its row takes the i-th row
      draw, and all else is kept. */
  function BombBlast(b: Board, index: nat, rowRolls: seq<Roll>, colRolls: seq<Roll>): (r: Board)
    requires |b| == CELL_COUNT && index < CELL_COUNT
    requires |rowRolls| == GRID_SIZE && |colRolls| == GRID_SIZE
    ensures |r| == |b|
    ensures forall k :: 0 <= k < |r| && InBlast(k, index) ==> r[k] != Bomb
    ensures forall k :: 0 <= k < |r| && !InBlast(k, index) ==> r[k] == b[k]
    ensures forall i :: 0 <= i < GRID_SIZE ==>
      r[i * GRID_SIZE + ColOf(index)] == GetRandomSymbol(colRolls[i])
    ensures forall i :: 0 <= i < GRID_SIZE && i != ColOf(index) ==>
      r[RowOf(index) * GRID_SIZE + i] == GetRandomSymbol(rowRolls[i])
  {
    var r := seq(CELL_COUNT, k requires 0 <= k < CELL_COUNT =>
      if ColOf(k) == ColOf(index) then GetRandomSymbol(colRolls[RowOf(k)])
      else if RowOf(k) == RowOf(index) then GetRandomSymbol(rowRolls[ColOf(k)])
      else b[k]);
    var row, col := RowOf(index), ColOf(index);
    assert forall i :: 0 <= i < GRID_SIZE ==> r[i * GRID_SIZE + col] == GetRandomSymbol(colRolls[i]) by {
      forall i | 0 <= i < GRID_SIZE
        ensures r[i * GRID_SIZE + col] == GetRandomSymbol(colRolls[i])
      {
        Coordinates(i, col);
      }
    }
    assert forall i :: 0 <= i < GRID_SIZE && i != col ==> r[row * GRID_SIZE + i] == GetRandomSymbol(rowRolls[i]) by {
      forall i | 0 <= i < GRID_SIZE && i != col
        ensures r[row * GRID_SIZE + i] == GetRandomSymbol(rowRolls[i])
      {
        Coordinates(row, i);
      }
    }
    r
  }

  /** Cell (r, c) of the grid sits at index r * GRID_SIZE + c. */
  lemma Coordinates(r: nat, c: nat)
    requires c < GRID_SIZE
    ensures RowOf(r * GRID_SIZE + c) == r && ColOf(r * GRID_SIZE + c) == c
  {
  }

  /** A cell is determined by its row and column. */
  lemma SameCell(k: nat, r: nat, c: nat)
    requires RowOf(k) == r && ColOf(k) == c
    ensures k == r * GRID_SIZE + c
  {
  }

  /** `handleBombClick`'s two loops: first the bomb's row, then its column,
      each cell taking the next draw. */
  method BlastRowAndColumn(cards: Board, index: nat, rowRolls: seq<Roll>, colRolls: seq<Roll>)
    returns (newCards: Board)
    requires |cards| == CELL_COUNT && index < CELL_COUNT
    requires |rowRolls| == GRID_SIZE && |colRolls| == GRID_SIZE
    ensures newCards == BombBlast(cards, index, rowRolls, colRolls)
  {
    var row := index / GRID_SIZE;
    var col := index % GRID_SIZE;
    newCards := cards;
    var i := 0;
    while i < GRID_SIZE
      invariant 0 <= i <= GRID_SIZE
      invariant |newCards| == CELL_COUNT
      invariant forall k :: 0 <= k < CELL_COUNT ==>
        newCards[k] == (if RowOf(k) == row && ColOf(k) < i then GetRandomSymbol(rowRolls[ColOf(k)]) else cards[k])
    {
      Coordinates(row, i);
      forall k | 0 <= k < CELL_COUNT && RowOf(k) == row && ColOf(k) == i
        ensures k == row * GRID_SIZE + i
      {
        SameCell(k, row, i);
      }
      newCards := newCards[row * GRID_SIZE + i := GetRandomSymbol(rowRolls[i])];
      i := i + 1;
    }
    i := 0;
    while i < GRID_SIZE
      invariant 0 <= i <= GRID_SIZE
      invariant |newCards| == CELL_COUNT
      invariant forall k :: 0 <= k < CELL_COUNT ==>
        newCards[k] == (if ColOf(k) == col && RowOf(k) < i then GetRandomSymbol(colRolls[RowOf(k)])
                        else if RowOf(k) == row then GetRandomSymbol(rowRolls[ColOf(k)])
                        else cards[k])
    {
      Coordinates(i, col);
      forall k | 0 <= k < CELL_COUNT && RowOf(k) == i && ColOf(k) == col
        ensures k == i * GRID_SIZE + col
      {
        SameCell(k, i, col);
      }
      newCards := newCards[i * GRID_SIZE + col := GetRandomSymbol(colRolls[i])];
      i := i + 1;
    }
  }

  /** How many of the first n cells a blast at `index` leaves alone. */
  function Untouched(index: nat, n: nat): nat
  {
    if n == 0 then 0 else Untouched(index, n - 1) + (if InBlast(n - 1, index) then 0 else 1)
  }

  lemma {:induction false} UntouchedAlongRow(index: nat, r: nat, c: nat)
    requires c <= GRID_SIZE
    ensures Untouched(index, r * GRID_SIZE + c) ==
      Untouched(index, r * GRID_SIZE) +
        (if r == RowOf(index) then 0 else if ColOf(index) < c then c - 1 else c)
  {
    if c > 0 {
      UntouchedAlongRow(index, r, c - 1);
      Coordinates(r, c - 1);
    }
  }

  lemma {:induction false} UntouchedRows(index: nat, r: nat)
    requires index < CELL_COUNT && r <= GRID_SIZE
    ensures Untouched(index, r * GRID_SIZE) == 7 * r - (if RowOf(index) < r then 7 else 0)
  {
    if r > 0 {
      UntouchedRows(index, r - 1);
      UntouchedAlongRow(index, r - 1, GRID_SIZE);
      assert (r - 1) * GRID_SIZE + GRID_SIZE == r * GRID_SIZE;
    }
  }

  /** A blast rewrites 15 cells and spares the other 49, wherever the bomb is. */
  lemma BlastSpares49(index: nat)
    requires index < CELL_COUNT
    ensures Untouched(index, CELL_COUNT) == 49
  {
    UntouchedRows(index, GRID_SIZE);
  }
}
