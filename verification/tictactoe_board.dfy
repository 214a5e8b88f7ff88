/**
 * The 3x3 tic-tac-toe grid and its two queries: "has this player a line"
 * and "is the grid full". The grid is stored row-major: cell (row, col)
 * is element 3 * row + col of a nine-element sequence.
 */
module Board {

  /** The two symbols a cell can carry, `'X'` and `'O'`. */
  datatype Mark = X | O

  /** A cell is `''` (Empty) or holds a symbol. */
  datatype Cell = Empty | Marked(mark: Mark)

  type Grid = g: seq<Cell> | |g| == 9
    witness [Empty, Empty, Empty, Empty, Empty, Empty, Empty, Empty, Empty]

  /** A position on the grid, as the `(i, j)` pairs of the source. */
  datatype Square = Square(row: nat, col: nat)

  const EmptyGrid: Grid := [Empty, Empty, Empty, Empty, Empty, Empty, Empty, Empty, Empty]

  lemma EmptyGridCells()
    ensures forall k | 0 <= k < 9 :: EmptyGrid[k] == Empty
  {
  }

  function Other(m: Mark): (r: Mark)
    ensures r != m
  {
    if m == X then O else X
  }

  function Index(s: Square): (k: nat)
    requires s.row < 3 && s.col < 3
    ensures k < 9
  {
    3 * s.row + s.col
  }

  function SquareAt(k: nat): (s: Square)
    requires k < 9
    ensures s.row < 3 && s.col < 3 && Index(s) == k
  {
    Square(k / 3, k % 3)
  }

  /** Different indices name different squares. */
  lemma SquareAtInjective(k: nat, k': nat)
    requires k < 9 && k' < 9 && k != k'
    ensures SquareAt(k) != SquareAt(k')
  {
  }

  /** Cell (i, j) holds player `p`. */
  predicate Has(g: Grid, p: Mark, i: nat, j: nat)
    requires i < 3 && j < 3
  {
    g[3 * i + j] == Marked(p)
  }

  predicate RowWon(g: Grid, p: Mark, i: nat)
    requires i < 3
  {
    Has(g, p, i, 0) && Has(g, p, i, 1) && Has(g, p, i, 2)
  }

  predicate ColumnWon(g: Grid, p: Mark, j: nat)
    requires j < 3
  {
    Has(g, p, 0, j) && Has(g, p, 1, j) && Has(g, p, 2, j)
  }

  /** `check_winner`: rows first, then columns, then the two diagonals. */
  predicate CheckWinner(g: Grid, p: Mark)
  {
    RowWon(g, p, 0) || RowWon(g, p, 1) || RowWon(g, p, 2) ||
    ColumnWon(g, p, 0) || ColumnWon(g, p, 1) || ColumnWon(g, p, 2) ||
    (Has(g, p, 0, 0) && Has(g, p, 1, 1) && Has(g, p, 2, 2)) ||
    (Has(g, p, 0, 2) && Has(g, p, 1, 1) && Has(g, p, 2, 0))
  }

  /** `is_draw`: no cell is `''` (a full grid, whatever its lines hold). */
  predicate IsFull(g: Grid)
  {
    forall k | 0 <= k < 9 :: g[k] != Empty
  }

  /** The eight winning lines of the game, as cell indices. */
  const Lines: seq<seq<nat>> := [
    [0, 1, 2], [3, 4, 5], [6, 7, 8],
    [0, 3, 6], [1, 4, 7], [2, 5, 8],
    [0, 4, 8], [2, 4, 6]]

  predicate Owns(g: Grid, p: Mark, line: seq<nat>)
    requires |line| == 3 && forall t | 0 <= t < 3 :: line[t] < 9
  {
    g[line[0]] == Marked(p) && g[line[1]] == Marked(p) && g[line[2]] == Marked(p)
  }

  /** `check_winner` holds exactly when one of the eight lines is all `p`. */
  lemma WinnerIffLine(g: Grid, p: Mark)
    ensures CheckWinner(g, p) <==>
            exists l | 0 <= l < |Lines| :: Owns(g, p, Lines[l])
  {
    if CheckWinner(g, p) {
      var l :=
        if RowWon(g, p, 0) then 0 else if RowWon(g, p, 1) then 1
        else if RowWon(g, p, 2) then 2 else if ColumnWon(g, p, 0) then 3
        else if ColumnWon(g, p, 1) then 4 else if ColumnWon(g, p, 2) then 5
        else if Has(g, p, 0, 0) && Has(g, p, 1, 1) && Has(g, p, 2, 2) then 6 else 7;
      assert Owns(g, p, Lines[l]);
    }
  }

  /** Number of empty cells of a sequence of cells. */
  function CountEmpty(s: seq<Cell>): nat
  {
    multiset(s)[Empty]
  }

  /** `is_draw` holds exactly when no empty cell is left. */
  lemma FullIffNoEmpty(g: Grid)
    ensures IsFull(g) <==> CountEmpty(g) == 0
  {
    if !IsFull(g) {
      var k :| 0 <= k < 9 && g[k] == Empty;
      assert g[k] in multiset(g);
    }
  }

  /** The grid after placing `m` on the empty cell `k`. */
  function Fill(g: Grid, k: nat, m: Mark): (r: Grid)
    requires k < 9 && g[k] == Empty
    ensures CountEmpty(r) == CountEmpty(g) - 1
    ensures r[k] == Marked(m) && forall t | 0 <= t < 9 && t != k :: r[t] == g[t]
  {
    g[k := Marked(m)]
  }

  /** Indices of the empty cells from `k` on, in row-major order. */
  function EmptyFrom(g: Grid, k: nat): (cells: seq<nat>)
    requires k <= 9
    decreases 9 - k
  {
    if k == 9 then []
    else if g[k] == Empty then [k] + EmptyFrom(g, k + 1)
    else EmptyFrom(g, k + 1)
  }

  /** The list `[(i, j) ... if board[i][j] == '']` of `random_move`, as indices. */
  function EmptyCells(g: Grid): seq<nat>
  {
    EmptyFrom(g, 0)
  }

  lemma {:induction false} EmptyFromMembers(g: Grid, k: nat)
    requires k <= 9
    ensures forall c: nat :: c in EmptyFrom(g, k) <==> k <= c < 9 && g[c] == Empty
    decreases 9 - k
  {
    if k < 9 {
      EmptyFromMembers(g, k + 1);
    }
  }

  lemma {:induction false} EmptyFromSorted(g: Grid, k: nat)
    requires k <= 9
    ensures forall x, y | 0 <= x < y < |EmptyFrom(g, k)| :: EmptyFrom(g, k)[x] < EmptyFrom(g, k)[y]
    decreases 9 - k
  {
    if k < 9 {
      EmptyFromSorted(g, k + 1);
      EmptyFromMembers(g, k + 1);
      var rest := EmptyFrom(g, k + 1);
      forall y | 0 <= y < |rest|
        ensures k < rest[y]
      {
        assert rest[y] in rest;
      }
    }
  }

  lemma {:induction false} EmptyFromCount(g: Grid, k: nat)
    requires k <= 9
    ensures |EmptyFrom(g, k)| == CountEmpty(g[k..])
    decreases 9 - k
  {
    if k < 9 {
      EmptyFromCount(g, k + 1);
      assert g[k..] == [g[k]] + g[k + 1..];
    }
  }

  /**
   * The empty-cell list holds exactly the empty cells, in strictly
   * increasing row-major order, and is empty exactly on a full grid.
   */
  lemma EmptyCellsSpec(g: Grid)
    ensures forall c: nat :: c in EmptyCells(g) <==> c < 9 && g[c] == Empty
    ensures forall x, y | 0 <= x < y < |EmptyCells(g)| :: EmptyCells(g)[x] < EmptyCells(g)[y]
    ensures |EmptyCells(g)| == CountEmpty(g)
    ensures EmptyCells(g) == [] <==> IsFull(g)
  {
    EmptyFromMembers(g, 0);
    EmptyFromSorted(g, 0);
    EmptyFromCount(g, 0);
    assert g[0..] == g;
    FullIffNoEmpty(g);
  }
}
