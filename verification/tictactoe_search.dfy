/**
 * The Hard policy's search: the source's alpha-beta `minimax`, which marks
 * each trial cell of the live grid, searches the child and resets the cell
 * to `''`. Each method is proved to restore the grid and to agree with the
 * reference value and move defined in `GameValue`.
 */
module Search {
  import opened Base
  import opened Board
  import opened GameValue

  /**
   * `minimax(board, is_max, alpha, beta)`: a finished grid scores 1, -1 or
   * 0 with no move; otherwise the search goes on in `SearchMax` (the
   * `is_max` branch) or `SearchMin`.
   *
   * The grid comes back as it was; the score is always -1, 0 or 1; inside
   * a non-empty window it agrees with plain minimax up to that window; and
   * called with the infinite window it returns exactly the value and the
   * move of plain minimax.
   */
  method Minimax(board: array<Cell>, isMax: bool, alpha: int, beta: int, ai: Mark, player: Mark)
      returns (value: int, move: Option<Square>)
    requires board.Length == 9
    modifies board
    ensures board[..] == old(board[..])
    ensures -1 <= value <= 1
    ensures move.None? <==> Terminal(old(board[..]), ai, player).Some?
    ensures Terminal(old(board[..]), ai, player).Some? ==> value == Terminal(old(board[..]), ai, player).value
    ensures move.Some? ==>
              move.value.row < 3 && move.value.col < 3 && old(board[..])[Index(move.value)] == Empty
    ensures alpha < beta ==>
              Clamp(value, alpha, beta) == Clamp(Value(old(board[..]), isMax, ai, player), alpha, beta)
    ensures alpha == MinusInfinity && beta == PlusInfinity ==>
              value == Value(old(board[..]), isMax, ai, player) &&
              move == BestMove(old(board[..]), isMax, ai, player)
    decreases CountEmpty(board[..]), 4
  {
    if CheckWinner(board[..], ai) {
      return 1, None;
    }
    if CheckWinner(board[..], player) {
      return -1, None;
    }
    if IsFull(board[..]) {
      return 0, None;
    }
    ghost var g: Grid := board[..];
    if isMax {
      value, move := SearchMax(board, alpha, beta, ai, player);
      ProgressFinish(g, isMax, ai, player, alpha, beta, value, move,
                     if value == Worst(true) then alpha else Max(alpha, value), beta);
    } else {
      value, move := SearchMin(board, alpha, beta, ai, player);
      ProgressFinish(g, isMax, ai, player, alpha, beta, value, move,
                     alpha, if value == Worst(false) then beta else Min(beta, value));
    }
  }

  /**
   * The `is_max` branch of `minimax` on a grid that is not finished: mark
   * each empty cell with the AI's symbol in row-major order, search the
   * child, reset the cell to `''`, keep the first strictly greater score and
   * raise alpha. Beta stays as it came in.
   */
  method SearchMax(board: array<Cell>, alpha: int, beta: int, ai: Mark, player: Mark)
      returns (value: int, move: Option<Square>)
    requires board.Length == 9
    modifies board
    ensures board[..] == old(board[..])
    ensures Progress(old(board[..]), true, alpha, beta, Scan(old(board[..]), true, ai, player, 9),
                     value, move, if value == Worst(true) then alpha else Max(alpha, value), beta)
    decreases CountEmpty(board[..]), 3
  {
    ghost var g: Grid := board[..];
    move := None;
    var a := alpha;
    value := MinusInfinity;
    ProgressStart(g, true, ai, player, alpha, beta);
    var i := 0;
    while i < 3
      invariant 0 <= i <= 3 && board[..] == g
      invariant Progress(g, true, alpha, beta, Scan(g, true, ai, player, 3 * i), value, move, a, beta)
    {
      value, move, a := SearchRowMax(board, g, i, alpha, beta, ai, player, value, move, a);
      i := i + 1;
    }
  }

  /**
   * The column loop of the `is_max` branch for row `i`. A cutoff
   * `beta <= alpha` leaves only this loop, as Python's `break` does, so the
   * following rows are still searched.
   */
  method SearchRowMax(board: array<Cell>, ghost g: Grid, i: nat, alpha: int, beta: int, ai: Mark, player: Mark,
                      value0: int, move0: Option<Square>, a0: int)
      returns (value: int, move: Option<Square>, a: int)
    requires board.Length == 9 && board[..] == g && i < 3
    requires Progress(g, true, alpha, beta, Scan(g, true, ai, player, 3 * i),
                      value0, move0, a0, beta)
    modifies board
    ensures board[..] == g
    ensures Progress(g, true, alpha, beta, Scan(g, true, ai, player, 3 * i + 3),
                     value, move, a, beta)
    decreases CountEmpty(board[..]), 2
  {
    value, move, a := value0, move0, a0;
    var j := 0;
    while j < 3
      invariant 0 <= j <= 3 && board[..] == g
      invariant Progress(g, true, alpha, beta, Scan(g, true, ai, player, 3 * i + j), value, move, a, beta)
    {
      if board[3 * i + j] == Empty {
        value, move, a := ExploreMax(board, g, i, j, alpha, beta, ai, player, value, move, a);
        if beta <= a {
          break;
        }
      } else {
        ProgressPassOccupied(g, true, ai, player, alpha, beta, 3 * i + j, Scan(g, true, ai, player, 3 * i + j),
                             Scan(g, true, ai, player, 3 * i + j + 1), value, move, a, beta);
      }
      j := j + 1;
    }
  }

  /**
   * The other branch of `minimax`: the player's symbol, the first strictly
   * smaller score, and beta lowered while alpha stays as it came in.
   */
  method SearchMin(board: array<Cell>, alpha: int, beta: int, ai: Mark, player: Mark)
      returns (value: int, move: Option<Square>)
    requires board.Length == 9
    modifies board
    ensures board[..] == old(board[..])
    ensures Progress(old(board[..]), false, alpha, beta, Scan(old(board[..]), false, ai, player, 9),
                     value, move, alpha, if value == Worst(false) then beta else Min(beta, value))
    decreases CountEmpty(board[..]), 3
  {
    ghost var g: Grid := board[..];
    move := None;
    var b := beta;
    value := PlusInfinity;
    ProgressStart(g, false, ai, player, alpha, beta);
    var i := 0;
    while i < 3
      invariant 0 <= i <= 3 && board[..] == g
      invariant Progress(g, false, alpha, beta, Scan(g, false, ai, player, 3 * i), value, move, alpha, b)
    {
      value, move, b := SearchRowMin(board, g, i, alpha, beta, ai, player, value, move, b);
      i := i + 1;
    }
  }

  /** The column loop of the other branch for row `i`, with the same `break`. */
  method SearchRowMin(board: array<Cell>, ghost g: Grid, i: nat, alpha: int, beta: int, ai: Mark, player: Mark,
                      value0: int, move0: Option<Square>, b0: int)
      returns (value: int, move: Option<Square>, b: int)
    requires board.Length == 9 && board[..] == g && i < 3
    requires Progress(g, false, alpha, beta, Scan(g, false, ai, player, 3 * i),
                      value0, move0, alpha, b0)
    modifies board
    ensures board[..] == g
    ensures Progress(g, false, alpha, beta, Scan(g, false, ai, player, 3 * i + 3),
                     value, move, alpha, b)
    decreases CountEmpty(board[..]), 2
  {
    value, move, b := value0, move0, b0;
    var j := 0;
    while j < 3
      invariant 0 <= j <= 3 && board[..] == g
      invariant Progress(g, false, alpha, beta, Scan(g, false, ai, player, 3 * i + j), value, move, alpha, b)
    {
      if board[3 * i + j] == Empty {
        value, move, b := ExploreMin(board, g, i, j, alpha, beta, ai, player, value, move, b);
        if b <= alpha {
          break;
        }
      } else {
        ProgressPassOccupied(g, false, ai, player, alpha, beta, 3 * i + j, Scan(g, false, ai, player, 3 * i + j),
                             Scan(g, false, ai, player, 3 * i + j + 1), value, move, alpha, b);
      }
      j := j + 1;
    }
  }

  /**
   * One empty cell of the `is_max` branch: mark it with the AI's symbol,
   * search the child with the current window, reset it to `''`, then keep
   * the score if it is strictly greater and raise alpha.
   */
  method ExploreMax(board: array<Cell>, ghost g: Grid, i: nat, j: nat, alpha: int, beta: int, ai: Mark, player: Mark,
                    value0: int, move0: Option<Square>, a0: int)
      returns (value: int, move: Option<Square>, a: int)
    requires board.Length == 9 && board[..] == g && i < 3 && j < 3 && board[3 * i + j] == Empty
    requires Progress(g, true, alpha, beta, Scan(g, true, ai, player, 3 * i + j),
                      value0, move0, a0, beta)
    modifies board
    ensures board[..] == g
    ensures Progress(g, true, alpha, beta,
                     Scan(g, true, ai, player, if beta <= a then 3 * i + 3 else 3 * i + j + 1),
                     value, move, a, beta)
    ensures -1 <= value <= 1
    decreases CountEmpty(board[..]), 1
  {
    var eval := TryCell(board, 3 * i + j, true, a0, beta, ai, player);
    value, move := value0, move0;
    if eval > value {
      value := eval;
      move := Some(Square(i, j));
    }
    a := Max(a0, eval);
    assert Square(i, j) == SquareAt(3 * i + j);
    ProgressStep(g, true, ai, player, alpha, beta, 3 * i + j, 3 * i + 3, value0, move0, a0, beta, eval,
                 value, move, a, beta);
  }

  /**
   * One empty cell of the other branch: the player's symbol, the first
   * strictly smaller score, and beta lowered.
   */
  method ExploreMin(board: array<Cell>, ghost g: Grid, i: nat, j: nat, alpha: int, beta: int, ai: Mark, player: Mark,
                    value0: int, move0: Option<Square>, b0: int)
      returns (value: int, move: Option<Square>, b: int)
    requires board.Length == 9 && board[..] == g && i < 3 && j < 3 && board[3 * i + j] == Empty
    requires Progress(g, false, alpha, beta, Scan(g, false, ai, player, 3 * i + j),
                      value0, move0, alpha, b0)
    modifies board
    ensures board[..] == g
    ensures Progress(g, false, alpha, beta,
                     Scan(g, false, ai, player, if b <= alpha then 3 * i + 3 else 3 * i + j + 1),
                     value, move, alpha, b)
    ensures -1 <= value <= 1
    decreases CountEmpty(board[..]), 1
  {
    var eval := TryCell(board, 3 * i + j, false, alpha, b0, ai, player);
    value, move := value0, move0;
    if eval < value {
      value := eval;
      move := Some(Square(i, j));
    }
    b := Min(b0, eval);
    assert Square(i, j) == SquareAt(3 * i + j);
    ProgressStep(g, false, ai, player, alpha, beta, 3 * i + j, 3 * i + 3, value0, move0, alpha, b0, eval,
                 value, move, alpha, b);
  }

  /**
   * The trial move shared by both branches: mark the empty cell `k` with
   * the symbol of the side to move, search the child with the given
   * window, and reset the cell to `''`. The score agrees with the child's
   * minimax value inside a non-empty window.
   */
  method TryCell(board: array<Cell>, k: nat, isMax: bool, alpha: int, beta: int, ai: Mark, player: Mark)
      returns (eval: int)
    requires board.Length == 9 && k < 9 && board[k] == Empty
    modifies board
    ensures board[..] == old(board[..])
    ensures -1 <= eval <= 1
    ensures alpha < beta ==>
              Clamp(eval, alpha, beta) == Clamp(ChildValue(old(board[..]), isMax, ai, player, k), alpha, beta)
    decreases CountEmpty(board[..]), 0
  {
    ghost var g: Grid := board[..];
    board[k] := Marked(Mover(isMax, ai, player));
    assert board[..] == Fill(g, k, Mover(isMax, ai, player));
    var childMove;
    eval, childMove := Minimax(board, !isMax, alpha, beta, ai, player);
    board[k] := Empty;
    assert board[..] == g;
  }
}
