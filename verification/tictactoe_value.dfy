/**
 * What the tic-tac-toe AI computes, stated on values: plain minimax
 * without pruning (the reference the search is proved against), the
 * row-major scan that the source's nested loops perform, the steps that
 * carry the search loops' invariant from cell to cell, and the Easy
 * policy's random empty cell. Python's `-float('inf')` and `float('inf')`
 * are the integers -2 and 2, which lie below and above every score.
 */
module GameValue {
  import opened Base
  import opened Board

  const MinusInfinity: int := -2
  const PlusInfinity: int := 2

  /** A score together with the move that reaches it (`None` on a terminal grid). */
  datatype Choice = Choice(value: int, move: Option<Square>)

  /**
   * The score of a finished game from the AI's side, checked in the
   * source's order: AI line, then player line, then full grid.
   */
  function Terminal(g: Grid, ai: Mark, player: Mark): Option<int>
  {
    if CheckWinner(g, ai) then Some(1)
    else if CheckWinner(g, player) then Some(-1)
    else if IsFull(g) then Some(0)
    else None
  }

  /** The symbol placed at this ply: the AI maximises, the player minimises. */
  function Mover(isMax: bool, ai: Mark, player: Mark): Mark
  {
    if isMax then ai else player
  }

  /** A score that beats `best` also beats anything `best` was not beaten by. */
  lemma ImprovesPast(isMax: bool, v: int, best: int, w: int)
    requires Improves(isMax, v, best) && !Improves(isMax, w, best)
    ensures Improves(isMax, v, w)
  {
  }

  /** The initial `max_eval` / `min_eval`. */
  function Worst(isMax: bool): int
  {
    if isMax then MinusInfinity else PlusInfinity
  }

  /** The strict comparison `eval > max_eval` / `eval < min_eval`. */
  predicate Improves(isMax: bool, v: int, best: int)
  {
    if isMax then v > best else v < best
  }

  /**
   * Plain minimax without pruning and without depth discount: the value of
   * the grid when `isMax` says whose turn it is.
   */
  function Value(g: Grid, isMax: bool, ai: Mark, player: Mark): (r: int)
    ensures -1 <= r <= 1
    decreases CountEmpty(g), 1, 0, 0
  {
    match Terminal(g, ai, player)
    case Some(v) => v
    case None =>
      var s := Scan(g, isMax, ai, player, 9);
      ScanBounds(g, isMax, ai, player, 9);
      assert s.move.Some?;
      s.value
  }

  /** The value reached by marking the empty cell `k` for the side to move. */
  function ChildValue(g: Grid, isMax: bool, ai: Mark, player: Mark, k: nat): (r: int)
    requires k < 9 && g[k] == Empty
    ensures -1 <= r <= 1
    decreases CountEmpty(g), 0, 0, 0
  {
    Value(Fill(g, k, Mover(isMax, ai, player)), !isMax, ai, player)
  }

  /**
   * The best score and first best move among the cells before `k`, in
   * row-major order, keeping the earlier move on ties.
   */
  function Scan(g: Grid, isMax: bool, ai: Mark, player: Mark, k: nat): (r: Choice)
    requires k <= 9
    decreases CountEmpty(g), 0, k, 0
  {
    if k == 0 then Choice(Worst(isMax), None)
    else
      var prev := Scan(g, isMax, ai, player, k - 1);
      if g[k - 1] != Empty then prev
      else
        var v := ChildValue(g, isMax, ai, player, k - 1);
        if Improves(isMax, v, prev.value) then Choice(v, Some(SquareAt(k - 1))) else prev
  }

  /**
   * What every scan result satisfies: no move yet means no empty cell
   * before `k` and the initial score; a move is an empty cell before `k`
   * with a game value as its score.
   */
  ghost predicate WellScanned(g: Grid, isMax: bool, k: nat, r: Choice)
    requires k <= 9
  {
    && (r.move.None? ==> r.value == Worst(isMax) && forall t | 0 <= t < k :: g[t] != Empty)
    && (r.move.Some? ==>
          r.move.value.row < 3 && r.move.value.col < 3 && Index(r.move.value) < k &&
          g[Index(r.move.value)] == Empty && -1 <= r.value <= 1)
  }

  lemma {:induction false} ScanBounds(g: Grid, isMax: bool, ai: Mark, player: Mark, k: nat)
    requires k <= 9
    ensures WellScanned(g, isMax, k, Scan(g, isMax, ai, player, k))
    decreases CountEmpty(g), 0, k, 1
  {
    if k > 0 {
      ScanBounds(g, isMax, ai, player, k - 1);
    }
  }

  /** The move `minimax` returns: `None` on a terminal grid. */
  function BestMove(g: Grid, isMax: bool, ai: Mark, player: Mark): Option<Square>
  {
    if Terminal(g, ai, player).Some? then None else Scan(g, isMax, ai, player, 9).move
  }

  /** Once the scanned score passes a bound it stays past it. */
  lemma {:induction false} ScanMonotone(g: Grid, isMax: bool, ai: Mark, player: Mark, k: nat, k': nat)
    requires k <= k' <= 9
    ensures isMax ==> Scan(g, isMax, ai, player, k).value <= Scan(g, isMax, ai, player, k').value
    ensures !isMax ==> Scan(g, isMax, ai, player, k).value >= Scan(g, isMax, ai, player, k').value
    decreases k' - k
  {
    if k < k' {
      ScanMonotone(g, isMax, ai, player, k, k' - 1);
    }
  }

  /** The scan past an empty cell scores at least as well as that cell. */
  lemma ScanStep(g: Grid, isMax: bool, ai: Mark, player: Mark, t: nat)
    requires t < 9 && g[t] == Empty
    ensures !Improves(isMax, ChildValue(g, isMax, ai, player, t), Scan(g, isMax, ai, player, t + 1).value)
  {
  }

  /** After the first `k` cells no empty cell seen so far beats the scanned score. */
  lemma ScanIsBest(g: Grid, isMax: bool, ai: Mark, player: Mark, k: nat)
    requires k <= 9
    ensures forall t | 0 <= t < k && g[t] == Empty ::
              !Improves(isMax, ChildValue(g, isMax, ai, player, t), Scan(g, isMax, ai, player, k).value)
  {
    forall t | 0 <= t < k && g[t] == Empty
      ensures !Improves(isMax, ChildValue(g, isMax, ai, player, t), Scan(g, isMax, ai, player, k).value)
    {
      ScanStep(g, isMax, ai, player, t);
      ScanMonotone(g, isMax, ai, player, t + 1, k);
    }
  }

  /**
   * The scanned move reaches the scanned score, and it is the FIRST cell
   * that does: every empty cell before it scores strictly worse.
   */
  ghost predicate FirstBest(g: Grid, isMax: bool, ai: Mark, player: Mark, k: nat, s: Choice)
    requires k <= 9
  {
    && WellScanned(g, isMax, k, s)
    && (s.move.Some? ==>
          s.value == ChildValue(g, isMax, ai, player, Index(s.move.value)) &&
          forall t | 0 <= t < Index(s.move.value) && g[t] == Empty ::
            Improves(isMax, s.value, ChildValue(g, isMax, ai, player, t)))
  }

  lemma {:induction false} ScanIsFirst(g: Grid, isMax: bool, ai: Mark, player: Mark, k: nat)
    requires k <= 9
    ensures FirstBest(g, isMax, ai, player, k, Scan(g, isMax, ai, player, k))
  {
    if k == 0 {
      ScanBounds(g, isMax, ai, player, 0);
    } else {
      ScanIsFirst(g, isMax, ai, player, k - 1);
      var prev := Scan(g, isMax, ai, player, k - 1);
      if g[k - 1] == Empty && Improves(isMax, ChildValue(g, isMax, ai, player, k - 1), prev.value) {
        ScanFirstTakes(g, isMax, ai, player, k);
      } else {
        assert Scan(g, isMax, ai, player, k) == prev;
      }
    }
  }

  /** The step of `ScanIsFirst` where cell `k - 1` beats every earlier cell and becomes the move. */
  lemma ScanFirstTakes(g: Grid, isMax: bool, ai: Mark, player: Mark, k: nat)
    requires 0 < k <= 9 && g[k - 1] == Empty
    requires Improves(isMax, ChildValue(g, isMax, ai, player, k - 1), Scan(g, isMax, ai, player, k - 1).value)
    ensures FirstBest(g, isMax, ai, player, k, Scan(g, isMax, ai, player, k))
  {
    var prev := Scan(g, isMax, ai, player, k - 1);
    var v := ChildValue(g, isMax, ai, player, k - 1);
    ScanBounds(g, isMax, ai, player, k);
    ScanIsBest(g, isMax, ai, player, k - 1);
    forall t | 0 <= t < k - 1 && g[t] == Empty
      ensures Improves(isMax, v, ChildValue(g, isMax, ai, player, t))
    {
      ImprovesPast(isMax, v, prev.value, ChildValue(g, isMax, ai, player, t));
    }
    assert Scan(g, isMax, ai, player, k) == Choice(v, Some(SquareAt(k - 1)));
    assert Index(SquareAt(k - 1)) == k - 1;
  }

  /**
   * On a grid that is not terminal, `minimax`'s move is an empty cell whose
   * value is the grid's value, no empty cell does strictly better, and
   * every empty cell before it in row-major order does strictly worse.
   */
  lemma BestMoveIsFirstOptimal(g: Grid, isMax: bool, ai: Mark, player: Mark)
    ensures BestMove(g, isMax, ai, player).None? <==> Terminal(g, ai, player).Some?
    ensures BestMove(g, isMax, ai, player).Some? ==>
              var sq := BestMove(g, isMax, ai, player).value;
              && sq.row < 3 && sq.col < 3 && g[Index(sq)] == Empty
              && ChildValue(g, isMax, ai, player, Index(sq)) == Value(g, isMax, ai, player)
              && (forall t | 0 <= t < 9 && g[t] == Empty ::
                    !Improves(isMax, ChildValue(g, isMax, ai, player, t), Value(g, isMax, ai, player)))
              && (forall t | 0 <= t < Index(sq) && g[t] == Empty ::
                    Improves(isMax, Value(g, isMax, ai, player), ChildValue(g, isMax, ai, player, t)))
  {
    ScanIsBest(g, isMax, ai, player, 9);
    ScanIsFirst(g, isMax, ai, player, 9);
  }

  /** `x` cut to the window [lo, hi]: what alpha-beta can tell apart. */
  function Clamp(x: int, lo: int, hi: int): int
  {
    if x <= lo then lo else if x >= hi then hi else x
  }

  /**
   * What holds of the loop variables of `Minimax` once the scan of the
   * cells before the current one has reached `s`: `value` is `max_eval` /
   * `min_eval`, `a` and `b` are the current alpha and beta, and `alpha` and
   * `beta` the window of the call.
   */
  ghost predicate Progress(g: Grid, isMax: bool, alpha: int, beta: int, s: Choice,
                           value: int, move: Option<Square>, a: int, b: int)
  {
    && (value == Worst(isMax) ==> a == alpha && b == beta && move.None? && s.move.None?)
    && (value != Worst(isMax) ==>
          -1 <= value <= 1 && move.Some? &&
          move.value.row < 3 && move.value.col < 3 && g[Index(move.value)] == Empty &&
          (if isMax then a == Max(alpha, value) && b == beta
           else a == alpha && b == Min(beta, value)))
    && (alpha < beta ==> Clamp(value, alpha, beta) == Clamp(s.value, alpha, beta))
    && (alpha == MinusInfinity && beta == PlusInfinity ==> value == s.value && move == s.move)
  }

  lemma ProgressStart(g: Grid, isMax: bool, ai: Mark, player: Mark, alpha: int, beta: int)
    ensures Progress(g, isMax, alpha, beta, Scan(g, isMax, ai, player, 0), Worst(isMax), None, alpha, beta)
  {
  }

  /** An occupied cell is passed over by both the search and the scan. */
  lemma ProgressPassOccupied(g: Grid, isMax: bool, ai: Mark, player: Mark, alpha: int, beta: int,
                             k: nat, s: Choice, s': Choice, value: int, move: Option<Square>, a: int, b: int)
    requires k < 9 && g[k] != Empty
    requires s == Scan(g, isMax, ai, player, k) && s' == Scan(g, isMax, ai, player, k + 1)
    requires Progress(g, isMax, alpha, beta, s, value, move, a, b)
    ensures Progress(g, isMax, alpha, beta, s', value, move, a, b)
  {
  }

  /**
   * Trying the empty cell `k`: the child search returned `r`, which (when
   * its window was not empty) agrees with the child's true value inside
   * that window. Afterwards the loop variables are updated as in the source.
   */
  lemma ProgressExplore(g: Grid, isMax: bool, ai: Mark, player: Mark, alpha: int, beta: int,
                        k: nat, s: Choice, s': Choice, value: int, move: Option<Square>, a: int, b: int,
                        r: int, value': int, move': Option<Square>, a': int, b': int)
    requires k < 9 && g[k] == Empty
    requires s == Scan(g, isMax, ai, player, k) && s' == Scan(g, isMax, ai, player, k + 1)
    requires Progress(g, isMax, alpha, beta, s, value, move, a, b)
    requires -1 <= r <= 1
    requires a < b ==> Clamp(r, a, b) == Clamp(ChildValue(g, isMax, ai, player, k), a, b)
    requires value' == if Improves(isMax, r, value) then r else value
    requires move' == if Improves(isMax, r, value) then Some(SquareAt(k)) else move
    requires a' == if isMax then Max(a, r) else a
    requires b' == if isMax then b else Min(b, r)
    ensures Progress(g, isMax, alpha, beta, s', value', move', a', b')
    ensures -1 <= value' <= 1
  {
    var v := ChildValue(g, isMax, ai, player, k);
    assert s' == if Improves(isMax, v, s.value) then Choice(v, Some(SquareAt(k))) else s;
  }

  /**
   * After a cutoff (`beta <= alpha`) the rest of the row is skipped: the
   * bound already reached stays right for the cells not looked at.
   */
  lemma ProgressSkip(g: Grid, isMax: bool, ai: Mark, player: Mark, alpha: int, beta: int,
                     k: nat, k': nat, s: Choice, s': Choice, value: int, move: Option<Square>, a: int, b: int)
    requires k <= k' <= 9
    requires s == Scan(g, isMax, ai, player, k) && s' == Scan(g, isMax, ai, player, k')
    requires value != Worst(isMax) && b <= a
    requires Progress(g, isMax, alpha, beta, s, value, move, a, b)
    ensures Progress(g, isMax, alpha, beta, s', value, move, a, b)
  {
    ScanMonotone(g, isMax, ai, player, k, k');
  }

  /**
   * One trial of the empty cell `k` in a row that ends at `last`: the scan
   * resumes at the next cell, or at `last` when the window has closed
   * (`beta <= alpha`), since the source then leaves the row.
   */
  lemma ProgressStep(g: Grid, isMax: bool, ai: Mark, player: Mark, alpha: int, beta: int,
                     k: nat, last: nat, value: int, move: Option<Square>, a: int, b: int,
                     r: int, value': int, move': Option<Square>, a': int, b': int)
    requires k < last <= 9 && g[k] == Empty
    requires Progress(g, isMax, alpha, beta, Scan(g, isMax, ai, player, k), value, move, a, b)
    requires -1 <= r <= 1
    requires a < b ==> Clamp(r, a, b) == Clamp(ChildValue(g, isMax, ai, player, k), a, b)
    requires value' == if Improves(isMax, r, value) then r else value
    requires move' == if Improves(isMax, r, value) then Some(SquareAt(k)) else move
    requires a' == if isMax then Max(a, r) else a
    requires b' == if isMax then b else Min(b, r)
    ensures Progress(g, isMax, alpha, beta, Scan(g, isMax, ai, player, if b' <= a' then last else k + 1),
                     value', move', a', b')
  {
    ProgressExplore(g, isMax, ai, player, alpha, beta, k, Scan(g, isMax, ai, player, k),
                    Scan(g, isMax, ai, player, k + 1), value, move, a, b, r, value', move', a', b');
    if b' <= a' {
      ProgressSkip(g, isMax, ai, player, alpha, beta, k + 1, last, Scan(g, isMax, ai, player, k + 1),
                   Scan(g, isMax, ai, player, last), value', move', a', b');
    }
  }

  /** At the end of the scan the loop variables give the method's results. */
  lemma ProgressFinish(g: Grid, isMax: bool, ai: Mark, player: Mark, alpha: int, beta: int,
                       value: int, move: Option<Square>, a: int, b: int)
    requires Terminal(g, ai, player).None?
    requires Progress(g, isMax, alpha, beta, Scan(g, isMax, ai, player, 9), value, move, a, b)
    ensures -1 <= value <= 1 && move.Some?
    ensures move.value.row < 3 && move.value.col < 3 && g[Index(move.value)] == Empty
    ensures alpha < beta ==> Clamp(value, alpha, beta) == Clamp(Value(g, isMax, ai, player), alpha, beta)
    ensures alpha == MinusInfinity && beta == PlusInfinity ==>
              value == Value(g, isMax, ai, player) && move == BestMove(g, isMax, ai, player)
  {
    ScanBounds(g, isMax, ai, player, 9);
  }

  /**
   * The Easy move: the empty cell at position `pick` (reduced modulo the
   * number of empty cells) of the row-major list of empty cells, which
   * stands for `random.choice`; `None` on a full grid.
   */
  function RandomMove(g: Grid, pick: nat): (r: Option<Square>)
    ensures r.None? <==> IsFull(g)
    ensures r.Some? ==> r.value.row < 3 && r.value.col < 3 && g[Index(r.value)] == Empty
  {
    var cells := EmptyCells(g);
    EmptyCellsSpec(g);
    if |cells| == 0 then None
    else
      assert cells[pick % |cells|] in cells;
      Some(SquareAt(cells[pick % |cells|]))
  }

  /** Every empty cell is the Easy move for some pick below the number of empty cells. */
  lemma RandomMoveReachesEvery(g: Grid, c: nat)
    requires c < 9 && g[c] == Empty
    ensures exists pick: nat | pick < CountEmpty(g) :: RandomMove(g, pick) == Some(SquareAt(c))
  {
    EmptyCellsSpec(g);
    var cells := EmptyCells(g);
    var pick :| 0 <= pick < |cells| && cells[pick] == c;
    RandomMoveAt(g, pick);
  }

  /** Distinct picks below the number of empty cells give distinct moves: the choice is uniform. */
  lemma RandomMoveDistinct(g: Grid, p: nat, q: nat)
    requires p < q < CountEmpty(g)
    ensures RandomMove(g, p) != RandomMove(g, q)
  {
    EmptyCellsSpec(g);
    RandomMoveAt(g, p);
    RandomMoveAt(g, q);
    var cells := EmptyCells(g);
    assert cells[p] < cells[q];
    SquareAtInjective(cells[p], cells[q]);
  }

  lemma RandomMoveAt(g: Grid, pick: nat)
    requires pick < |EmptyCells(g)|
    ensures EmptyCells(g)[pick] < 9
    ensures RandomMove(g, pick) == Some(SquareAt(EmptyCells(g)[pick]))
  {
    var cells := EmptyCells(g);
    EmptyCellsSpec(g);
    assert cells[pick] in cells;
    ModSmall(pick, |cells|);
  }

  lemma ModSmall(a: nat, n: nat)
    requires a < n
    ensures a % n == a
  {
  }
}
