/**
 * The game object of the tic-tac-toe program: the grid, whose turn it is,
 * the scores, the move history, the difficulty, the two symbols and the
 * animation gate, with the event handlers that update them in place.
 *
 * Every handler is tied to a pure transition on a snapshot of the fields
 * (`GameState`); the properties of the game are proved about those
 * transitions.
 */
module Game {
  import opened Base
  import opened Board
  import opened GameValue
  import opened Search
  import opened Text

  datatype Difficulty = Easy | Medium | Hard

  /** A `history` entry `(player, i, j)`. */
  datatype Move = Move(mark: Mark, row: nat, col: nat)

  /** `scores['Player']`, `scores['AI']` and `scores['Draws']`. */
  datatype Scores = Scores(player: nat, ai: nat, draws: nat)

  function Total(s: Scores): nat
  {
    s.player + s.ai + s.draws
  }

  /** The fields of the game object that the handlers read and write. */
  datatype GameState = GameState(grid: Grid, current: Mark, name: string,
                                 playerSymbol: Mark, aiSymbol: Mark, scores: Scores,
                                 history: seq<Move>, difficulty: Difficulty, animating: bool)

  predicate InRange(h: seq<Move>)
  {
    forall e | e in h :: e.row < 3 && e.col < 3
  }

  /** The grid reached by playing the moves of `h` in order on an empty grid. */
  function Replay(h: seq<Move>): Grid
    requires InRange(h)
  {
    if h == [] then EmptyGrid
    else
      var e := h[|h| - 1];
      assert e in h;
      Replay(h[..|h| - 1])[Index(Square(e.row, e.col)) := Marked(e.mark)]
  }

  /**
   * What every reachable state satisfies: the two symbols differ, the
   * grid is the replay of the history, and no move was played on an
   * occupied cell (each move used up one empty cell).
   */
  predicate Consistent(st: GameState)
  {
    && st.aiSymbol == Other(st.playerSymbol)
    && InRange(st.history)
    && st.grid == Replay(st.history)
    && |st.history| + CountEmpty(st.grid) == 9
  }

  /** The state of a new game: `__init__`. */
  const Initial: GameState :=
    GameState(EmptyGrid, X, "Player", X, O, Scores(0, 0, 0), [], Hard, false)

  lemma InitialConsistent()
    ensures Consistent(Initial)
  {
    assert multiset(EmptyGrid)[Empty] == 9;
  }

  /** `play_move(i, j, m)`: mark the cell, log the move, start the animation. */
  function Played(st: GameState, i: nat, j: nat, m: Mark): GameState
    requires i < 3 && j < 3
  {
    st.(grid := st.grid[3 * i + j := Marked(m)], history := st.history + [Move(m, i, j)], animating := true)
  }

  /** Logging a move and marking its cell keeps the grid the replay of the history. */
  lemma PlayedReplay(h: seq<Move>, g: Grid, i: nat, j: nat, m: Mark)
    requires InRange(h) && g == Replay(h) && i < 3 && j < 3
    ensures InRange(h + [Move(m, i, j)])
    ensures Replay(h + [Move(m, i, j)]) == g[3 * i + j := Marked(m)]
  {
    var h' := h + [Move(m, i, j)];
    assert h'[..|h'| - 1] == h;
  }

  /** Marking an empty cell keeps a consistent state consistent. */
  lemma PlayedConsistent(st: GameState, i: nat, j: nat, m: Mark)
    requires Consistent(st) && i < 3 && j < 3 && st.grid[3 * i + j] == Empty
    ensures Consistent(Played(st, i, j, m))
    ensures Played(st, i, j, m).grid == Fill(st.grid, 3 * i + j, m)
  {
    PlayedReplay(st.history, st.grid, i, j, m);
    var g' := Fill(st.grid, 3 * i + j, m);
    assert CountEmpty(g') == CountEmpty(st.grid) - 1;
  }

  /**
   * The scoring of `check_game_end` once its two tests are known: `won`
   * (the mover has a line) and `full` (no empty cell).
   */
  function Score(won: bool, full: bool, byPlayer: bool, s: Scores): (bool, Scores)
  {
    if won then
      if byPlayer then (true, s.(player := s.player + 1)) else (true, s.(ai := s.ai + 1))
    else if full then (true, s.(draws := s.draws + 1))
    else (false, s)
  }

  /**
   * The line test comes first, so a full grid with a line is a win; when
   * the game is over exactly one counter rises by one, otherwise none.
   */
  lemma ScoreSpec(won: bool, full: bool, byPlayer: bool, s: Scores)
    ensures var r := Score(won, full, byPlayer, s);
            && (r.0 <==> won || full)
            && r.1.player >= s.player && r.1.ai >= s.ai && r.1.draws >= s.draws
            && Total(r.1) == Total(s) + (if r.0 then 1 else 0)
            && (r.1.player > s.player <==> won && byPlayer)
            && (r.1.ai > s.ai <==> won && !byPlayer)
            && (r.1.draws > s.draws <==> !won && full)
  {
  }

  /** `check_game_end(p)` on a state: only the scores change. */
  function Ended(st: GameState, p: Mark): (bool, GameState)
  {
    var r := Score(CheckWinner(st.grid, p), IsFull(st.grid), p == st.playerSymbol, st.scores);
    (r.0, st.(scores := r.1))
  }

  /**
   * `check_game_end(p)` reports the end of the game exactly when `p` has a
   * line or the grid is full, credits a line to `p`'s side even on a full
   * grid, counts a draw only on a full grid without a line, and changes
   * nothing else.
   */
  lemma CheckGameEndSpec(st: GameState, p: Mark)
    ensures var (ended, r) := Ended(st, p);
            && (ended <==> CheckWinner(st.grid, p) || IsFull(st.grid))
            && Total(r.scores) == Total(st.scores) + (if ended then 1 else 0)
            && (r.scores.player > st.scores.player <==> CheckWinner(st.grid, p) && p == st.playerSymbol)
            && (r.scores.ai > st.scores.ai <==> CheckWinner(st.grid, p) && p != st.playerSymbol)
            && (r.scores.draws > st.scores.draws <==> !CheckWinner(st.grid, p) && IsFull(st.grid))
            && r == st.(scores := r.scores)
  {
    ScoreSpec(CheckWinner(st.grid, p), IsFull(st.grid), p == st.playerSymbol, st.scores);
  }

  /** `human_move(i, j)`. */
  function AfterHuman(st: GameState, i: nat, j: nat): GameState
    requires i < 3 && j < 3
  {
    if st.animating || st.grid[3 * i + j] != Empty || st.current != st.playerSymbol then st
    else
      var (ended, next) := Ended(Played(st, i, j, st.playerSymbol), st.playerSymbol);
      if ended then next else next.(current := st.aiSymbol)
  }

  /**
   * `human_move` acts only on an empty cell during the player's turn with
   * no animation running; it then marks that cell only, logs the move,
   * scores the game, and hands the turn to the AI unless the game ended.
   */
  lemma HumanMoveSpec(st: GameState, i: nat, j: nat)
    requires Consistent(st) && i < 3 && j < 3
    ensures var r := AfterHuman(st, i, j);
            && Consistent(r)
            && (st.animating || st.grid[3 * i + j] != Empty || st.current != st.playerSymbol ==> r == st)
            && (!st.animating && st.grid[3 * i + j] == Empty && st.current == st.playerSymbol ==>
                  var ended := CheckWinner(r.grid, st.playerSymbol) || IsFull(r.grid);
                  && r.grid == Fill(st.grid, 3 * i + j, st.playerSymbol)
                  && r.history == st.history + [Move(st.playerSymbol, i, j)]
                  && r.scores == Score(CheckWinner(r.grid, st.playerSymbol), IsFull(r.grid), true, st.scores).1
                  && r.current == (if ended then st.playerSymbol else st.aiSymbol)
                  && r.animating
                  && r.name == st.name && r.playerSymbol == st.playerSymbol
                  && r.aiSymbol == st.aiSymbol && r.difficulty == st.difficulty)
  {
    if !st.animating && st.grid[3 * i + j] == Empty && st.current == st.playerSymbol {
      PlayedConsistent(st, i, j, st.playerSymbol);
    }
  }

  /**
   * After a winning human move the turn stays with the player, so
   * `human_move` alone would accept another move on an unfinished row of
   * empty cells; only the disabled buttons of the window prevent it.
   */
  lemma PlayerWinKeepsTurn(st: GameState, i: nat, j: nat)
    requires Consistent(st) && i < 3 && j < 3
    requires !st.animating && st.grid[3 * i + j] == Empty && st.current == st.playerSymbol
    requires CheckWinner(AfterHuman(st, i, j).grid, st.playerSymbol)
    ensures AfterHuman(st, i, j).current == st.playerSymbol
    ensures AfterHuman(st, i, j).scores.player == st.scores.player + 1
  {
  }

  /** The share of Medium turns that play the minimax move. */
  const MediumOptimalShare: real := 0.7

  /** The move `ai_move` picks for a difficulty; `draw` stands for `random.random()`. */
  function AiChoice(g: Grid, d: Difficulty, ai: Mark, player: Mark, draw: real, pick: nat): (r: Option<Square>)
    ensures r.Some? ==> r.value.row < 3 && r.value.col < 3 && g[Index(r.value)] == Empty
    ensures d == Easy ==> (r.None? <==> IsFull(g))
    ensures d == Hard ==> (r.None? <==> Terminal(g, ai, player).Some?)
  {
    BestMoveIsFirstOptimal(g, true, ai, player);
    match d
    case Easy => RandomMove(g, pick)
    case Medium => if draw < MediumOptimalShare then BestMove(g, true, ai, player) else RandomMove(g, pick)
    case Hard => BestMove(g, true, ai, player)
  }

  /**
   * `ai_move` once its move is chosen; it does not look at whose turn it
   * is. `None` (a full grid) plays nothing.
   */
  function AfterAi(st: GameState, move: Option<Square>): GameState
    requires move.Some? ==> move.value.row < 3 && move.value.col < 3
  {
    if st.animating then st
    else
      match move
      case None => st
      case Some(sq) =>
        var (ended, next) := Ended(Played(st, sq.row, sq.col, st.aiSymbol), st.aiSymbol);
        if ended then next else next.(current := st.playerSymbol)
  }

  /**
   * Playing a move on an empty cell keeps a consistent state consistent;
   * when it plays, one move of the AI is logged, the game is scored and
   * the turn goes to the player unless the game ended.
   */
  lemma AiMoveSpec(st: GameState, move: Option<Square>)
    requires Consistent(st)
    requires move.Some? ==> move.value.row < 3 && move.value.col < 3 && st.grid[Index(move.value)] == Empty
    ensures var r := AfterAi(st, move);
            && Consistent(r)
            && r.name == st.name && r.playerSymbol == st.playerSymbol
            && r.aiSymbol == st.aiSymbol && r.difficulty == st.difficulty
            && (st.animating || move.None? ==> r == st)
            && (!st.animating && move.Some? ==>
                  var ended := CheckWinner(r.grid, st.aiSymbol) || IsFull(r.grid);
                  && r.grid == Fill(st.grid, Index(move.value), st.aiSymbol)
                  && r.history == st.history + [Move(st.aiSymbol, move.value.row, move.value.col)]
                  && Total(r.scores) == Total(st.scores) + (if ended then 1 else 0)
                  && r.scores == Score(CheckWinner(r.grid, st.aiSymbol), IsFull(r.grid), false, st.scores).1
                  && r.current == (if ended then st.current else st.playerSymbol)
                  && r.animating)
  {
    if !st.animating && move.Some? {
      var sq := move.value;
      PlayedConsistent(st, sq.row, sq.col, st.aiSymbol);
      var played := Played(st, sq.row, sq.col, st.aiSymbol);
      ScoreSpec(CheckWinner(played.grid, st.aiSymbol), IsFull(played.grid), st.aiSymbol == st.playerSymbol, st.scores);
    }
  }

  /**
   * Whatever the difficulty and the random draws, the move `ai_move`
   * plays is on an empty cell, so the state stays consistent.
   */
  lemma AiMoveConsistent(st: GameState, draw: real, pick: nat)
    requires Consistent(st)
    ensures Consistent(AfterAi(st, AiChoice(st.grid, st.difficulty, st.aiSymbol, st.playerSymbol, draw, pick)))
  {
    AiMoveSpec(st, AiChoice(st.grid, st.difficulty, st.aiSymbol, st.playerSymbol, draw, pick));
  }

  /**
   * `ai_move` plays even when the turn is the player's: on a grid with an
   * empty cell and no animation, the Easy AI always moves.
   */
  lemma AiMoveIgnoresTurn(st: GameState, draw: real, pick: nat)
    requires Consistent(st) && !st.animating && st.difficulty == Easy && !IsFull(st.grid)
    requires st.current == st.playerSymbol
    ensures var r := AfterAi(st, AiChoice(st.grid, st.difficulty, st.aiSymbol, st.playerSymbol, draw, pick));
            |r.history| == |st.history| + 1 && r.history[|st.history|].mark == st.aiSymbol
  {
    AiMoveSpec(st, AiChoice(st.grid, st.difficulty, st.aiSymbol, st.playerSymbol, draw, pick));
  }

  /** `reset_game`: nothing happens while an animation runs. */
  function AfterReset(st: GameState): GameState
  {
    if st.animating then st else st.(grid := EmptyGrid, current := st.playerSymbol, history := [])
  }

  /**
   * Unless an animation is running, `reset_game` empties the grid and the
   * history and gives the turn to the player; scores, names, symbols and
   * difficulty are never touched.
   */
  lemma ResetSpec(st: GameState)
    requires Consistent(st)
    ensures var r := AfterReset(st);
            && Consistent(r)
            && r.scores == st.scores && r.difficulty == st.difficulty && r.name == st.name
            && r.playerSymbol == st.playerSymbol && r.aiSymbol == st.aiSymbol
            && (!st.animating ==>
                  && IsFull(r.grid) == false
                  && (forall k | 0 <= k < 9 :: r.grid[k] == Empty)
                  && r.history == [] && r.current == st.playerSymbol)
            && (st.animating ==> r == st)
  {
    if !st.animating {
      InitialConsistent();
      EmptyGridCells();
    }
  }

  /** `apply_settings`: the name (blank means "Player") and symbols change, then `reset_game`. */
  function AfterSettings(st: GameState, name: string, symbol: Mark): GameState
  {
    var n := Strip(name);
    AfterReset(st.(name := if n == [] then "Player" else n, playerSymbol := symbol, aiSymbol := Other(symbol)))
  }

  /**
   * The new symbols are taken even when `reset_game` returns early because
   * an animation runs; the grid then keeps its marks while the symbols
   * have changed, and the state stays consistent.
   */
  lemma SettingsSpec(st: GameState, name: string, symbol: Mark)
    requires Consistent(st)
    ensures var r := AfterSettings(st, name, symbol);
            && Consistent(r)
            && r.playerSymbol == symbol && r.aiSymbol != symbol
            && r.name == (if Strip(name) == [] then "Player" else Strip(name))
            && r.scores == st.scores
            && (st.animating ==> r.grid == st.grid && r.history == st.history && r.current == st.current)
  {
    ResetSpec(st.(name := if Strip(name) == [] then "Player" else Strip(name),
                  playerSymbol := symbol, aiSymbol := Other(symbol)));
  }

  /** The game object; `Valid` says its fields form a consistent state. */
  class TicTacToe {
    var board: array<Cell>
    var currentPlayer: Mark
    var playerName: string
    var playerSymbol: Mark
    var aiSymbol: Mark
    var scores: Scores
    var history: seq<Move>
    var difficulty: Difficulty
    var animating: bool

    function State(): GameState
      reads this, board
      requires board.Length == 9
    {
      GameState(board[..], currentPlayer, playerName, playerSymbol, aiSymbol,
                scores, history, difficulty, animating)
    }

    /** The grid has nine cells; what the fields satisfy beyond that is `Consistent(State())`. */
    ghost predicate Valid()
      reads this, board
    {
      board.Length == 9
    }

    constructor ()
      ensures Valid() && fresh(board)
      ensures State() == Initial
    {
      board := new Cell[9](_ => Empty);
      currentPlayer := X;
      playerName := "Player";
      playerSymbol := X;
      aiSymbol := O;
      scores := Scores(0, 0, 0);
      history := [];
      difficulty := Hard;
      animating := false;
      new;
      assert board[..] == EmptyGrid;
      InitialConsistent();
    }

    method PlayMove(i: nat, j: nat, m: Mark)
      requires Valid() && i < 3 && j < 3
      modifies this, board
      ensures Valid() && board == old(board)
      ensures State() == Played(old(State()), i, j, m)
    {
      board[3 * i + j] := Marked(m);
      history := history + [Move(m, i, j)];
      animating := true;
    }

    method CheckGameEnd(p: Mark) returns (ended: bool)
      requires Valid()
      modifies this
      ensures Valid() && board == old(board)
      ensures (ended, State()) == Ended(old(State()), p)
    {
      if CheckWinner(board[..], p) {
        if p == playerSymbol {
          scores := scores.(player := scores.player + 1);
        } else {
          scores := scores.(ai := scores.ai + 1);
        }
        return true;
      } else if IsFull(board[..]) {
        scores := scores.(draws := scores.draws + 1);
        return true;
      }
      return false;
    }

    /**
     * `human_move(i, j)`; `aiScheduled` says whether it schedules
     * `ai_move`, which it does exactly when the move was played and did
     * not end the game.
     */
    method HumanMove(i: nat, j: nat) returns (aiScheduled: bool)
      requires Valid() && i < 3 && j < 3
      modifies this, board
      ensures Valid() && board == old(board)
      ensures State() == AfterHuman(old(State()), i, j)
      ensures aiScheduled <==>
                && !old(animating) && old(board[3 * i + j]) == Empty && old(currentPlayer) == old(playerSymbol)
                && !CheckWinner(board[..], playerSymbol) && !IsFull(board[..])
    {
      if animating {
        return false;
      }
      aiScheduled := false;
      if board[3 * i + j] == Empty && currentPlayer == playerSymbol {
        PlayMove(i, j, playerSymbol);
        var ended := CheckGameEnd(playerSymbol);
        if !ended {
          currentPlayer := aiSymbol;
          aiScheduled := true;
        }
      }
    }

    method MediumMove(draw: real, pick: nat) returns (move: Option<Square>)
      requires Valid()
      modifies board
      ensures board[..] == old(board[..])
      ensures move == AiChoice(board[..], Medium, aiSymbol, playerSymbol, draw, pick)
    {
      if draw < MediumOptimalShare {
        var score;
        score, move := Minimax(board, true, MinusInfinity, PlusInfinity, aiSymbol, playerSymbol);
      } else {
        move := RandomMove(board[..], pick);
      }
    }

    method AiMove(draw: real, pick: nat)
      requires Valid()
      modifies this, board
      ensures Valid() && board == old(board)
      ensures State() == AfterAi(old(State()), AiChoice(old(board[..]), old(difficulty), old(aiSymbol), old(playerSymbol), draw, pick))
    {
      if animating {
        return;
      }
      ghost var st := State();
      var move: Option<Square>;
      match difficulty {
        case Easy =>
          move := RandomMove(board[..], pick);
        case Medium =>
          move := MediumMove(draw, pick);
        case Hard =>
          var score;
          score, move := Minimax(board, true, MinusInfinity, PlusInfinity, aiSymbol, playerSymbol);
      }
      assert move == AiChoice(st.grid, st.difficulty, aiSymbol, playerSymbol, draw, pick);
      if move.Some? {
        PlayMove(move.value.row, move.value.col, aiSymbol);
        var ended := CheckGameEnd(aiSymbol);
        if !ended {
          currentPlayer := playerSymbol;
        }
      }
    }

    /** `reset_game`; `aiStarts` says whether it schedules `ai_move` (the AI plays X). */
    method Reset() returns (aiStarts: bool)
      requires Valid()
      modifies this
      ensures Valid()
      ensures State() == AfterReset(old(State()))
      ensures aiStarts <==> !old(animating) && playerSymbol == O
    {
      if animating {
        return false;
      }
      board := new Cell[9](_ => Empty);
      currentPlayer := playerSymbol;
      history := [];
      assert board[..] == EmptyGrid;
      InitialConsistent();
      aiStarts := playerSymbol == O;
    }

    method ApplySettings(name: string, symbol: Mark) returns (aiStarts: bool)
      requires Valid()
      modifies this
      ensures Valid()
      ensures State() == AfterSettings(old(State()), name, symbol)
      ensures aiStarts <==> !old(animating) && symbol == O
    {
      var n := Strip(name);
      playerName := if n == [] then "Player" else n;
      playerSymbol := symbol;
      aiSymbol := if symbol == X then O else X;
      aiStarts := Reset();
    }

    method ChangeDifficulty(d: Difficulty)
      requires Valid()
      modifies this
      ensures Valid()
      ensures State() == old(State()).(difficulty := d)
    {
      difficulty := d;
    }

    /** The last step of the grow animation clears the gate. */
    method FinishAnimation()
      requires Valid()
      modifies this
      ensures Valid()
      ensures State() == old(State()).(animating := false)
    {
      animating := false;
    }
  }
}
