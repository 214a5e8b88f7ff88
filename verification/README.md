# codsoft internship programs, modelled in Dafny

This project models the logic of five small Python programs from the
`codsoft` repository and proves properties of that logic:

- **Ultimate Tic Tac Toe** (`codesoft/tic_tac_toe_ai.py`). It covers the
  3x3 grid, the winner and full-grid checks, and the turn and score state
  machine of the game object. It also covers the three AI policies: Easy
  (a random empty cell), Medium (minimax 70% of the time) and Hard (an
  alpha-beta `minimax` that marks and unmarks cells of the live grid).
- **CodBot** (`AI/chatbot.py`). It covers the `ContextManager` store, with
  an append-only `memory` list and a conversation history capped at ten
  entries. It also covers `is_question` and the one-slot `pending_action`
  machine that waits for a missing location or search query.
- **Scientific calculator** (`python/calculator.py`). It covers the error
  conditions of `divide`, `modulus`, `percentage` and `scientific`, and the
  history of the last ten results with `last_result`.
- **Contact manager** (`python/contact.py`). It covers the in-memory
  contact list: add, the search filter, update of the first matching store
  name, and delete of the first match the user confirms.
- **Password generator** (`python/passward.py`). It covers the checks and
  the assembly in `generate_password`: one character per selected set,
  the rest from their union, an in-place shuffle and the frame printed
  around the result.

Modules and files:

| file | module | what it holds |
|---|---|---|
| `base.dfy` | `Base` | `Option`, `Max`, `Min` |
| `text.dfy` | `Text` | `str.strip()`, ASCII `str.lower()`, `sub in s` |
| `tictactoe_board.dfy` | `Board` | grid, `check_winner`, `is_draw`, empty-cell list |
| `tictactoe_value.dfy` | `GameValue` | plain minimax (the reference), the row-major scan, loop-invariant steps, the Easy move |
| `tictactoe_search.dfy` | `Search` | the source's alpha-beta `minimax`, on an `array` mutated in place |
| `tictactoe_game.dfy` | `Game` | the game object as a class, each handler proved equal to a pure transition |
| `chatbot.dfy` | `Chatbot` | `ContextManager`, `is_question`, the pending-action handlers |
| `calculator.dfy` | `Calculator` | error conditions, history log, the menu's record-only-numbers rule |
| `contacts.dfy` | `Contacts` | the contact list as a class, with search, update and delete |
| `password.dfy` | `Password` | checks, assembly, in-place shuffle, the frame |

Conventions used in the model:

- Python's `-float('inf')` and `float('inf')` in `minimax` are the
  integers -2 and 2, which lie outside every score.
- Random draws are caller-supplied numbers:
  - `random.choice` and `secrets.choice` take an index reduced modulo the
    list length;
  - `random.random()` is a real compared with 0.7;
  - `SystemRandom().shuffle` takes one draw per position, reduced to
    `0..i` as Python's Fisher-Yates shuffle does.
- The user's typed answers are parameters.

## Model

| member | source | states |
|---|---|---|
| Board.WinnerIffLine | codesoft/tic_tac_toe_ai.py:468-486 | `check_winner(g, p)` holds exactly when one of the three rows, three columns or two diagonals is all `p` |
| Board.FullIffNoEmpty | codesoft/tic_tac_toe_ai.py:488-489 | `is_draw` holds exactly when no cell is empty |
| Board.Fill | codesoft/tic_tac_toe_ai.py:505 | marking an empty cell changes only that cell and uses up exactly one empty cell |
| Board.EmptyCellsSpec | codesoft/tic_tac_toe_ai.py:305 | the empty-cell list of `random_move` holds exactly the empty cells, in strictly increasing row-major order, as many as there are empty cells, and is empty exactly on a full grid |
| GameValue.Value | codesoft/tic_tac_toe_ai.py:491-497 | the unpruned reference value of a grid is always -1, 0 or 1 |
| GameValue.ScanBounds | codesoft/tic_tac_toe_ai.py:499-529 | the row-major scan either has no move and the initial `±inf` score (no empty cell yet), or has an empty cell already scanned and a score in -1..1 |
| GameValue.ScanMonotone | codesoft/tic_tac_toe_ai.py:508-510 | the best score so far never gets worse as the scan moves on |
| GameValue.ScanIsBest | codesoft/tic_tac_toe_ai.py:508-510 | no empty cell already scanned scores strictly better than the scan's score |
| GameValue.ScanIsFirst | codesoft/tic_tac_toe_ai.py:508-510 | the scanned move reaches the scanned score and every empty cell before it scores strictly worse (the strict `>` / `<` keeps the first best) |
| GameValue.BestMoveIsFirstOptimal | codesoft/tic_tac_toe_ai.py:491-529 | `minimax`'s move is `None` exactly on a finished grid; otherwise it is an empty cell reaching the grid's value, no empty cell does better, and every earlier empty cell does strictly worse |
| GameValue.ProgressStart | codesoft/tic_tac_toe_ai.py:499-501 | `best_move = None` and `max_eval = -inf` (`min_eval = inf`) agree with the empty scan |
| GameValue.ProgressPassOccupied | codesoft/tic_tac_toe_ai.py:504 | an occupied cell is skipped by the search and by the scan alike |
| GameValue.ProgressExplore | codesoft/tic_tac_toe_ai.py:505-511 | after one trial, the updated `max_eval`, `best_move` and `alpha` (or `min_eval`, `best_move`, `beta`) agree with the scan one cell further, up to the window |
| GameValue.ProgressSkip | codesoft/tic_tac_toe_ai.py:512-513 | once `beta <= alpha`, skipping the rest of a row keeps the loop variables right for the cells not looked at |
| GameValue.ProgressStep | codesoft/tic_tac_toe_ai.py:505-513 | one trial followed by the `break` test leaves the loop variables right for the cell where the search resumes |
| GameValue.ProgressFinish | codesoft/tic_tac_toe_ai.py:514 | at the end of both loops the result is a score in -1..1 and an empty cell, agrees with the reference value inside a non-empty window, and equals the reference value and move for the infinite window |
| GameValue.RandomMove | codesoft/tic_tac_toe_ai.py:304-306 | the Easy move is `None` exactly on a full grid, and otherwise an empty cell |
| GameValue.RandomMoveReachesEvery | codesoft/tic_tac_toe_ai.py:304-306 | every empty cell is chosen by some draw |
| GameValue.RandomMoveDistinct | codesoft/tic_tac_toe_ai.py:304-306 | distinct draws below the number of empty cells choose distinct cells |
| Search.Minimax | codesoft/tic_tac_toe_ai.py:491-529 | the grid is restored; the score is in -1..1; a finished grid gives 1, -1 or 0 with no move; otherwise the move is an empty cell; inside a non-empty window the score agrees with plain minimax; with the infinite window score and move equal plain minimax's |
| Search.SearchMax | codesoft/tic_tac_toe_ai.py:500-514 | the `is_max` branch restores the grid and ends in agreement with the full row-major scan |
| Search.SearchRowMax | codesoft/tic_tac_toe_ai.py:503-513 | one row of the `is_max` branch, whose `break` leaves only this row, moves the scan to the row's end |
| Search.SearchMin | codesoft/tic_tac_toe_ai.py:515-529 | the other branch restores the grid and ends in agreement with the full scan |
| Search.SearchRowMin | codesoft/tic_tac_toe_ai.py:518-528 | one row of the other branch moves the scan to the row's end |
| Search.ExploreMax | codesoft/tic_tac_toe_ai.py:505-513 | one empty cell of the `is_max` branch restores the grid and moves the scan one cell on, or to the row's end after a cutoff |
| Search.ExploreMin | codesoft/tic_tac_toe_ai.py:520-528 | the same for the other branch |
| Search.TryCell | codesoft/tic_tac_toe_ai.py:505-507 | mark, search, reset: the grid comes back unchanged and the score agrees with the child's value inside a non-empty window |
| Game.InitialConsistent | codesoft/tic_tac_toe_ai.py:36-47 | a new game is consistent: different symbols, the grid is the replay of the (empty) history |
| Game.PlayedConsistent | codesoft/tic_tac_toe_ai.py:315-317 | `play_move` on an empty cell marks that cell only, logs the move and keeps the state consistent |
| Game.ScoreSpec | codesoft/tic_tac_toe_ai.py:368-380 | the game ends exactly on a line or a full grid; the line test comes first; exactly one counter rises on an end, none otherwise |
| Game.CheckGameEndSpec | codesoft/tic_tac_toe_ai.py:368-380 | `check_game_end(p)` reports an end exactly when `p` has a line or the grid is full, credits a line to `p`'s side, counts a draw only without a line, and changes only the scores |
| Game.HumanMoveSpec | codesoft/tic_tac_toe_ai.py:277-286 | `human_move` changes nothing unless no animation runs, the cell is empty and it is the player's turn; then only that cell is marked, the move is logged, the game is scored, and the turn passes to the AI unless the game ended |
| Game.PlayerWinKeepsTurn | codesoft/tic_tac_toe_ai.py:282-284 | after a winning player move the turn stays with the player, so only the disabled buttons stop another move |
| Game.AiChoice | codesoft/tic_tac_toe_ai.py:288-313 | the Easy, Medium and Hard moves are empty cells; Easy gives none only on a full grid, Hard only on a finished grid |
| Game.AiMoveSpec | codesoft/tic_tac_toe_ai.py:288-302 | playing the chosen move keeps the state consistent, marks that cell only and logs one AI move; an AI line credits `scores['AI']`, a full grid without one credits `Draws`; the turn goes to the player unless the game ended, and the animation gate is set |
| Game.AiMoveConsistent | codesoft/tic_tac_toe_ai.py:288-313 | whatever the difficulty and the draws, `ai_move` keeps the state consistent |
| Game.AiMoveIgnoresTurn | codesoft/tic_tac_toe_ai.py:288-302 | `ai_move` plays even during the player's turn |
| Game.ResetSpec | codesoft/tic_tac_toe_ai.py:181-192 | without an animation, `reset_game` empties all nine cells and the history and gives the turn to the player; scores, name, symbols and difficulty stay; during an animation nothing changes |
| Game.SettingsSpec | codesoft/tic_tac_toe_ai.py:261-272 | `apply_settings` takes the stripped name, or `Player` when it strips to nothing, and the new symbols, even when the reset returns early; the state stays consistent and the scores stay |
| Game.TicTacToe.constructor | codesoft/tic_tac_toe_ai.py:36-47 | the fields start as a new game |
| Game.TicTacToe.PlayMove | codesoft/tic_tac_toe_ai.py:315-317 | the new fields are `Played` of the old ones |
| Game.TicTacToe.CheckGameEnd | codesoft/tic_tac_toe_ai.py:368-380 | result and new fields are `Ended` of the old ones |
| Game.TicTacToe.HumanMove | codesoft/tic_tac_toe_ai.py:277-286 | the new fields are `AfterHuman` of the old ones, and `ai_move` is scheduled exactly when the move was played and did not end the game |
| Game.TicTacToe.MediumMove | codesoft/tic_tac_toe_ai.py:308-313 | the move is the Medium choice and the grid is restored |
| Game.TicTacToe.AiMove | codesoft/tic_tac_toe_ai.py:288-302 | the new fields are `AfterAi` of the old ones and the move the difficulty picks |
| Game.TicTacToe.Reset | codesoft/tic_tac_toe_ai.py:181-192 | the new fields are `AfterReset` of the old ones; the AI is scheduled exactly when no animation runs and the player has O |
| Game.TicTacToe.ApplySettings | codesoft/tic_tac_toe_ai.py:261-272 | the new fields are `AfterSettings` of the old ones, and the closing reset schedules `ai_move` exactly when no animation runs and the player chose O |
| Game.TicTacToe.ChangeDifficulty | codesoft/tic_tac_toe_ai.py:274-275 | only the difficulty changes |
| Game.TicTacToe.FinishAnimation | codesoft/tic_tac_toe_ai.py:341 | only the animation gate is cleared |
| Text.StripBounds | AI/chatbot.py:366 | `strip()` is the slice between a whitespace prefix and a whitespace suffix, and starts and ends with a non-space character |
| Text.StripAllSpace | AI/chatbot.py:366 | stripping gives the empty string exactly when every character is whitespace |
| Text.Lower | python/contact.py:90 | `lower()` keeps the length, leaves no upper-case letter, keeps every other character and moves each capital 32 code points up to its lower-case letter |
| Text.LowerIdempotent | python/contact.py:90 | lower-casing an already lower-cased string changes nothing |
| Chatbot.ContextManager.constructor | AI/chatbot.py:147-154 | `name`, `location` and `last_action` are None; `memory` and `conversation_history` are empty |
| Chatbot.ContextManager.Update | AI/chatbot.py:156-163 | `memory` gets `value` appended; `conversation_history` becomes the last ten of old plus `value`; any other key is set; no other key changes; at most ten history entries |
| Chatbot.KeepLastAppend | AI/chatbot.py:160-161 | the capped history ends with the new value, has at most ten entries, and keeps the order of those it retains |
| Chatbot.QuestionHasMark | AI/chatbot.py:365-366 | a question has a `?` followed only by whitespace |
| Chatbot.MarkMakesQuestion | AI/chatbot.py:365-366 | a `?` followed only by whitespace makes a question |
| Chatbot.CancelIgnoresCase | AI/chatbot.py:350-363 | the reply is the cancellation exactly when the text lower-cases to `cancel` or `nevermind`; any other text gets the weather or search report for a pending weather or search, and no reply when nothing was pending |
| Chatbot.ChatWindow.HandleWeatherSearch | AI/chatbot.py:322-334 | a missing location sets the pending action to weather and asks for one; otherwise the report is given and the slot is untouched |
| Chatbot.ChatWindow.HandleSearch | AI/chatbot.py:336-348 | a missing query sets the pending action to search and asks for one |
| Chatbot.ChatWindow.HandlePendingAction | AI/chatbot.py:350-363 | the slot is always emptied; cancel words in any case cancel; otherwise the pending request is answered |
| Calculator.QuotientFails | python/calculator.py:34-43 | dividing step by step fails exactly when a zero divisor occurs, with the division message |
| Calculator.QuotientIsProduct | python/calculator.py:36-40 | without zero divisors the result is the first number divided by the product of the others |
| Calculator.Divide | python/calculator.py:34-43 | the loop computes the step-by-step quotient; it fails exactly when a number after the first is zero; a zero first number is allowed |
| Calculator.FloorModRange | python/calculator.py:47-49 | Python's float `%` lies between 0 and the divisor, with the divisor's sign |
| Calculator.Modulus | python/calculator.py:47-51 | the modulus error happens exactly when `b == 0` |
| Calculator.Percentage | python/calculator.py:55-59 | the division error happens exactly when `b == 0`; otherwise the result times `b` is `100 * a` |
| Calculator.ParseOpName | python/calculator.py:258-261 | every operation name is read back as its own operation |
| Calculator.ScientificFails | python/calculator.py:63-89 | `log` fails exactly for values <= 0, `sqrt` exactly for values < 0, `fact` exactly for negative or non-whole values, each with its message; `sin`, `cos`, `tan` and `exp` never fail on the reals |
| Calculator.FactorialOfWhole | python/calculator.py:84-85 | a whole, non-negative value gives its factorial |
| Calculator.RecordedSpec | python/calculator.py:159-164 | the history keeps at most ten entries, the new one last; the oldest is dropped only when ten were there, and the rest keep their order |
| Calculator.Calculator.RecordHistory | python/calculator.py:159-164 | `last_result` becomes the result and the history is the recorded one |
| Calculator.Calculator.ClearHistory | python/calculator.py:201-205 | the history is emptied and `last_result` reset to None |
| Calculator.Calculator.Perform | python/calculator.py:229-268 | the result is that of the operation; only a number is recorded, and an error leaves history and `last_result` unchanged |
| Contacts.ContactBook.Add | python/contact.py:59-70 | one record is appended at the end; the others are unchanged |
| Contacts.FoundMembers | python/contact.py:90-92 | a contact is found exactly when it is listed and its lower-cased name or its phone contains the keyword |
| Contacts.FoundAppend | python/contact.py:92 | the filter keeps list order: filtering a concatenation is concatenating the filtered parts |
| Contacts.FoundEverything | python/contact.py:90-92 | an empty keyword finds every contact |
| Contacts.SearchSpec | python/contact.py:90-92 | `search_contact` finds exactly the listed contacts whose lower-cased name or phone contains the lower-cased keyword, and a keyword finds the same contacts as its lower-cased form |
| Contacts.MatchesSpec | python/contact.py:105-106 | the matching indices are exactly those whose lower-cased name equals the key, in increasing order |
| Contacts.UpdateTargetSpec | python/contact.py:104-106 | the contact updated is the first match, and none is updated only when nothing matches |
| Contacts.EditedProperties | python/contact.py:108-111 | all-blank answers change nothing, and repeating the same answers changes nothing more |
| Contacts.ContactBook.Update | python/contact.py:103-116 | only the first matching contact takes the answers; with no match the list is unchanged |
| Contacts.FirstYes | python/contact.py:126-127 | the first confirming answer: it confirms and every earlier one declines; none only when all decline |
| Contacts.DeleteTargetSpec | python/contact.py:122-133 | the contact removed is a match the user confirmed, all earlier matches were declined, and nothing is removed when no match is confirmed |
| Contacts.RemoveAt | python/contact.py:129 | `pop(i)` removes one element and keeps the order of the rest |
| Contacts.ContactBook.Delete | python/contact.py:122-133 | the list loses exactly the delete target; with no confirmed match it is unchanged |
| Password.Selected | python/passward.py:63-70 | a level selects nothing exactly when it is not 1, 2 or 3; otherwise it selects level + 1 different sets, starting with lower and upper case |
| Password.SelectedNested | python/passward.py:63-67 | a higher level keeps every set of a lower one, in order, and adds more |
| Password.SelectionByLevel | python/passward.py:63-67 | digits are selected exactly at levels 2 and 3, punctuation exactly at level 3 |
| Password.AlphabetSpec | python/passward.py:76 | `all_chars` holds the characters of every selected set and nothing else |
| Password.AssembledSpec | python/passward.py:78-82 | position `k` below the number of sets holds a character of set `k`; every position holds a character of `all_chars` |
| Password.ShufflePermutes | python/passward.py:83 | the shuffle is a permutation |
| Password.ShuffleInPlace | python/passward.py:83 | the array after the in-place shuffle is the shuffle of the array before |
| Password.BoxLayout | python/passward.py:94-98 | the top border is `len(password) + 4` bars between its corners, the password sits on the middle line, and the bottom border matches |
| Password.ProducedSpec | python/passward.py:74-83 | the password has exactly `length` characters, is a rearrangement of the assembled list, contains a character of every selected set and only characters of `all_chars` |
| Password.Generate | python/passward.py:52-100 | a length below 4 is refused first, then a level outside 1..3; otherwise the result is the shuffled password in its frame |
| Password.Run | python/passward.py:116-118 | a length outside 4..64 is refused before anything is generated; otherwise the password has the requested length |

## Left out

- All GUI and terminal presentation is left out: tkinter widgets, colours, fonts, message windows, the history window, `colorama` codes, spinners, banners and `animate_text`. So are sounds and beeps, `input()` prompts and `print`.
- Timers (`root.after`) are left out. The grow animation is only its boolean gate, set by `play_move` and cleared by `Game.TicTacToe.FinishAnimation`. Scheduling `ai_move` is reported as a flag: `aiStarts` from `Reset` and `ApplySettings`, `aiScheduled` from `HumanMove`.
- Randomness sources are parameters (see above). Nothing about their distribution is modelled beyond the uniformity of the Easy choice over its draws.
- `update_status`, `update_scores` and `highlight_winning_line` only redraw the window and are left out.
- `disable_board` and `show_result` are left out. Once a game ends, `disable_board` disables all nine buttons, and that is the only thing that stops more human moves. `show_result` opens a modal result window whose "Play Again" button calls `reset_game`, which enables the buttons again. The model keeps neither the button gate nor that window. So `AfterHuman` still accepts a move after a player's win, as `Game.PlayerWinKeepsTurn` shows, and a new game starts only through `Game.TicTacToe.Reset`.
- `apply_settings` also sets the global sound switch, which belongs to the sound code and is left out.
- `Text.Lower`: lower-cases ASCII letters only, while Python's `str.lower()` covers all of Unicode.
- `match_rule`, the `RULES` responses and `process_input` of the chatbot are left out. They depend on Python regular expressions and `difflib` matching. The handlers receive the regular expression groups (`extras`) as a parameter.
- `AI/image_caption.py` (model inference, drawing, threads) is not part of this model.
- The calculator works on exact reals rather than floats: no rounding, infinities or NaN, so `tan` never gives its `Undefined` error.
- The values of `sin`, `cos`, `tan`, `log10`, `sqrt` and `exp` come from the math library and are a parameter (`library`). `add`, `subtract`, `multiply` and the parsing of numbers (including `ans`) are left out.
- `Calculator.ScientificFails`: does not model the `OverflowError` that `math.exp` raises for values above about 709.78, because the model computes on exact reals. No handler catches that error, so the program stops.
- `Calculator.FactorialOfWhole`: does not model the `OverflowError` that `math.factorial(int(value))` raises for whole values above 2**63-1, because the model's integers are unbounded. No handler catches that error, so the program stops.
- `Calculator.Divide`: requires a non-empty list. On an empty list the source raises an `IndexError` that no handler catches, and the program stops.
- `Calculator.Calculator.Perform`: requires a non-empty list for a division request, for the same reason. The source passes an empty list straight to `divide`, whose uncaught `IndexError` stops the program.
- Loading and saving the contacts as JSON are left out; the list is passed to the constructor.
- The password generator's colour prefixes (`Fore.RED` on its error texts, and the colours of the success box) are left out, as are all `colorama` codes (see the first line of this section). `main`'s parsing of the two numbers with `int()` is left out: the numbers are parameters.
