# Tic-tac-toe, modelled in Dafny

A model of the console tic-tac-toe game in `lib/TicTacToe.rb` and of the
properties its RSpec suite and its design rely on. The game has three classes:

- `Board` keeps the nine cells in `@position`. A free cell holds its own
  number, 1 to 9. A taken cell holds the marker string of the player who
  took it. `fill(slot, player)` reads the slot with `to_i`, then takes the
  cell only if the slot is in range and the cell still holds an Integer.
- `Controller#get_player_data` is the setup dialogue. Player 1 gives a name
  and then gets three tries to choose `X` or `O`, in either case. After three
  bad choices it says goodbye and returns `nil`. Player 2 gets the other
  marker and four tries to give a name that differs from player 1's. After
  four repeats player 2 is called `player 2`.
- `Game` holds the active player. `switch_active_player` passes the turn, and
  `end_condition` answers a win for the active player, "play on" or a draw.
  The `start` loop prompts, fills, tests the end condition and passes the
  turn until it breaks out. It then congratulates the winner or prints `DRAW`.

The model is split into five modules, one per file:

| file | module | contents |
|---|---|---|
| `ruby.dfy` | `Ruby` | `nil`, `Array#[]` past the end, `String#to_i` in base 10, ASCII `String#upcase` |
| `boards.dfy` | `Boards` | the player hash, cells, `Board.new`, `fill`, and the invariant that free cells keep their numbers |
| `controller.dfy` | `Controller` | `get_player_data` as a function from the input lines to the players and the printed lines |
| `game.dfy` | `Game` | seats, `switch_active_player`, `end_condition`, one pass of the loop, and the `start` loop |
| `scenarios.dfy` | `Scenarios` | the RSpec examples restated about the model, and a complete five-move game |

Console input is a parameter: the sequence of lines that `gets.chomp` would
return, in order. Output is a result: the sequence of printed lines, and for
the game loop also the points where `display` shows the board.

Running out of input is an explicit result. In Ruby, `gets` returns `nil`
there and the `chomp` call raises.

Players are compared by object identity (`equal?`) in the source. The model
says which of the two player objects is active with a seat, `P1` or `P2`.

## Model

| member | source | states |
|---|---|---|
| `Ruby.At` | lib/TicTacToe.rb:24 | reading index `i` gives a value exactly when `i` is inside the array, and then the element at `i`; past the end it gives `nil` |
| `Ruby.ToINeedsDigit` | lib/TicTacToe.rb:22 | text with no decimal digit reads as 0 under `to_i` |
| `Ruby.ToIOfNumeral` | lib/TicTacToe.rb:22 | round trip: `to_i` reads back the numeral of any natural number `n` as `n` when the text after it cannot continue the number. That text must not start with a digit or an underscore followed by a digit, and after `0` it must not start with `d` or `D` |
| `Ruby.ToIOfNegativeNumeral` | lib/TicTacToe.rb:22 | under the same condition, a minus sign before the numeral reads as the negated number |
| `Ruby.ToIOfPrefixedNumeral` | lib/TicTacToe.rb:22 | the base-10 prefix `0d` or `0D` before a numeral is skipped, so `"0d5"` reads as 5 |
| `Ruby.ToIOfGroupedNumeral` | lib/TicTacToe.rb:22 | a single underscore between two groups of digits is skipped, so `"5_3"` reads as 53 |
| `Ruby.ToIOfMinus` | lib/TicTacToe.rb:22 | text that starts with a minus sign, after any blanks, never reads as a positive number |
| `Ruby.ToIOfDigit` | lib/TicTacToe.rb:22 | a single digit reads as its value |
| `Ruby.ToISkipsSpace` | lib/TicTacToe.rb:22 | leading whitespace never changes the number `to_i` reads |
| `Ruby.UpcaseToLetter` | lib/TicTacToe.rb:58 | under ASCII case mapping, a string upcases to a single capital letter exactly when it is that letter or its lower-case form; for `X` and `O`, the letters the source tests, Ruby's full Unicode mapping agrees |
| `Boards.Initial` | lib/TicTacToe.rb:2-4 | a new board holds the Integer `i + 1` in cell `i`, for every cell |
| `Boards.Fill` | lib/TicTacToe.rb:21-32 | a slot is accepted exactly when it reads as 1 to 9 and that cell holds an Integer. Then exactly that cell becomes the player's marker and every other cell is kept. A refused slot leaves the board unchanged. The guard's bound of 9 admits no cell 10 |
| `Boards.FillKeepsMarks` | lib/TicTacToe.rb:24-26 | no call of `fill` ever changes a cell that holds a marker |
| `Boards.LargeSlotRejected` | lib/TicTacToe.rb:22-24 | every numeral from 10 up is refused, with the board unchanged. This includes `"10"`, which passes the written index bound |
| `Boards.NegativeSlotRejected` | lib/TicTacToe.rb:22-24 | a slot that starts, after blanks, with a minus sign is refused, with the board unchanged |
| `Boards.ZeroSlotRejected` | lib/TicTacToe.rb:22-24 | slot `0`, followed by text that cannot continue the number, is refused with the board unchanged |
| `Boards.NonNumericRejected` | lib/TicTacToe.rb:22-24 | a slot without any digit is refused, with the board unchanged |
| `Boards.FillFreeCount` | lib/TicTacToe.rb:21-32 | an accepted `fill` lowers the number of Integer cells by exactly one; a refused one leaves it |
| `Boards.FillPreservesWf` | lib/TicTacToe.rb:21-32 | `fill` keeps the invariant that every free cell holds its own number |
| `Boards.ReplayIsWf` | lib/TicTacToe.rb:2-32 | every board reachable from `Board.new` by any sequence of `fill` calls keeps that invariant |
| `Boards.EqualCellsAreMarks` | lib/TicTacToe.rb:120-127 | on a board with that invariant, three distinct cells are `==` exactly when all three hold the same marker |
| `Boards.ReachableEqualCellsAreMarks` | lib/TicTacToe.rb:120-127 | the same holds on every board reachable by `fill` |
| `Game.Switch` | lib/TicTacToe.rb:109-115 | passing the turn always makes the other player active |
| `Game.SwitchTwice` | lib/TicTacToe.rb:109-115 | passing the turn twice gives it back to the same player |
| `Game.AlignedTriples` | lib/TicTacToe.rb:120-127 | every three cells in a row, column or diagonal of the 3x3 grid are one of the eight triples the source lists |
| `Game.HasLineIsSomeLineUniform` | lib/TicTacToe.rb:120-127 | the eight literal comparisons hold exactly when some row, column or diagonal holds one value throughout |
| `Game.EndCondition` | lib/TicTacToe.rb:117-137 | the result is a win exactly when some line is uniform, and the win goes to the active player. With no line it is "play on" exactly when some cell holds an Integer, and a draw exactly when all nine hold markers |
| `Game.WinNeedsMarkers` | lib/TicTacToe.rb:120-129 | on a board that keeps its numbers, a win is reported exactly when some line holds one marker in all three cells |
| `Game.EqualIntegersLineUp` | lib/TicTacToe.rb:120-129 | without that invariant the plain `==` test would report a line of three equal Integers as a win |
| `Game.NewGame` | lib/TicTacToe.rb:95-99 | a new game keeps the two players, makes player 1 active, and starts from a board holding 1 to 9 |
| `Game.NewGameIsOpen` | lib/TicTacToe.rb:2-4 | a new board keeps its numbers, has nine free cells and no line |
| `Game.PlayTurn` | lib/TicTacToe.rb:141-161 | every pass first shows the board and then asks the active player, by name, for a position. A pass goes round again without a move exactly when `fill` refuses the line. It then prints the notice and the state is unchanged. An accepted move that ends nothing passes the turn, with a free cell left and no line. An accepted move that ends the game keeps the mover active, shows the final board and closes with the announcement. Nothing else is shown: a refused pass shows three events, a quiet move two, and a game-ending pass four |
| `Game.TurnFreeCount` | lib/TicTacToe.rb:141-153 | a pass that takes a cell lowers the free-cell count by one; a refused pass leaves it |
| `Game.Start` | lib/TicTacToe.rb:139-162 | a game that finishes has taken at least one move, ends on a win or a draw, and closes with the matching announcement |
| `Game.StartShowsPassEvents` | lib/TicTacToe.rb:141-162 | before its closing line the loop shows only the board, prompts to one of the two players and the notice for a refused position; a run that runs out of input shows nothing else |
| `Game.AnnouncedOnce` | lib/TicTacToe.rb:156-161 | a finished game prints exactly one announcement, as its last line: no earlier event is any player's congratulations or `DRAW` |
| `Game.StartKeepsMarks` | lib/TicTacToe.rb:139-162 | the loop never changes the players, never removes or replaces a marker, and keeps free cells numbered |
| `Game.StartTakesFreeCells` | lib/TicTacToe.rb:139-162 | the free cells left plus the moves taken equal the free cells at the start, and a draw is declared only on a full board |
| `Game.AtMostNineMoves` | lib/TicTacToe.rb:139-162 | a game from `Game.new` accepts at most nine moves, whatever the input |
| `Game.NewLineHoldsMover` | lib/TicTacToe.rb:150-151 | when one move turns a lineless board into one with a line, that line holds the mover's marker |
| `Game.TurnWinnerOwnsLine` | lib/TicTacToe.rb:145-151 | from a board without a line, a pass that ends in a win leaves a line of the active player's marker |
| `Game.WinnerOwnsLine` | lib/TicTacToe.rb:139-162 | from a board without a line, a run that ends in a win leaves a line of the final active player's marker |
| `Game.FinishedWinIsActive` | lib/TicTacToe.rb:150-157 | the win the loop breaks out with names the player active at the end, so `winner.equal?(@active_player)` holds on every win |
| `Game.PlayWinnerOwnsLine` | lib/TicTacToe.rb:156-161 | from a new game, a won game is credited to the active player, who owns a full line and is congratulated by name and marker |
| `Game.FinalMessage` | lib/TicTacToe.rb:156-161 | a finished game closes with the congratulations exactly when it was won, and with `DRAW` exactly when it was drawn |
| `Controller.MarkerChoices` | lib/TicTacToe.rb:58-64 | a line upcases to `X` exactly when it is `x` or `X`, and to `O` exactly when it is `o` or `O` |
| `Controller.MarkerTries` | lib/TicTacToe.rb:56-68 | the marker loop settles on the upcased first marker choice among its tries and reads up to it. With no choice among them it gives `nil` after all the tries. It runs out only when the input ends before a choice. It asks player 1 for a marker once before each line it reads, and once more before it finds the input ended |
| `Controller.NameTries` | lib/TicTacToe.rb:77-88 | the name loop settles on the first line that differs from player 1's name and reads up to it. If every try repeats the name it gives `nil`. It prints the request for a different name once after each repeat and at no other time |
| `Controller.MarkerTriesFrom` | lib/TicTacToe.rb:56-68 | the marker chosen after player 1's name is the upcased first marker choice among input lines 1 to 3 |
| `Controller.NameTriesFrom` | lib/TicTacToe.rb:77-88 | the name player 2 ends up with is the first of the next four lines that differs from player 1's, or `player 2` when all four repeat it |
| `Controller.GetPlayerData` | lib/TicTacToe.rb:49-91 | on success player 1 is named by the first line and has `X` or `O`, taken from the first marker choice. Player 2 has the other marker and the name the attempts settle on, which differs from player 1's unless player 1 is called `player 2`. A decline ends with `goodbye` |
| `Controller.DeclinedExactly` | lib/TicTacToe.rb:70-73 | the dialogue gives `nil` exactly when none of the three lines after player 1's name is a marker choice |
| `Controller.EndedExactly` | lib/TicTacToe.rb:49-91 | the input runs out exactly when it ends before the dialogue settles. That is: there is no name; or there are fewer than three marker attempts and none is a choice; or there are fewer than four name attempts after the choice and each repeats player 1's name. So whenever the answers are all there, the dialogue gives the two players or `nil` |
| `Scenarios.SlotDigits` | lib/TicTacToe.rb:22 | the one-digit slots used by the examples read as their digit |
| `Scenarios.FillFreeSlot` | spec/TicTacToe_spec.rb:34-55 | slot `"7"` is accepted on a new board, and slot `"5"` puts the player's marker in cell index 4 |
| `Scenarios.FillPrefixedSlot` | lib/TicTacToe.rb:21-26 | slot `"0d5"` reads as 5 and takes cell 5 on a new board |
| `Scenarios.FillText` | spec/TicTacToe_spec.rb:38-40 | the slot `"invalid data"` is refused and the board is unchanged |
| `Scenarios.FillTakenSlot` | spec/TicTacToe_spec.rb:57-66 | a second player filling an already taken slot is refused and the board is unchanged |
| `Scenarios.FullBoardDraw` | spec/TicTacToe_spec.rb:289-292 | a full board without a line is a draw |
| `Scenarios.FullBoardWin` | spec/TicTacToe_spec.rb:294-300 | a full board whose right column holds `X` throughout is a win for the active player, not a draw |
| `Scenarios.OpenBoardNotOver` | spec/TicTacToe_spec.rb:302-305 | a board with one Integer cell and no line plays on |
| `Scenarios.ColumnAndDiagonalWin` | spec/TicTacToe_spec.rb:307-354 | a left column of `X` or a rising diagonal of `O` is a win for the active player |
| `Scenarios.DialogueAnswered` | spec/TicTacToe_spec.rb:111-115 | the answers `Carlos`, `X`, `Jonathan` build Carlos with `X` and Jonathan with `O` |
| `Scenarios.DialogueDeclined` | spec/TicTacToe_spec.rb:118-122 | three `Z` answers end in a decline that prints `goodbye` |
| `Scenarios.DialogueRetriesName` | spec/TicTacToe_spec.rb:125-135 | repeating player 1's name prints the request for a different name, and a later different name is kept |
| `Scenarios.DialogueDefaultName` | spec/TicTacToe_spec.rb:137-141 | after four repeats player 2 is named `player 2` |
| `Scenarios.QuietMove` | spec/TicTacToe_spec.rb:265-270 | a move onto a free cell that makes no line and leaves a free cell passes the turn with that cell taken |
| `Scenarios.WinningMove` | spec/TicTacToe_spec.rb:277-281 | a move onto a free cell that makes a line ends the pass with a win for the mover, who is congratulated |
| `Scenarios.RefusedLineRetried` | spec/TicTacToe_spec.rb:253-263 | a refused line shows the board, the prompt and the notice, and the rest of the run is the run of the same player on the same board: same ending, last state, moves, result and output after the notice |
| `Scenarios.DrawRun` | spec/TicTacToe_spec.rb:272-275 | a move onto the last free cell that makes no line ends the run in a draw after one move, with `DRAW` printed last |
| `Scenarios.WinningRun` | spec/TicTacToe_spec.rb:277-281 | a winning first move ends the whole run after one move, with the mover congratulated |
| `Scenarios.StartContinues` | lib/TicTacToe.rb:141-154 | a pass that takes a cell and goes round again adds one move in front of the rest of the run, and its output is the board and the prompt followed by the rest's output; the ending, last state and result are the rest's |
| `Scenarios.TopRowBoard1` | lib/TicTacToe.rb:120-137 | move 1 of the top-row game takes a free cell, makes no line and leaves a free cell |
| `Scenarios.TopRowBoard2` | lib/TicTacToe.rb:120-137 | move 2 of the top-row game takes a free cell, makes no line and leaves a free cell |
| `Scenarios.TopRowBoard3` | lib/TicTacToe.rb:120-137 | move 3 of the top-row game takes a free cell, makes no line and leaves a free cell |
| `Scenarios.TopRowBoard4` | lib/TicTacToe.rb:120-137 | move 4 of the top-row game takes a free cell, makes no line and leaves a free cell |
| `Scenarios.TopRowWinningBoard` | lib/TicTacToe.rb:120-137 | move 5 of the top-row game, made by player 1, completes the top row in player 1's marker |
| `Scenarios.TopRowRun4` | lib/TicTacToe.rb:139-162 | from move 5 on, the top-row game ends at once with player 1 winning and congratulated |
| `Scenarios.TopRowRun3` | lib/TicTacToe.rb:139-162 | from move 4 on, the top-row game ends after two moves with player 1 winning |
| `Scenarios.TopRowRun2` | lib/TicTacToe.rb:139-162 | from move 3 on, the top-row game ends after three moves with player 1 winning |
| `Scenarios.TopRowRun1` | lib/TicTacToe.rb:139-162 | from move 2 on, the top-row game ends after four moves with player 1 winning |
| `Scenarios.TopRowRun0` | lib/TicTacToe.rb:139-162 | from a new game, the top-row game ends after five moves with player 1 winning |
| `Scenarios.TopRowGame` | lib/TicTacToe.rb:139-162 | any input whose lines read as slots 1, 4, 2, 5, 3 gives a game that player 1 wins on the fifth move. Player 1 owns the top row and is congratulated |

## Left out

- `Board#display` (lines 7-19) is not modelled. The loop only records where it shows the board.
- Real console I/O is not modelled. Input is a sequence of lines and output is a sequence of printed lines.
- `Controller#initialize` (lines 37-43) is not modelled. It indexes the dialogue's result, so a declined dialogue (`nil`) would raise there. The model stops at the `Declined` result instead.
- `Game#initialize` and `Game.get_controller` (lines 95-106) are not modelled as such. `Game.NewGame` takes the two players as parameters in place of a controller.
- The top-level `Game.new` (line 165) is not modelled.
- When `gets` returns `nil` (the input ended), Ruby raises on `chomp`. The model ends with an explicit result instead: `InputExhausted` for the game loop and `InputEnded` for the dialogue.
- `String#to_i` is modelled only for base 10, the base `fill` uses: whitespace, an optional sign, the `0d` prefix, and digits with single underscores between them. Other bases and their prefixes are not modelled.
- `String#upcase` is modelled on ASCII letters only. No other character upcases to a plain `X` or `O`, so the marker decision is unaffected.
- `Game.Start`: its own contract states only that a finished game took a move, ended on a win or a draw, and printed the announcement. Its other properties are separate lemmas (`StartKeepsMarks`, `StartTakesFreeCells`, `WinnerOwnsLine`, `FinishedWinIsActive`, `FinalMessage`, `StartShowsPassEvents`, `AnnouncedOnce`) that take the same arguments.
- `Scenarios.TopRowGame` covers the complete game for any input lines that read as the five slots. The RSpec `#start` examples that replace `fill` and `end_condition` with doubles are restated about the real operations instead. `Game.PlayTurn` covers the display and the prompt; `QuietMove`, `WinningMove` and `WinningRun` cover the win; `DrawRun` covers the draw; and `RefusedLineRetried` covers the refused input.
- `Controller.GetPlayerData` allows player 2's name to equal player 1's in one case: player 1 called `player 2` repeats that name four times, and the default name is also `player 2`. This is stated as it is, not corrected.
