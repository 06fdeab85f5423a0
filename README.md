# TicTacToe (early revision) in Dafny

This project models the core of an early revision of a two-player console tic-tac-toe program
(`TicTacToe/TicTacToe.cpp`). In that revision the program has three parts. The `Board` class
holds a 3x3 grid of `char` cells and a name. Its two constructors blank every cell with the
space character. Its win check is a stub that always answers "no winner". `runGame` names the
board after the two players. `getInput` keeps prompting until the user types a line that is
not blank.

- `board.dfy`, module `TicTacToe`: the `Player` record, the `Board` class and the board name
  of a match. The grid is an `array2<char>` that is never replaced; `boardName` is a mutable
  field. The constructors call `InitializeBoard`, whose nested loops carry invariants over
  the cells filled so far.
- `line_input.dfy`, module `LineInput`: the acceptance rule of `getInput`. The console is a
  given sequence of lines. `GetInput` scans them with the same flag loop as the source and
  returns the first acceptable line and its position. `FirstAcceptable` is a pure reference
  definition of the same search.

In this code `hasWinner` always returns `false`, and the only "blank" character is the
literal space `' '`, not whitespace in general.

## Model

| member | source | states |
|---|---|---|
| `TicTacToe.Board.constructor` | TicTacToe/TicTacToe.cpp:26-35 | the default board is 3x3, all nine cells hold `' '`, and its name is `"Unnamed Board"` |
| `TicTacToe.Board.Named` | TicTacToe/TicTacToe.cpp:37-40 | the named board is 3x3, all nine cells hold `' '`, and its name is exactly the string passed in |
| `TicTacToe.Board.InitializeBoard` | TicTacToe/TicTacToe.cpp:81-90 | afterwards every cell `board[i][j]`, `0 <= i, j < 3`, is `' '`; only the grid's cells are written and `boardName` is unchanged |
| `TicTacToe.Board.HasWinner` | TicTacToe/TicTacToe.cpp:64-73 | no winner is reported for any grid content; it reads and changes no state |
| `TicTacToe.MatchBoardName` | TicTacToe/TicTacToe.cpp:109 | the match's board name splits into player 1's name, then `" vs "`, then player 2's name, and nothing else |
| `TicTacToe.StartMatch` | TicTacToe/TicTacToe.cpp:107-114 | a match starts on a fresh blank board whose name is the composed match name, and on which `HasWinner` is false, so the loop guard holds |
| `LineInput.ScanForNonSpace` | TicTacToe/TicTacToe.cpp:138-147 | after the scan, `isValid` is true exactly when some character of the line is not `' '`; stopping at the first such character does not change that |
| `LineInput.AcceptableIffNotAllSpaces` | TicTacToe/TicTacToe.cpp:133-151 | a line is accepted exactly when it is neither empty nor a run of spaces, checked against an independent definition of a run of spaces |
| `LineInput.OtherWhitespaceAccepted` | TicTacToe/TicTacToe.cpp:140-147 | a non-empty line made only of tabs or carriage returns is accepted, because only `' '` counts as blank |
| `LineInput.FirstAcceptable` | TicTacToe/TicTacToe.cpp:128-154 | the position found holds an acceptable line and every earlier line is unacceptable; none is found exactly when no line is acceptable |
| `LineInput.GetInput` | TicTacToe/TicTacToe.cpp:124-157 | the line returned is acceptable and every line read before it was rejected; the input runs out exactly when no line is acceptable; the result agrees with `FirstAcceptable` |
| `LineInput.LaterLinesIgnored` | TicTacToe/TicTacToe.cpp:149-154 | once an acceptable line is found, lines that follow it do not affect the result |
| `LineInput.RejectedLinesSkipped` | TicTacToe/TicTacToe.cpp:133-154 | a run of rejected lines is skipped: the result is the first acceptable line after them, shifted by their number |

## Left out

- Printing: `print`, `printBoardName`, `printBoardContents` and the destructor's message are console output only.
- The prompt that `getInput` writes and the `std::getline` read are replaced by the given sequence of lines.
- `LineInput.GetInput`: when the lines run out it returns `Exhausted`. The source never returns in that case: at end of input `std::getline` leaves a blank `result`, so the loop prompts forever.
- The `while (!board.hasWinner())` loop of `runGame`: its body is empty placeholders and, since `hasWinner` is always false, it never ends. `TicTacToe.StartMatch` states only that its guard holds on the new board.
- `main`: the greeting, the two name prompts and building the players numbered 1 and 2.
- `Player` holds a `std::string*` in the source; here a name is a plain string value, so aliasing between a player and the caller's string is not modelled.
- The `int` loop counter compared with `result.length()` in `getInput` is modelled as an unbounded integer; lines longer than `INT_MAX` characters are not considered.
