# Type-safe noughts and crosses: a Dafny model of the game logic

This project models the game logic of a noughts-and-crosses (tic-tac-toe) web app. The game is played on a
3x3 board of spots. A spot is empty or holds a player's mark (X or O). A *state* pairs a board with
the player who moves next. The original encodes that player as a type-level tag, so that a state
for O only offers a move for O. A move (`next`) writes the mover's mark into an empty cell of a
copy of the board. It returns a state tagged with the other player, or `SpotTaken`. The app keeps
"whichever state is current" in a two-case union (`Left` = O to move, `Right` = X to move) and
dispatches each click to the active case. A winner detector folds over the eight lines of the board.

Layout:

- `game.dfy`, module `Game`, models `src/game.rs`: players, spots, the board, `State`, `default`,
  `next`, `update_board`, `into` and `check_winner`.
- `session.dfy`, module `Session`, models the click dispatch of `src/main.rs`: the initial session,
  the handling of one click, and runs of clicks.

Modelling choices:

- The type-level tag becomes a runtime field `State.mover`. The union is the datatype
  `Either = Left(State) | Right(State)`, and `WellTagged` says that its case agrees with the mover.
  The alternation that the source's types enforce is then proved as lemmas: `Next` flips the
  mover, `Into` puts O-to-move states on the left, and every session reached by clicks is
  `WellTagged`.
- The board is a value (`seq<seq<Spot>>` constrained to 3x3), as the source's `[[Spot; 3]; 3]`
  is copied on every move. `UpdateBoard` returns the updated copy, so the caller's board
  cannot change.
- A position is a pair of `nat` (the source's `usize`). A position off the board makes the
  source panic. This is a precondition (`InRange`), not an error result.
- `next` (src/game.rs:93-99) never calls `check_winner`, so the only error is `SpotTaken`:
  there is no winner error and no draw, in the source or in the model.
- The app's error state is set when a move fails and is not cleared by a later successful move.
  `Submit` keeps it the same way.

## Model

| member | source | states |
|---|---|---|
| `Game.NextPlayer` | src/game.rs:18-23 | the player swap never returns its input |
| `Game.NextPlayerInvolutive` | src/game.rs:18-23 | X goes to O, O goes to X, and swapping twice is the identity |
| `Game.Mark` | src/game.rs:50-62 | the spot a player leaves is never `Empty` and names that player |
| `Game.Put` | src/game.rs:108 | writing one cell sets that cell and leaves the other eight as they were |
| `Game.Default` | src/game.rs:84-91 | the initial state has O to move and all nine cells `Empty` |
| `Game.DefaultCounts` | src/game.rs:84-91 | the initial board has 9 empty cells and no marks of either player |
| `Game.UpdateBoard` | src/game.rs:102-111 | fails with `SpotTaken` exactly when the target is not `Empty`; on success the target holds the mover's mark and the other 8 cells equal the input |
| `Game.UpdateBoardFillsOneCell` | src/game.rs:105-109 | on success the number of empty cells drops by exactly one |
| `Game.Next` | src/game.rs:93-100 | fails with `SpotTaken` exactly when the target is taken; on success the result is tagged with the other player, the target holds the old mover's mark, and no other cell changes |
| `Game.NextFillsOneCell` | src/game.rs:93-111 | a successful move leaves exactly one fewer empty cell |
| `Game.Into` | src/game.rs:72-82 | an O-to-move state goes `Left`, an X-to-move state goes `Right`, the state inside is carried unchanged, and the result's case agrees with its mover |
| `Game.Inner` | src/main.rs:19 | the state of whichever case of the union is active, as `for_both!` hands it to the move: the union is that state wrapped `Left` or `Right` |
| `Game.IntoInner` | src/game.rs:72-82 | re-wrapping the state of a well-tagged union gives back the same union |
| `Game.DefaultBalanced` | src/game.rs:84-91 | the initial state is balanced: O to move, with equal numbers of O and X marks |
| `Game.NextPreservesBalance` | src/game.rs:93-111 | a successful move keeps the balance: O to move with equal marks, or X to move with O one mark ahead |
| `Game.BalancedMoverParity` | src/game.rs:93-99 | in a balanced state O is to move exactly when the number of empty cells is odd |
| `Game.PlaySwapsMover` | src/game.rs:93-99 | after n successful moves the mover has been swapped n times |
| `Game.PlayFillsCells` | src/game.rs:102-111 | after n successful moves exactly n more cells are occupied |
| `Game.PlayKeepsBalance` | src/game.rs:93-111 | any run of successful moves keeps the balance between the players' marks |
| `Game.PlayFromDefault` | src/game.rs:84-99 | from the initial state, after n successful moves O is to move exactly when n is even, and 9 - n cells are empty |
| `Game.PlayKeepsMarks` | src/game.rs:102-111 | a non-empty cell is never changed by any later run of moves |
| `Game.LinesAreWinningLines` | src/game.rs:114-123 | the line table `Lines` holds eight lines: every row, every column and both diagonals |
| `Game.FoldStep` | src/game.rs:125-134 | a result already found is kept; otherwise the step yields a result exactly when the line's three cells are equal, and that result is the spot all three hold (possibly `Empty`) |
| `Game.FoldLines` | src/game.rs:124-135 | the fold ends without a result only when it started without one and no line of the list has three equal cells |
| `Game.CheckWinner` | src/game.rs:113-140 | no contract of its own: `WinnerIsFirstUniformLine` and `NoUniformNoWinner` together give its result on every board, and `WinnerOwnsALine` bounds it |
| `Game.FoldKeeps` | src/game.rs:125-127 | once the fold holds a result, later lines do not change it |
| `Game.FoldFindsFirst` | src/game.rs:124-135 | the fold returns the spot of the first line, in list order, whose three cells are equal |
| `Game.FoldNone` | src/game.rs:124-135 | without a line of three equal cells the fold returns `None` |
| `Game.FoldSome` | src/game.rs:124-135 | any result of the fold is the spot of the first line of three equal cells |
| `Game.WinnerOwnsALine` | src/game.rs:113-140 | `CheckWinner` reports p only if some listed line holds three marks of p |
| `Game.WinnerIsFirstUniformLine` | src/game.rs:113-140 | the first line of three equal cells decides the result: its player, or no winner if that line is empty |
| `Game.NoUniformNoWinner` | src/game.rs:113-140 | a board with no line of three equal cells has no winner |
| `Game.EmptyBoardNoWinner` | src/game.rs:113-140 | the all-empty board has no winner |
| `Game.EmptyLineMasks` | src/game.rs:125-139 | an all-empty line listed before every other uniform line gives no winner, even when a later line is completed by a player |
| `Game.MiddleRowReachable` | src/game.rs:93-111 | the moves O:(1,0), X:(2,0), O:(1,1), X:(2,1), O:(1,2) from the initial state all succeed and reach the board with O's middle row and an empty top row |
| `Game.CheckWinnerMissesMiddleRow` | src/game.rs:125-139 | on that board O owns the middle row, yet `CheckWinner` reports no winner |
| `Game.CheckWinnerFixedFindsMiddleRow` | src/game.rs:113-140 | the corrected detector reports O on that board |
| `Game.FoldCompletedFirst` | src/game.rs:113-140 | the corrected fold returns the owner of the first line of three equal marks |
| `Game.FoldCompletedSome` | src/game.rs:113-140 | the corrected fold returns p only if some line holds three marks of p |
| `Game.FixedWinnerCorrect` | src/game.rs:113-140 | the corrected detector reports p only for a line of three p marks, and reports the owner of the first completed line whatever the other cells hold |
| `Game.FixedNoCompletedNoWinner` | src/game.rs:113-140 | without a completed line the corrected detector reports no winner |
| `Session.Start` | src/main.rs:11-12 | the session starts in the `Left` case on the initial O-to-move state, with no error |
| `Session.Submit` | src/main.rs:18-23 | a click on a taken cell keeps the game and records `SpotTaken`; a click on an empty cell keeps the error, swaps the mover, keeps the union's case in agreement with the mover, writes the old mover's mark and leaves every other cell alone |
| `Session.CurrentBoard` | src/main.rs:28 | the board of whichever case of the union is active: the union is the state of that board and the current mover, wrapped `Left` or `Right` |
| `Session.StartConsistent` | src/main.rs:11 | the initial session is well tagged and balanced |
| `Session.SubmitPreservesConsistent` | src/main.rs:19-21 | a click, accepted or rejected, keeps the session well tagged and balanced |
| `Session.SubmitStep` | src/main.rs:19-21 | an accepted click swaps the mover and fills one empty cell; a rejected click changes neither |
| `Session.SubmitAllConsistent` | src/main.rs:18-23 | any run of clicks, accepted or rejected, keeps the session well tagged and balanced |
| `Session.SubmitAllSwapsMover` | src/main.rs:18-23 | a run of clicks swaps the mover once per accepted click |
| `Session.SubmitAllFillsCells` | src/main.rs:18-23 | a run of clicks fills exactly one empty cell per accepted click |
| `Session.StartAlternates` | src/main.rs:11-23 | from the start, O is to move exactly when an even number of clicks has been accepted; the union's case always agrees with the mover; 9 minus the number of accepted clicks cells stay empty |
| `Session.SubmitAllKeepsMarks` | src/main.rs:18-23 | a marked cell keeps its mark through any later clicks, accepted or rejected |
| `Session.FirstMove` | src/main.rs:18-23 | O's first click on (0,0) succeeds: the session moves to the `Right` case, (0,0) holds O and every other cell is empty |
| `Session.SecondClickOnTakenCell` | src/main.rs:18-23 | X clicking (0,0) after O took it is rejected with `SpotTaken`, and the game is unchanged |

## Left out

- The type-level machinery (`tyrade!`, `TPlayer`, `PhantomData`) and the hand-written `Clone`/`Copy`
  impls (src/game.rs:12-37) are replaced by the runtime `mover` field. A wrongly tagged state is
  therefore expressible in the model. `WellTagged` and `Consistent` state the guarantee, and it is
  proved for every session reached from the start.
- The `Spotted` trait dispatch (src/game.rs:50-62) is the plain function `Mark`.
- The rendering components (`App`'s markup, `Board`, `Spot`), the `use_state` hooks as a mechanism,
  callbacks and `start_app` (src/main.rs:26-89) are user-interface plumbing. Only the click
  dispatch is modelled.
- The error message is kept as the `GameError` value. Its `Debug` formatting into a string
  (src/main.rs:21) is not modelled.
- The panic on an off-board position is a precondition, so its message is not modelled.
- No winner error and no draw: the move never consults the winner detector, and `GameError` has
  only `SpotTaken`. `CheckWinner` is modelled but nothing calls it, as in the source.

## Findings

| source | as written | input that shows it | evidently intended | confidence | as-written member | corrected member |
|---|---|---|---|---|---|---|
| src/game.rs:125-139 | the fold stops at the first line whose three spots are equal, even three `Empty` spots; the final `and_then` turns that into "no winner", so an empty line hides any completed line listed after it | the board reached by O:(1,0), X:(2,0), O:(1,1), X:(2,1), O:(1,2): the top row is empty and O owns the middle row, yet no winner is reported | report the owner of the first line of three equal marks; an empty line does not count | high (not executed) | `Game.CheckWinnerMissesMiddleRow` | `Game.FixedWinnerCorrect` |
