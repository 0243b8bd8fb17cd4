# JavaGrid4 rules, undo/redo and setup validation in Dafny

JavaGrid4 is a two-player board game on an N-by-N grid, with N one of 3, 5
or 7. Every cell holds a value from 0 to 4 and may have an owner. A move at
(row, col) raises the clicked cell and its on-grid orthogonal neighbours by
one. A cell already at 4 stays as it is. A cell that reaches 4 while it has
no owner is claimed by the mover, and the mover scores one point for each
such cell. The match ends when every cell is 4.

This project models the core of the game:

- **Rules** (`rules.dfy`): the whole match as a value (board, both scores,
  the player to move, the game-over flag). `Apply` is `applyMove` as a
  function. The lemmas prove which cells change, what the move returns and
  how it scores. They also prove the invariant every reachable match keeps:
  an owner exactly when the value is 4, each score equal to the number of
  cells its player owns, and game over exactly when the board is full.
- **Engine** (`game_engine.dfy`): `GameEngine` as a class over two 2-D
  arrays (`cellValues`, `cellOwners`) and a `GameState` object. Every
  mutating method is proved against `Rules`: `ApplyMove`, for example,
  leaves the engine in the match `Rules.Apply` computes.
- **MatchState** (`game_state.dfy`) and **Players** (`player.dfy`): scores,
  turn and flag; the two-valued player enum.
- **Snapshots** (`snapshot.dfy`) and **Commands** (`move_command.dfy`):
  `MoveCommand` records the clicked cell and its neighbours, the scores, the
  turn and the flag before it applies the move. Its `undo` writes all of
  them back. The model proves that execute followed by undo gives back
  exactly the match from before, and that a replayed execute gives the same
  result.
- **History** (`command_history.dfy`): `CommandHistory` with its undo and
  redo stacks. The stack discipline is also given as values (`Stacks`),
  with round-trip lemmas. On the engine, executeCommand followed by undo,
  and redo followed by undo, give back exactly the earlier match.
- **PlayerSetup** and **GameSetup** (`player_config.dfy`, `game_config.dfy`):
  the menu's validators for names, colours and board size.
- **Common** and **Text** are helpers: `Result`/`Option`/`Error`, Java's
  `Integer.toString` with its parser (so that rendered numbers can be read
  back), `String.trim` and `String.length` in UTF-16 units.

A Java `IllegalArgumentException` becomes an `Err` value of `Common.Error`,
and the operations that raise one take any input. The one exception is the
`GameEngine` constructor, which requires a valid grid size; its
`IllegalArgumentException` is modelled by `Engine.NewGameEngine`, which
returns an error for any other size.

All source paths below are under `src/main/java/com/mycompany/javagrid4/`,
written out in full in the table.

## Model

| member | source | states |
|---|---|---|
| Rules.ValidGridSize | src/main/java/com/mycompany/javagrid4/GameEngine.java:22-25 | The accepted sizes are exactly 3, 5 and 7 (at least 3, at most 7, odd). |
| Rules.AllCells | src/main/java/com/mycompany/javagrid4/GameEngine.java:282-288 | The positions of an n-by-n grid are exactly the pairs validatePosition accepts. |
| Rules.EmptyBoard | src/main/java/com/mycompany/javagrid4/GameEngine.java:38-45 | initializeGrid's board: n rows of n cells, all values 0 (within 0..4). |
| Rules.SameBoard | src/main/java/com/mycompany/javagrid4/GameEngine.java:14-15 | Two grids of one size that agree cell by cell are the same grid. |
| Rules.InBounds | src/main/java/com/mycompany/javagrid4/GameEngine.java:282-288 | The position check of validatePosition: row and column both in 0..n-1; any other position raises. |
| Rules.Affected | src/main/java/com/mycompany/javagrid4/GameEngine.java:122-136 | The cells applyMove visits are on the grid and pairwise distinct. |
| Rules.ColumnCells | src/main/java/com/mycompany/javagrid4/GameEngine.java:122-130 | The clicked cell, then the on-grid cells above and below it: pairwise distinct, all on the grid and in the clicked column. |
| Rules.RowCells | src/main/java/com/mycompany/javagrid4/GameEngine.java:131-136 | The on-grid cells left and right of the clicked one: pairwise distinct, all on the grid and none in the clicked column. |
| Rules.AffectedAreNeighbours | src/main/java/com/mycompany/javagrid4/GameEngine.java:122-136 | The visited cells are exactly the on-grid cells at distance at most 1 from the click, the click first. |
| Rules.AffectedCount | src/main/java/com/mycompany/javagrid4/GameEngine.java:125-136 | A corner click visits 3 cells, an edge click 4, an interior click 5. |
| Rules.IncrementAndCheck | src/main/java/com/mycompany/javagrid4/GameEngine.java:158-168 | A value below 4 rises by one, 4 stays. The owner changes only from none to the mover, and only at 4. The point is 1 exactly when the owner changed. |
| Rules.ClaimsIffPoint | src/main/java/com/mycompany/javagrid4/GameEngine.java:158-168 | incrementAndCheck returns 1 exactly when the cell was at 3 with no owner. |
| Rules.SetCell | src/main/java/com/mycompany/javagrid4/GameEngine.java:83-100 | Writing one cell keeps the grid square and of the same size. |
| Rules.SetCellTwice | src/main/java/com/mycompany/javagrid4/GameEngine.java:83-100 | A second write to a cell overrides the first. |
| Rules.IncrementAllSnoc | src/main/java/com/mycompany/javagrid4/GameEngine.java:119-136 | Incrementing one more cell is one more step on the running board and points total. |
| Rules.IncrementAllSnocIf | src/main/java/com/mycompany/javagrid4/GameEngine.java:125-136 | a guarded neighbour increment adds that cell to the touched list exactly when its guard holds, and otherwise leaves board and points as they were |
| Rules.IncrementAllBoard | src/main/java/com/mycompany/javagrid4/GameEngine.java:119-136 | after incrementing a list of distinct cells, each listed cell holds what incrementAndCheck makes of its old contents and every other cell is unchanged |
| Rules.ClaimSetSnoc | src/main/java/com/mycompany/javagrid4/GameEngine.java:158-168 | touching one more, new cell adds one to the number of claimed cells exactly when that cell goes from 3 to 4 without an owner |
| Rules.IncrementAllPoints | src/main/java/com/mycompany/javagrid4/GameEngine.java:119-146 | the points of a sequence of increments are the number of listed cells they claim |
| Rules.MoveSteps | src/main/java/com/mycompany/javagrid4/GameEngine.java:119-136 | The move is applyMove's straight-line code: the clicked cell, then up, down, left and right when on the grid. |
| Rules.MoveEffect | src/main/java/com/mycompany/javagrid4/GameEngine.java:119-136 | Each neighbourhood cell below 4 rises by exactly one; cells at 4 and all other cells are unchanged; the return value counts the newly claimed cells. |
| Rules.MovePoints | src/main/java/com/mycompany/javagrid4/GameEngine.java:119-146 | The points of a move equal the number of cells it newly claims. |
| Rules.MovePointsBound | src/main/java/com/mycompany/javagrid4/GameEngine.java:119-146 | A move awards at most one point per visited cell, so at most 5. |
| Rules.MoveWellFormed | src/main/java/com/mycompany/javagrid4/GameEngine.java:158-161 | No value ever exceeds 4 after a move. |
| Rules.MoveKeepsOwners | src/main/java/com/mycompany/javagrid4/GameEngine.java:162-165 | A move never overwrites an existing owner and never touches a cell at 4. |
| Rules.MoveAt | src/main/java/com/mycompany/javagrid4/GameEngine.java:119-136 | One cell after a move: stepped once if visited, as before otherwise. |
| Rules.MoveOwned | src/main/java/com/mycompany/javagrid4/GameEngine.java:162-165 | The mover's cells become the old ones plus the newly claimed ones (disjoint); the opponent's cells are unchanged. |
| Rules.Move | src/main/java/com/mycompany/javagrid4/GameEngine.java:119-136 | The board after the move: every visited cell passed through incrementAndCheck, with the number of points it earned; the result stays an n-by-n grid. |
| Rules.AddScore | src/main/java/com/mycompany/javagrid4/GameState.java:38-44 | Only the given player's score changes, by exactly the points. |
| Rules.CheckGameEnd | src/main/java/com/mycompany/javagrid4/GameEngine.java:173-182 | The flag becomes "was set or every cell is 4"; it is never cleared and nothing else changes. |
| Rules.Apply | src/main/java/com/mycompany/javagrid4/GameEngine.java:112-147 | applyMove on the match value: off the grid an error, on a finished match 0 points and no change, otherwise Move, then addScore when the move earned points, then checkGameEnd; the turn is not switched here (the contract is stated in Rules.ApplyCases). |
| Rules.ApplyCases | src/main/java/com/mycompany/javagrid4/GameEngine.java:112-147 | Off-grid raises (checked before the game-over guard); a finished match is unchanged with 0 points; otherwise the board moves, the mover gains exactly the points (at most 5), the opponent's score and the turn are unchanged, and the match is over exactly when every cell is 4. |
| Rules.FreshConsistent | src/main/java/com/mycompany/javagrid4/GameEngine.java:22-45 | A fresh board satisfies the invariant: owner exactly at 4, scores equal owned counts, over exactly when full. |
| Rules.MoveKeepsOwnerIffFull | src/main/java/com/mycompany/javagrid4/GameEngine.java:158-168 | A move keeps values in 0..4 and "owned exactly when 4". |
| Rules.GainKeepsConsistent | src/main/java/com/mycompany/javagrid4/GameState.java:38-44 | a board that keeps the invariant, where the mover gains a disjoint set of cells scored one point each and the opponent keeps cells and score, gives a consistent match |
| Rules.MoveKeepsConsistent | src/main/java/com/mycompany/javagrid4/GameEngine.java:119-147 | a move on a consistent match, scored with the cells it claims and with the end flag recomputed, leaves a consistent match |
| Rules.ApplyConsistent | src/main/java/com/mycompany/javagrid4/GameEngine.java:112-147 | applyMove preserves the invariant: each score keeps counting its player's cells. |
| Rules.PlayAll | src/main/java/com/mycompany/javagrid4/GameEngine.java:112-147 | A sequence of applyMove calls keeps the board's size and shape. |
| Rules.PlayAllConsistent | src/main/java/com/mycompany/javagrid4/GameEngine.java:139-141 | From a fresh or reset board, after any sequence of moves: owner exactly at 4, each score equals its player's owned cells, over exactly when full. |
| Engine.GameEngine.constructor | src/main/java/com/mycompany/javagrid4/GameEngine.java:22-33 | A valid size gives fresh arrays of that size, every value 0, no owners, and a new GameState. |
| Engine.NewGameEngine | src/main/java/com/mycompany/javagrid4/GameEngine.java:22-33 | A size other than 3, 5 or 7 raises InvalidGridSize; any other size gives a fresh engine with an empty board. |
| Engine.GameEngine.InitializeGrid | src/main/java/com/mycompany/javagrid4/GameEngine.java:38-45 | After the nested loops every value is 0 and every owner is none. |
| Engine.GameEngine.GetGridSize | src/main/java/com/mycompany/javagrid4/GameEngine.java:51-53 | The size is the board's size, one of 3, 5, 7. |
| Engine.GameEngine.GetCellValue | src/main/java/com/mycompany/javagrid4/GameEngine.java:61-64 | Raises exactly for an off-grid position; otherwise returns the cell's value, in 0..4. |
| Engine.GameEngine.GetCellOwner | src/main/java/com/mycompany/javagrid4/GameEngine.java:72-75 | Raises exactly for an off-grid position; otherwise returns the cell's owner. |
| Engine.GameEngine.SetCellOwner | src/main/java/com/mycompany/javagrid4/GameEngine.java:83-86 | Raises exactly off the grid, changing nothing; otherwise only that cell's owner changes. |
| Engine.GameEngine.SetCellValue | src/main/java/com/mycompany/javagrid4/GameEngine.java:94-100 | Off-grid raises OutOfBounds; a value outside 0..4 raises InvalidCellValue; either way nothing changes. Otherwise only that cell's value changes. |
| Engine.GameEngine.ApplyMove | src/main/java/com/mycompany/javagrid4/GameEngine.java:112-147 | The engine ends in exactly the match Rules.Apply gives and returns its points; an error leaves everything unchanged. |
| Engine.GameEngine.IncrementNeighbourhood | src/main/java/com/mycompany/javagrid4/GameEngine.java:119-136 | The five guarded incrementAndCheck calls leave the board and total of Rules.Move. |
| Engine.GameEngine.IncrementColumn | src/main/java/com/mycompany/javagrid4/GameEngine.java:121-130 | the clicked cell, then up and down when on the grid, change the arrays exactly as the pure steps do, with the points they award |
| Engine.GameEngine.IncrementRow | src/main/java/com/mycompany/javagrid4/GameEngine.java:131-136 | left and right, each only when on the grid, change the arrays exactly as the pure steps do and add their points to the running total |
| Engine.GameEngine.IncrementAndAdd | src/main/java/com/mycompany/javagrid4/GameEngine.java:122 | One `pointsAwarded += incrementAndCheck(...)` is one Rules.Step. |
| Engine.GameEngine.IncrementAndCheck | src/main/java/com/mycompany/javagrid4/GameEngine.java:158-168 | The array cell becomes Rules.IncrementAndCheck's cell and the method returns its point; no other cell changes. |
| Engine.GameEngine.CheckGameEnd | src/main/java/com/mycompany/javagrid4/GameEngine.java:173-182 | The scan leaves the match Rules.CheckGameEnd gives: the flag is set exactly when every cell is 4, else unchanged. |
| Engine.GameEngine.GetWinner | src/main/java/com/mycompany/javagrid4/GameEngine.java:237-239 | The winner has the strictly higher score; none exactly on a tie. |
| Engine.GameEngine.SetCurrentPlayer | src/main/java/com/mycompany/javagrid4/GameEngine.java:221-223 | Only the player to move changes. |
| Engine.GameEngine.SetGameOver | src/main/java/com/mycompany/javagrid4/GameEngine.java:229-231 | Only the game-over flag changes. |
| Engine.GameEngine.ResetBoard | src/main/java/com/mycompany/javagrid4/GameEngine.java:254-257 | The same size, an empty board and a reset state: the fresh match. |
| Engine.GameEngine.ChangeGridSize | src/main/java/com/mycompany/javagrid4/GameEngine.java:263-274 | A size other than 3, 5 or 7 raises and changes nothing; otherwise new arrays of the new size and the fresh match. |
| Engine.GameEngine.IsGameOver | src/main/java/com/mycompany/javagrid4/GameEngine.java:188-190 | The engine reports the game-over flag of the match it holds. |
| Engine.GameEngine.GetScore | src/main/java/com/mycompany/javagrid4/GameEngine.java:197-199 | The engine reports the given player's score in the match it holds. |
| Engine.GameEngine.GetCurrentPlayer | src/main/java/com/mycompany/javagrid4/GameEngine.java:213-215 | The engine reports the player to move in the match it holds. |
| MatchState.GameState.constructor | src/main/java/com/mycompany/javagrid4/GameState.java:17-22 | Both scores 0, PLAYER_ONE to move, not over. |
| MatchState.GameState.GetScore | src/main/java/com/mycompany/javagrid4/GameState.java:29-31 | PLAYER_ONE reads player1Score, the other player player2Score; addScore and setScore are stated through it. |
| MatchState.GameState.AddScore | src/main/java/com/mycompany/javagrid4/GameState.java:38-44 | The player's score rises by the points; the other score, the turn and the flag are unchanged. |
| MatchState.GameState.SetScore | src/main/java/com/mycompany/javagrid4/commands/MoveCommand.java:119-120 | Only the given player's score is overwritten. |
| MatchState.GameState.SwitchPlayer | src/main/java/com/mycompany/javagrid4/GameState.java:57-59 | The opponent moves next; scores and flag unchanged. |
| MatchState.GameState.SetCurrentPlayer | src/main/java/com/mycompany/javagrid4/GameEngine.java:222 | Only the player to move is overwritten. |
| MatchState.GameState.SetGameOver | src/main/java/com/mycompany/javagrid4/GameState.java:73-75 | Only the flag is overwritten. |
| MatchState.GameState.GetWinner | src/main/java/com/mycompany/javagrid4/GameState.java:81-88 | The player with the strictly higher score; none exactly when the scores tie; the flag plays no part. |
| MatchState.GameState.Reset | src/main/java/com/mycompany/javagrid4/GameState.java:93-98 | Back to exactly the constructor's state. |
| MatchState.SwitchTwice | src/main/java/com/mycompany/javagrid4/GameState.java:57-59 | Two switches give the turn back; scores and flag unchanged. |
| Players.Player.Id | src/main/java/com/mycompany/javagrid4/Player.java:28-30 | The id is 1 or 2, and 1 exactly for PLAYER_ONE. |
| Players.Player.DisplayName | src/main/java/com/mycompany/javagrid4/Player.java:36-38 | "Player " followed by the id. |
| Players.Player.Opponent | src/main/java/com/mycompany/javagrid4/Player.java:44-46 | Never the receiver. |
| Players.Player.Name | src/main/java/com/mycompany/javagrid4/Player.java:7-9 | The name Java's enum toString gives: PLAYER_ONE or PLAYER_TWO, ten characters starting PLAYER_ (Commands.NameIdentifiesPlayer: distinct players, distinct names). |
| Players.IdsIdentifyPlayers | src/main/java/com/mycompany/javagrid4/Player.java:8-9 | Exactly two players, told apart by their ids. |
| Players.OpponentInvolution | src/main/java/com/mycompany/javagrid4/Player.java:44-46 | The opponent's opponent is the player; the opponent's id is 3 minus the id. |
| Snapshots.CaptureCellsAt | src/main/java/com/mycompany/javagrid4/commands/MoveCommand.java:64-100 | Entry k of the snapshot is the position and the (value, owner) of the k-th listed cell. |
| Snapshots.Capture | src/main/java/com/mycompany/javagrid4/commands/MoveCommand.java:57-106 | captureState as a value: the cells applyMove will visit, in its order, with their values and owners, plus the turn, the flag and both scores (proved in Snapshots.CaptureNear and Snapshots.CaptureShape). |
| Snapshots.CaptureSteps | src/main/java/com/mycompany/javagrid4/commands/MoveCommand.java:64-100 | The capture is captureState's chain of list appends: clicked cell, then up, down, left, right when on the grid. |
| Snapshots.CaptureShape | src/main/java/com/mycompany/javagrid4/commands/MoveCommand.java:64-100 | The snapshot starts with the clicked cell, holds only on-grid cells at distance at most 1, and has 3, 4 or 5 entries for a corner, edge or interior click. |
| Snapshots.CaptureNear | src/main/java/com/mycompany/javagrid4/commands/MoveCommand.java:64-100 | every recorded position is on the grid and at distance at most 1 from the clicked cell |
| Snapshots.CapturedEntry | src/main/java/com/mycompany/javagrid4/commands/MoveCommand.java:64-100 | entry m of the record names the m-th touched cell and holds its value (in 0..4) and owner as they were |
| Snapshots.WriteBackStep | src/main/java/com/mycompany/javagrid4/commands/MoveCommand.java:111-116 | One more loop iteration is setCellValue then setCellOwner on the entry's position. |
| Snapshots.WriteBack | src/main/java/com/mycompany/javagrid4/commands/MoveCommand.java:111-116 | undo's cell loop over the first k recorded cells: the grid keeps its size, and the first write that raises stops the loop (proved in Snapshots.WriteBackStops and Snapshots.WriteBackRestores). |
| Snapshots.WriteBackStops | src/main/java/com/mycompany/javagrid4/commands/MoveCommand.java:111-116 | Once an iteration raises, the loop stops and the board stays as it was then. |
| Snapshots.WriteBackCaptured | src/main/java/com/mycompany/javagrid4/commands/MoveCommand.java:111-116 | Writing back the first k entries of a capture restores those cells and leaves the rest alone. |
| Snapshots.ApplyFrame | src/main/java/com/mycompany/javagrid4/GameEngine.java:119-136 | applyMove leaves every cell outside the captured neighbourhood unchanged. |
| Snapshots.Restore | src/main/java/com/mycompany/javagrid4/commands/MoveCommand.java:109-127 | undo as a value: a completed write-back also restores both scores, the turn and the flag; a write-back that raises leaves those as they were. |
| Snapshots.WriteBackRestores | src/main/java/com/mycompany/javagrid4/commands/MoveCommand.java:111-116 | Writing back a snapshot onto a board that differs only in the captured cells gives the earlier board, with no error. |
| Snapshots.RestoreUndoesApply | src/main/java/com/mycompany/javagrid4/commands/MoveCommand.java:46-52 | Restoring the snapshot taken before applyMove gives back exactly the earlier match: board, scores, turn and flag. |
| Snapshots.ReplayIsDeterministic | src/main/java/com/mycompany/javagrid4/commands/MoveCommand.java:46-52 | execute, undo, execute: the second execute takes the same snapshot and gives the same points and match as the first. |
| Commands.MoveCommand.constructor | src/main/java/com/mycompany/javagrid4/commands/MoveCommand.java:38-43 | Stores the engine, position and player; no snapshot yet. |
| Commands.MoveCommand.CaptureState | src/main/java/com/mycompany/javagrid4/commands/MoveCommand.java:57-106 | Records turn, flag and scores; raises exactly for an off-grid click, after recording them; otherwise the recorded snapshot is Snapshots.Capture of the match. |
| Commands.MoveCommand.RecordScalars | src/main/java/com/mycompany/javagrid4/commands/MoveCommand.java:59-62 | the current player, the game-over flag and both scores are recorded as the engine reports them, and the cell record is left as it was |
| Commands.MoveCommand.ReadCells | src/main/java/com/mycompany/javagrid4/commands/MoveCommand.java:64-100 | The appended positions, values and owners are those of Snapshots.Capture. |
| Commands.MoveCommand.Execute | src/main/java/com/mycompany/javagrid4/commands/MoveCommand.java:46-52 | The snapshot is of the match before the move; the move is Rules.Apply for the stored player; the points are stored. |
| Commands.MoveCommand.Undo | src/main/java/com/mycompany/javagrid4/commands/MoveCommand.java:109-127 | The engine ends in Snapshots.Restore of the snapshot: every cell written back, both scores, the turn and the flag restored. |
| Commands.MoveCommand.WriteBackCell | src/main/java/com/mycompany/javagrid4/commands/MoveCommand.java:112-115 | One loop iteration advances the write-back by one entry or raises. |
| Commands.MoveCommand.GetDescription | src/main/java/com/mycompany/javagrid4/commands/MoveCommand.java:130-132 | "Move by PLAYER_..." followed by the position. |
| Commands.DescriptionIdentifiesMove | src/main/java/com/mycompany/javagrid4/commands/MoveCommand.java:130-132 | Two descriptions are equal exactly when player, row and column are. |
| Commands.DescriptionParts | src/main/java/com/mycompany/javagrid4/commands/MoveCommand.java:130-132 | a description text determines the player, the row and the column it was built from |
| Commands.NameIdentifiesPlayer | src/main/java/com/mycompany/javagrid4/Player.java:8-9 | The two enum names differ. |
| Commands.SplitAtComma | src/main/java/com/mycompany/javagrid4/commands/MoveCommand.java:131 | "<row>, <rest>" determines the row and the rest. |
| Commands.ExecuteThenUndo | src/main/java/com/mycompany/javagrid4/commands/MoveCommand.java:46-52 | execute then undo leaves the engine's match exactly as it was. |
| History.Pushed | src/main/java/com/mycompany/javagrid4/commands/CommandHistory.java:33-37 | executeCommand pushes the command on top of the undo stack and empties redo. |
| History.Undone | src/main/java/com/mycompany/javagrid4/commands/CommandHistory.java:44-52 | Empty undo stack: no change. Otherwise its top moves onto redo; the total count is preserved. |
| History.Redone | src/main/java/com/mycompany/javagrid4/commands/CommandHistory.java:59-67 | The mirror image of undo. |
| History.RedoUndoes | src/main/java/com/mycompany/javagrid4/commands/CommandHistory.java:44-67 | A successful undo followed by redo restores both stacks. |
| History.UndoRedoes | src/main/java/com/mycompany/javagrid4/commands/CommandHistory.java:44-67 | A successful redo followed by undo restores both stacks. |
| History.NothingToRedoAfterPush | src/main/java/com/mycompany/javagrid4/commands/CommandHistory.java:33-37 | After executeCommand redo is a no-op, and undo moves just that command to redo. |
| History.UndoTimes | src/main/java/com/mycompany/javagrid4/commands/CommandHistory.java:44-52 | Repeated undos preserve the total count. |
| History.RedoTimes | src/main/java/com/mycompany/javagrid4/commands/CommandHistory.java:59-67 | Repeated redos preserve the total count. |
| History.UndoTimesMoves | src/main/java/com/mycompany/javagrid4/commands/CommandHistory.java:44-52 | k undos move the top k commands onto the redo stack, the rest untouched. |
| History.RedoTimesUndoes | src/main/java/com/mycompany/javagrid4/commands/CommandHistory.java:44-67 | k undos followed by k redos restore both stacks. |
| History.UndoTimesShift | src/main/java/com/mycompany/javagrid4/commands/CommandHistory.java:44-52 | k+1 undos are one undo followed by k. |
| History.CommandHistory.constructor | src/main/java/com/mycompany/javagrid4/commands/CommandHistory.java:22-25 | Both stacks empty. |
| History.Run | src/main/java/com/mycompany/javagrid4/commands/CommandHistory.java:34 | command.execute() as the history calls it (History.Ran): the engine keeps its grid and arrays; on the grid the engine moves exactly as Rules.Apply says, the command's snapshot is Snapshots.Capture of the match before, and undoing it would give that match back; off the grid nothing changes. |
| History.CommandHistory.ExecuteCommand | src/main/java/com/mycompany/javagrid4/commands/CommandHistory.java:33-37 | The command runs first and History.Ran describes the run; if it completes, the stacks become Pushed; if it raises, stacks and match are unchanged. |
| History.CommandHistory.Undo | src/main/java/com/mycompany/javagrid4/commands/CommandHistory.java:44-52 | Empty stack: false, no change. Otherwise the stacks become Undone and the engine, keeping its grid, is restored from the command's snapshot; if that raises, the command stays popped. |
| History.CommandHistory.Redo | src/main/java/com/mycompany/javagrid4/commands/CommandHistory.java:59-67 | Empty stack: false, no change. Otherwise the popped command re-executes as History.Ran describes (a new snapshot, the engine moved by Rules.Apply); if that completes, the stacks become Redone; if it raises, the command stays popped. |
| History.CommandHistory.CanUndo | src/main/java/com/mycompany/javagrid4/commands/CommandHistory.java:74-76 | True exactly when the undo count is positive. |
| History.CommandHistory.CanRedo | src/main/java/com/mycompany/javagrid4/commands/CommandHistory.java:83-85 | True exactly when the redo count is positive. |
| History.CommandHistory.Clear | src/main/java/com/mycompany/javagrid4/commands/CommandHistory.java:90-93 | Both stacks empty. |
| History.CommandHistory.GetUndoCount | src/main/java/com/mycompany/javagrid4/commands/CommandHistory.java:100-102 | The undo stack's size. |
| History.CommandHistory.GetRedoCount | src/main/java/com/mycompany/javagrid4/commands/CommandHistory.java:109-111 | The redo stack's size. |
| History.Ran | src/main/java/com/mycompany/javagrid4/commands/CommandHistory.java:34 | What one run of execute leaves behind, relative to the match before it: well-formed command and engine with the same grid; on the grid applyMove's match, a snapshot equal to its capture, and an undo that gives the earlier match back; off the grid no change. |
| History.UndoesTo | src/main/java/com/mycompany/javagrid4/commands/MoveCommand.java:109-127 | The command has a snapshot and undoing it now restores the given match without error. |
| History.ExecuteForUndo | src/main/java/com/mycompany/javagrid4/commands/CommandHistory.java:33-37 | executeCommand restricted to what a later undo needs: the command becomes the top of the undo stack and undoing it would give the old match back. |
| History.RedoForUndo | src/main/java/com/mycompany/javagrid4/commands/CommandHistory.java:59-67 | redo restricted to what a later undo needs: the stacks become Redone and undoing the redone command would give the old match back. |
| History.ExecuteCommandThenUndo | src/main/java/com/mycompany/javagrid4/commands/CommandHistory.java:33-52 | executeCommand followed by undo gives the engine back exactly the match it had, the undo stack as it was and the command alone on the redo stack; off the grid executeCommand raises and nothing changes. |
| History.RedoThenUndo | src/main/java/com/mycompany/javagrid4/commands/CommandHistory.java:44-67 | redo followed by undo gives the engine back exactly the match it had and both stacks as they were; a redo that raises (off the grid) changes no match. |
| PlayerSetup.DefaultName | src/main/java/com/mycompany/javagrid4/models/PlayerConfig.java:23 | "Player " followed by digits that read back as the id. |
| PlayerSetup.DefaultColor | src/main/java/com/mycompany/javagrid4/models/PlayerConfig.java:24-26 | RGB components in 0..255; the red one dominates exactly for id 1. |
| PlayerSetup.IsValidEntry | src/main/java/com/mycompany/javagrid4/models/PlayerConfig.java:85-90 | Valid exactly when the name and colour are present, some character of the name is above U+0020 (trim leaves something) and the untrimmed name has at most 10 UTF-16 units. |
| PlayerSetup.DefaultIsValid | src/main/java/com/mycompany/javagrid4/models/PlayerConfig.java:21-27 | The default configuration is valid exactly for ids -99..999, so for ids 1 and 2. |
| PlayerSetup.PaddingCounts | src/main/java/com/mycompany/javagrid4/models/PlayerConfig.java:88 | Surrounding spaces count against the limit: a valid 10-unit name with a leading space trims to the same text but is rejected. |
| PlayerSetup.PlayerConfig.constructor | src/main/java/com/mycompany/javagrid4/models/PlayerConfig.java:21-27 | The id, the default name and the default colour. |
| PlayerSetup.PlayerConfig.WithValues | src/main/java/com/mycompany/javagrid4/models/PlayerConfig.java:35-39 | Stores what it is given, unchecked. |
| PlayerSetup.PlayerConfig.SetName | src/main/java/com/mycompany/javagrid4/models/PlayerConfig.java:61-63 | Only the name changes; the id is a constant. |
| PlayerSetup.PlayerConfig.SetColor | src/main/java/com/mycompany/javagrid4/models/PlayerConfig.java:77-79 | Only the colour changes; the id is a constant. |
| PlayerSetup.PlayerConfig.IsValid | src/main/java/com/mycompany/javagrid4/models/PlayerConfig.java:85-90 | A player entry is valid exactly as PlayerSetup.IsValidEntry states for its name and colour. |
| GameSetup.AllowedBoardSize | src/main/java/com/mycompany/javagrid4/models/GameConfig.java:84 | The sizes setBoardSize accepts are exactly those the engine accepts. |
| GameSetup.GameConfig.constructor | src/main/java/com/mycompany/javagrid4/models/GameConfig.java:21-25 | Fresh default players 1 and 2 and board size 3. |
| GameSetup.GameConfig.WithValues | src/main/java/com/mycompany/javagrid4/models/GameConfig.java:33-37 | Stores what it is given; the size is not checked. |
| GameSetup.GameConfig.SetPlayer1 | src/main/java/com/mycompany/javagrid4/models/GameConfig.java:51-53 | Only player 1 changes. |
| GameSetup.GameConfig.SetPlayer2 | src/main/java/com/mycompany/javagrid4/models/GameConfig.java:67-69 | Only player 2 changes. |
| GameSetup.GameConfig.SetBoardSize | src/main/java/com/mycompany/javagrid4/models/GameConfig.java:83-88 | A size other than 3, 5 or 7 raises and the size stays; otherwise the size is stored; the players are untouched. |
| GameSetup.GameConfig.IsValid | src/main/java/com/mycompany/javagrid4/models/GameConfig.java:94-98 | Both player entries present and valid, and the board size 3, 5 or 7. |
| GameSetup.DefaultConfigIsValid | src/main/java/com/mycompany/javagrid4/models/GameConfig.java:21-25 | The default configuration is valid, with size 3. |
| GameSetup.UncheckedSizeIsInvalid | src/main/java/com/mycompany/javagrid4/models/GameConfig.java:33-37 | With valid players, the unchecked constructor's config is valid exactly when the size is 3, 5 or 7. |
| Text.IntToStringRoundTrip | src/main/java/com/mycompany/javagrid4/models/PlayerConfig.java:23 | Parsing an int's decimal rendering gives the int back. |
| Text.IntToStringInjective | src/main/java/com/mycompany/javagrid4/commands/MoveCommand.java:131 | Different ints render differently. |
| Text.IntToStringAtMostThree | src/main/java/com/mycompany/javagrid4/models/PlayerConfig.java:88 | An int renders in at most three characters exactly when it is in -99..999. |
| Text.TrimEmpty | src/main/java/com/mycompany/javagrid4/models/PlayerConfig.java:87 | trim gives the empty string exactly when every character is at most U+0020. |
| Text.TrimIsInfix | src/main/java/com/mycompany/javagrid4/models/PlayerConfig.java:87 | trim's result is a contiguous part of the string. |

## Left out

- The Swing user interface, animations and effects, sound and the game
  timer. They are screens, timers, floating point, threads and the wall
  clock; none of them holds game rules.
- The GamePanel controller, which calls `switchPlayer` after
  `executeCommand`, `undo` and `redo`. `Commands.MoveCommand.Undo` restores
  the player to move as recorded; the controller's extra switch is not
  modelled.
- `GameCommand` is an interface with no behaviour. `CommandHistory` is
  specialised to `MoveCommand`.
- `GameEngine.getGameState` returns the `GameState` object itself. The
  engine's `gameState` field plays that part. `GameEngine.setWinner` is an
  empty method and is not modelled.
- `GameState.setScore` and `GameState.setCurrentPlayer` are called but not
  defined in `GameState.java`. They are modelled as plain field setters.
- The getters of `GameConfig` and `PlayerConfig` are plain field reads and
  are not separate members. The `toString` methods of both configs are not
  modelled: they exist for display only.
- `java.awt.Color` is an RGB triple compared by equality.
- Java's 32-bit `int` is modelled as an unbounded integer. On a match
  reached by moves, each score equals the number of cells its player owns
  (Rules.PlayAllConsistent), which is at most 49, so scores cannot wrap.
  Positions and sizes outside the int range are not modelled.
- Commands.MoveCommand.Undo: requires that `execute` has captured a
  snapshot. In Java, `undo` before any `execute` would fail on null arrays.
- History.CommandHistory.Undo: requires the top command's engine to satisfy
  the engine invariant (arrays of the recorded size). The Java does not
  state this; every engine built through the constructor keeps it.
- History.CommandHistory.Redo: the same requirement as Undo, for the top
  of the redo stack.
- Engine.GameEngine.ApplyMove: the player is always one of the two
  constants. Java also accepts a null `Player`: the cells it claims get a
  null owner, and `addScore` gives its points to player two.
- MatchState.GameState.AddScore and MatchState.GameState.GetScore: a null
  `Player` is not modelled. In Java, any player other than `PLAYER_ONE`,
  null included, reads and adds to `player2Score`.
- Commands.MoveCommand.GetDescription: row and column are rendered with
  ASCII digits, as `Integer.toString` writes them. Java's `String.format`
  with `%d` uses the default locale, which may use other digits.
- `String.length()` is counted in UTF-16 code units; characters above
  U+FFFF count twice. Unicode normalisation is not modelled.
