/** One player's move as an undoable command
    (src/main/java/com/mycompany/javagrid4/commands/MoveCommand.java).
    execute records the cells the move will touch, the scores, the current
    player and the game-over flag, and then applies the move; undo writes
    that record back into the engine. */
module Commands {
  import opened Common
  import opened Players
  import opened Rules
  import opened Engine
  import opened Snapshots
  import Text

  class MoveCommand {
    const gameEngine: GameEngine
    const row: int
    const col: int
    const player: Player

    var previousCellValues: seq<int>
    var previousCellOwners: seq<Option<Player>>
    var cellPositions: seq<int>
    var previousCurrentPlayer: Option<Player>
    var wasGameOver: bool
    var previousPlayer1Score: int
    var previousPlayer2Score: int
    var pointsAwarded: nat

    /** Whether a captureState has completed, so that the cell arrays exist. */
    ghost var captured: bool

    /** Once captured, the three arrays agree in length and the player is recorded. */
    ghost predicate Valid()
      reads this
    {
      captured ==>
        && |cellPositions| == 2 * |previousCellValues|
        && |previousCellOwners| == |previousCellValues|
        && previousCurrentPlayer.Some?
    }

    /** The recorded state as a snapshot value. */
    ghost function Snap(): (s: Snapshot)
      reads this
      requires Valid() && captured
      ensures Shaped(s)
    {
      Snapshot(cellPositions, previousCellValues, previousCellOwners, previousCurrentPlayer.value,
        wasGameOver, previousPlayer1Score, previousPlayer2Score)
    }

    /** The constructor only stores the engine, the position and the player. */
    constructor (gameEngine: GameEngine, row: int, col: int, player: Player)
      ensures this.gameEngine == gameEngine && this.row == row && this.col == col && this.player == player
      ensures Valid() && !captured && pointsAwarded == 0
      ensures previousCurrentPlayer == None
    {
      this.gameEngine := gameEngine;
      this.row := row;
      this.col := col;
      this.player := player;
      previousCellValues := [];
      previousCellOwners := [];
      cellPositions := [];
      previousCurrentPlayer := None;
      wasGameOver := false;
      previousPlayer1Score := 0;
      previousPlayer2Score := 0;
      pointsAwarded := 0;
      captured := false;
    }

    /** captureState: the current player, the flag and both scores are
        recorded first; reading the clicked cell then raises for an off-grid
        position, leaving the cell arrays as they were. Otherwise the arrays
        are rebuilt for the clicked cell and its on-grid neighbours. */
    method CaptureState() returns (r: Result<()>)
      requires Valid() && gameEngine.Valid()
      modifies this
      ensures Valid()
      ensures var g := gameEngine.View();
        && previousCurrentPlayer == Some(g.current) && wasGameOver == g.over
        && previousPlayer1Score == g.score1 && previousPlayer2Score == g.score2
      ensures pointsAwarded == old(pointsAwarded)
      ensures r.Ok? <==> InBounds(gameEngine.gridSize, row, col)
      ensures r.Ok? ==> captured && Snap() == Capture(old(gameEngine.View()), row, col)
      ensures r.Err? ==>
        && r.error == OutOfBounds(row, col) && captured == old(captured)
        && cellPositions == old(cellPositions) && previousCellValues == old(previousCellValues)
        && previousCellOwners == old(previousCellOwners)
    {
      RecordScalars();
      var gridSize := gameEngine.GetGridSize();
      var clicked := gameEngine.GetCellValue(row, col);
      if clicked.Err? {
        return Err(clicked.error);
      }
      var positions, values, owners := ReadCells(gridSize, clicked.value);
      ghost var g := gameEngine.View();
      cellPositions, previousCellValues, previousCellOwners := positions, values, owners;
      captured := true;
      assert Snap() == Capture(g, row, col);
      return Ok(());
    }

    /** The first part of captureState: the current player, the game-over flag
        and both scores, before any cell is read. */
    method RecordScalars()
      requires Valid() && gameEngine.Valid()
      modifies this
      ensures Valid()
      ensures var g := gameEngine.View();
        && previousCurrentPlayer == Some(g.current) && wasGameOver == g.over
        && previousPlayer1Score == g.score1 && previousPlayer2Score == g.score2
      ensures pointsAwarded == old(pointsAwarded) && captured == old(captured)
      ensures cellPositions == old(cellPositions) && previousCellValues == old(previousCellValues)
      ensures previousCellOwners == old(previousCellOwners)
    {
      var current, over := gameEngine.GetCurrentPlayer(), gameEngine.IsGameOver();
      var score1, score2 := gameEngine.GetScore(PlayerOne), gameEngine.GetScore(PlayerTwo);
      previousCurrentPlayer, wasGameOver := Some(current), over;
      previousPlayer1Score, previousPlayer2Score := score1, score2;
    }

    /** The cell-reading part of captureState: the clicked cell, then each
        on-grid neighbour, in the order up, down, left, right. */
    method ReadCells(gridSize: int, clicked: int)
      returns (positions: seq<int>, values: seq<int>, owners: seq<Option<Player>>)
      requires gameEngine.Valid() && gridSize == gameEngine.gridSize && InBounds(gridSize, row, col)
      requires clicked == gameEngine.board[row][col].value
      ensures |positions| == 2 * |values| && |owners| == |values|
      ensures var s := Capture(gameEngine.View(), row, col);
        positions == s.positions && values == s.values && owners == s.owners
    {
      ghost var b := gameEngine.board;
      positions := [row, col];
      values := [clicked];
      owners := [gameEngine.GetCellOwner(row, col).value];
      ghost var acc := Add(([], [], []), b, (row, col));
      assert [] + [row, col] == positions && [] + values == values && [] + owners == owners;
      assert (positions, values, owners) == acc;
      if row > 0 {
        positions := positions + [row - 1, col];
        values := values + [gameEngine.GetCellValue(row - 1, col).value];
        owners := owners + [gameEngine.GetCellOwner(row - 1, col).value];
      }
      acc := AddIf(acc, row > 0, b, (row - 1, col));
      assert (positions, values, owners) == acc;
      if row < gridSize - 1 {
        positions := positions + [row + 1, col];
        values := values + [gameEngine.GetCellValue(row + 1, col).value];
        owners := owners + [gameEngine.GetCellOwner(row + 1, col).value];
      }
      acc := AddIf(acc, row < gridSize - 1, b, (row + 1, col));
      assert (positions, values, owners) == acc;
      if col > 0 {
        positions := positions + [row, col - 1];
        values := values + [gameEngine.GetCellValue(row, col - 1).value];
        owners := owners + [gameEngine.GetCellOwner(row, col - 1).value];
      }
      acc := AddIf(acc, col > 0, b, (row, col - 1));
      assert (positions, values, owners) == acc;
      if col < gridSize - 1 {
        positions := positions + [row, col + 1];
        values := values + [gameEngine.GetCellValue(row, col + 1).value];
        owners := owners + [gameEngine.GetCellOwner(row, col + 1).value];
      }
      acc := AddIf(acc, col < gridSize - 1, b, (row, col + 1));
      assert (positions, values, owners) == acc;
      assert acc == CaptureChain(b, row, col);
      CaptureSteps(gameEngine.View(), row, col);
    }

    /** execute: the snapshot is taken strictly before applyMove, and the move
        is applied for the stored player whoever's turn it is. An off-grid
        position raises from captureState and applyMove is not reached. */
    method Execute() returns (r: Result<()>)
      requires Valid() && gameEngine.Valid()
      modifies this, gameEngine, gameEngine.cellValues, gameEngine.cellOwners, gameEngine.gameState
      ensures Valid() && gameEngine.Valid() && gameEngine.Kept()
      ensures var g := old(gameEngine.View());
        && previousCurrentPlayer == Some(g.current) && wasGameOver == g.over
        && previousPlayer1Score == g.score1 && previousPlayer2Score == g.score2
      ensures r.Ok? <==> InBounds(gameEngine.gridSize, row, col)
      ensures r.Ok? ==> captured && Snap() == Capture(old(gameEngine.View()), row, col)
      ensures r.Ok? ==>
        Apply(old(gameEngine.View()), row, col, player) == Ok(MoveResult(gameEngine.View(), pointsAwarded))
      ensures r.Err? ==>
        && r.error == OutOfBounds(row, col) && captured == old(captured)
        && gameEngine.View() == old(gameEngine.View()) && pointsAwarded == old(pointsAwarded)
        && cellPositions == old(cellPositions) && previousCellValues == old(previousCellValues)
        && previousCellOwners == old(previousCellOwners)
    {
      r := CaptureState();
      if r.Err? {
        return;
      }
      var applied := gameEngine.ApplyMove(row, col, player);
      assert applied.Ok?;
      pointsAwarded := applied.value;
    }

    /** undo: writes each recorded (value, owner) pair back through
        setCellValue and setCellOwner, then both scores, the current player and
        the game-over flag. A write that raises stops the loop there. */
    method Undo() returns (r: Result<()>)
      requires Valid() && captured && gameEngine.Valid()
      modifies gameEngine, gameEngine.cellValues, gameEngine.cellOwners, gameEngine.gameState
      ensures gameEngine.Valid() && gameEngine.Kept()
      ensures Restore(old(gameEngine.View()), Snap()) ==
        (gameEngine.View(), if r.Ok? then None else Some(r.error))
    {
      ghost var b := gameEngine.board;
      ghost var s := Snap();
      var i := 0;
      while i < |previousCellValues|
        invariant 0 <= i <= |previousCellValues|
        invariant gameEngine.Valid() && gameEngine.Kept()
        invariant WriteBack(b, s, i) == (gameEngine.board, None)
        invariant gameEngine.View() == old(gameEngine.View()).(board := gameEngine.board)
      {
        var written := WriteBackCell(i, b, s);
        if written.Err? {
          WriteBackStops(b, s, i + 1, |s.values|);
          return written;
        }
        i := i + 1;
      }
      gameEngine.gameState.SetScore(PlayerOne, previousPlayer1Score);
      gameEngine.gameState.SetScore(PlayerTwo, previousPlayer2Score);
      gameEngine.SetCurrentPlayer(previousCurrentPlayer.value);
      gameEngine.SetGameOver(wasGameOver);
      return Ok(());
    }

    /** One iteration of undo's write-back loop: setCellValue, which checks
        the position and then the value, and then setCellOwner. */
    method WriteBackCell(i: int, ghost b: Board, ghost s: Snapshot) returns (r: Result<()>)
      requires Valid() && captured && gameEngine.Valid() && s == Snap()
      requires IsSquare(b) && |b| == gameEngine.gridSize && 0 <= i < |previousCellValues|
      requires WriteBack(b, s, i) == (gameEngine.board, None)
      modifies gameEngine, gameEngine.cellValues, gameEngine.cellOwners
      ensures gameEngine.Valid() && gameEngine.Kept()
      ensures gameEngine.View() == old(gameEngine.View()).(board := gameEngine.board)
      ensures WriteBack(b, s, i + 1) == (gameEngine.board, if r.Ok? then None else Some(r.error))
    {
      var r0, c0 := cellPositions[i * 2], cellPositions[i * 2 + 1];
      ghost var before: Board := gameEngine.board;
      r := gameEngine.SetCellValue(r0, c0, previousCellValues[i]);
      if r.Err? {
        WriteBackFails(b, s, i + 1);
        return;
      }
      r := gameEngine.SetCellOwner(r0, c0, previousCellOwners[i]);
      assert r.Ok?;
      SetCellTwice(before, (r0, c0), Cell(previousCellValues[i], before[r0][c0].owner),
        Cell(previousCellValues[i], previousCellOwners[i]));
      WriteBackStep(b, s, i + 1);
    }

    /** getDescription: "Move by <enum name> at (<row>, <col>)". */
    function GetDescription(): (d: string)
      ensures |d| > 25 && d[..15] == "Move by PLAYER_"
    {
      ("Move by " + player.Name() + " at (") + (Text.IntToString(row) + ", " + (Text.IntToString(col) + ")"))
    }
  }

  /** Two descriptions are equal exactly when the commands have the same
      player and position: the description identifies the move. */
  lemma DescriptionIdentifiesMove(a: MoveCommand, b: MoveCommand)
    ensures a.GetDescription() == b.GetDescription() <==>
      a.player == b.player && a.row == b.row && a.col == b.col
  {
    if a.GetDescription() == b.GetDescription() {
      DescriptionParts(a.player, a.row, a.col, b.player, b.row, b.col);
    }
  }

  /** The text of a move description can be taken apart again into its
      player, row and column. */
  lemma DescriptionParts(p: Player, r: int, c: int, p': Player, r': int, c': int)
    requires ("Move by " + p.Name() + " at (") + (Text.IntToString(r) + ", " + (Text.IntToString(c) + ")")) ==
      ("Move by " + p'.Name() + " at (") + (Text.IntToString(r') + ", " + (Text.IntToString(c') + ")"))
    ensures p == p' && r == r' && c == c'
  {
    var pa, pb := "Move by " + p.Name() + " at (", "Move by " + p'.Name() + " at (";
    var ca, cb := Text.IntToString(c), Text.IntToString(c');
    var ta := Text.IntToString(r) + ", " + (ca + ")");
    var tb := Text.IntToString(r') + ", " + (cb + ")");
    assert |pa| == 23 == |pb|;
    assert pa == (pa + ta)[..23] && pb == (pb + tb)[..23];
    assert ta == (pa + ta)[23..] && tb == (pb + tb)[23..];
    assert p.Name() == pa[8..18] && p'.Name() == pb[8..18];
    NameIdentifiesPlayer(p, p');
    SplitAtComma(r, ca + ")", r', cb + ")");
    assert ca == (ca + ")")[..|ca|] && cb == (cb + ")")[..|cb|];
    Text.IntToStringInjective(c, c');
  }

  /** The enum names of the two players differ. */
  lemma NameIdentifiesPlayer(p: Player, q: Player)
    ensures p.Name() == q.Name() <==> p == q
  {
    if p != q {
      assert p.Name()[8] != q.Name()[8];
    }
  }

  /** The rendering of an int followed by ", " and a rest can be split apart
      again, because Integer.toString never produces a comma. */
  lemma SplitAtComma(m: int, y: string, m': int, y': string)
    requires Text.IntToString(m) + ", " + y == Text.IntToString(m') + ", " + y'
    ensures m == m' && y == y'
  {
    var x, x' := Text.IntToString(m), Text.IntToString(m');
    Text.IntToStringChars(m);
    Text.IntToStringChars(m');
    var t := x + ", " + y;
    assert t == x' + ", " + y';
    assert t[|x|] == ',' && t[|x'|] == ',';
    assert forall i :: 0 <= i < |x| ==> t[i] == x[i];
    assert forall i :: 0 <= i < |x'| ==> t[i] == x'[i];
    assert |x| == |x'|;
    assert x == t[..|x|] == x';
    assert y == t[|x| + 2..] == y';
    Text.IntToStringInjective(m, m');
  }

  /** execute then undo leaves the engine exactly as it was, whenever the
      position is on the grid; off the grid nothing changes either. */
  method ExecuteThenUndo(command: MoveCommand) returns (r: Result<()>)
    requires command.Valid() && command.gameEngine.Valid()
    modifies command, command.gameEngine, command.gameEngine.cellValues, command.gameEngine.cellOwners,
      command.gameEngine.gameState
    ensures command.gameEngine.Valid() && command.gameEngine.Kept()
    ensures r.Ok? <==> InBounds(command.gameEngine.gridSize, command.row, command.col)
    ensures command.gameEngine.View() == old(command.gameEngine.View())
  {
    ghost var g := command.gameEngine.View();
    r := command.Execute();
    if r.Ok? {
      var undone := command.Undo();
      RestoreUndoesApply(g, command.row, command.col, command.player);
      assert undone.Ok?;
    }
  }
}
