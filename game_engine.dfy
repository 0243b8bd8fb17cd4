/** The rules engine (src/main/java/com/mycompany/javagrid4/GameEngine.java):
    an N-by-N grid kept in two 2-D arrays, one of values and one of owners,
    updated in place, plus the GameState object holding scores, turn and the
    game-over flag. Every mutating method is proved against the pure rules in
    module Rules, through the abstraction View(). */
module Engine {
  import opened Common
  import opened Players
  import opened MatchState
  import opened Rules

  class GameEngine {
    var gridSize: int
    var cellValues: array2<int>
    var cellOwners: array2<Option<Player>>
    var gameState: GameState

    /** The two arrays read as one board of cells. */
    ghost var board: Board

    /** The object invariant: a legal size, both arrays of that size, and the
        board agreeing with them cell by cell, every value in 0..4. */
    ghost predicate Valid()
      reads this, cellValues, cellOwners
    {
      && ValidGridSize(gridSize)
      && Shaped()
      && |board| == gridSize && WellFormed(board)
      && forall i, j :: 0 <= i < gridSize && 0 <= j < gridSize ==>
        board[i][j] == Cell(cellValues[i, j], cellOwners[i, j])
    }

    /** Arrays whose lengths match the grid size. */
    ghost predicate Shaped()
      reads this
    {
      && cellValues.Length0 == gridSize && cellValues.Length1 == gridSize
      && cellOwners.Length0 == gridSize && cellOwners.Length1 == gridSize
    }

    /** The size, the arrays and the GameState object are the ones from before. */
    twostate predicate Kept()
      reads this
    {
      && gridSize == old(gridSize) && cellValues == old(cellValues)
      && cellOwners == old(cellOwners) && gameState == old(gameState)
    }

    /** The whole match as a value. */
    ghost function View(): Game
      reads this, gameState
    {
      Game(board, gameState.player1Score, gameState.player2Score, gameState.currentPlayer, gameState.gameOver)
    }

    /** The constructor after its size check: a fresh board and a fresh GameState. */
    constructor (size: int)
      requires ValidGridSize(size)
      ensures Valid() && fresh(cellValues) && fresh(cellOwners) && fresh(gameState)
      ensures gridSize == size && View() == Fresh(size)
    {
      gridSize := size;
      cellValues := new int[size, size];
      cellOwners := new Option<Player>[size, size];
      gameState := new GameState();
      new;
      InitializeGrid();
    }

    /** initializeGrid: every value 0 and every owner null, row by row. */
    method InitializeGrid()
      requires Shaped()
      modifies this, cellValues, cellOwners
      ensures Kept()
      ensures ValidGridSize(gridSize) ==> Valid()
      ensures board == EmptyBoard(gridSize)
    {
      var row := 0;
      while row < gridSize
        modifies cellValues, cellOwners
        invariant 0 <= row <= gridSize || (gridSize < 0 && row == 0)
        invariant forall i, j :: 0 <= i < row && 0 <= j < gridSize ==> cellValues[i, j] == 0 && cellOwners[i, j] == None
      {
        var col := 0;
        while col < gridSize
          modifies cellValues, cellOwners
          invariant 0 <= col <= gridSize
          invariant forall i, j :: 0 <= i < row && 0 <= j < gridSize ==> cellValues[i, j] == 0 && cellOwners[i, j] == None
          invariant forall j :: 0 <= j < col ==> cellValues[row, j] == 0 && cellOwners[row, j] == None
        {
          cellValues[row, col] := 0;
          cellOwners[row, col] := None;
          col := col + 1;
        }
        row := row + 1;
      }
      board := EmptyBoard(gridSize);
    }

    /** getGridSize. */
    function GetGridSize(): (n: int)
      reads this, cellValues, cellOwners
      requires Valid()
      ensures n == |board| && (n == 3 || n == 5 || n == 7)
    {
      gridSize
    }

    /** getCellValue: the value at a position, an error off the grid. */
    function GetCellValue(row: int, col: int): (r: Result<int>)
      reads this, cellValues, cellOwners
      requires Valid()
      ensures r.Err? <==> !InBounds(gridSize, row, col)
      ensures r.Ok? ==> r.value == board[row][col].value && 0 <= r.value <= MaxCellValue
      ensures r.Err? ==> r.error == OutOfBounds(row, col)
    {
      if !InBounds(gridSize, row, col) then Err(OutOfBounds(row, col)) else Ok(cellValues[row, col])
    }

    /** getCellOwner: the owner at a position (None when neutral), an error off the grid. */
    function GetCellOwner(row: int, col: int): (r: Result<Option<Player>>)
      reads this, cellValues, cellOwners
      requires Valid()
      ensures r.Err? <==> !InBounds(gridSize, row, col)
      ensures r.Ok? ==> r.value == board[row][col].owner
      ensures r.Err? ==> r.error == OutOfBounds(row, col)
    {
      if !InBounds(gridSize, row, col) then Err(OutOfBounds(row, col)) else Ok(cellOwners[row, col])
    }

    /** setCellOwner (used by undo): overwrites one owner; an error off the grid. */
    method SetCellOwner(row: int, col: int, owner: Option<Player>) returns (r: Result<()>)
      requires Valid()
      modifies this, cellOwners
      ensures Valid() && Kept()
      ensures r.Err? <==> !InBounds(gridSize, row, col)
      ensures r.Ok? ==> board == SetCell(old(board), (row, col), Cell(old(board)[row][col].value, owner))
      ensures r.Err? ==> r.error == OutOfBounds(row, col) && board == old(board)
    {
      if !InBounds(gridSize, row, col) {
        return Err(OutOfBounds(row, col));
      }
      cellOwners[row, col] := owner;
      board := SetCell(board, (row, col), Cell(board[row][col].value, owner));
      return Ok(());
    }

    /** setCellValue (used by undo): the position is checked first, then the
        value must lie in 0..4; on either error nothing changes. */
    method SetCellValue(row: int, col: int, value: int) returns (r: Result<()>)
      requires Valid()
      modifies this, cellValues
      ensures Valid() && Kept()
      ensures r.Ok? <==> InBounds(gridSize, row, col) && 0 <= value <= MaxCellValue
      ensures r.Ok? ==> board == SetCell(old(board), (row, col), Cell(value, old(board)[row][col].owner))
      ensures r.Err? ==> board == old(board)
      ensures r.Err? ==> r.error == if InBounds(gridSize, row, col) then InvalidCellValue(value) else OutOfBounds(row, col)
    {
      if !InBounds(gridSize, row, col) {
        return Err(OutOfBounds(row, col));
      }
      if value < 0 || value > MaxCellValue {
        return Err(InvalidCellValue(value));
      }
      cellValues[row, col] := value;
      board := SetCell(board, (row, col), Cell(value, board[row][col].owner));
      return Ok(());
    }

    /** applyMove: proved to do exactly what Rules.Apply describes. The
        position is checked before the game-over guard. */
    method ApplyMove(row: int, col: int, player: Player) returns (r: Result<nat>)
      requires Valid()
      modifies this, cellValues, cellOwners, gameState
      ensures Valid() && Kept()
      ensures Apply(old(View()), row, col, player) ==
        if r.Ok? then Ok(MoveResult(View(), r.value)) else Err(r.error)
      ensures r.Err? ==> View() == old(View())
    {
      if !InBounds(gridSize, row, col) {
        return Err(OutOfBounds(row, col));
      }
      if gameState.gameOver {
        return Ok(0);
      }
      ghost var g0 := View();
      var pointsAwarded := IncrementNeighbourhood(row, col, player);
      ghost var m := Move(g0.board, row, col, player);
      assert View() == g0.(board := m.0);
      if pointsAwarded > 0 {
        gameState.AddScore(player, pointsAwarded);
      }
      assert View() == (if m.1 > 0 then AddScore(g0, player, m.1) else g0).(board := m.0);
      CheckGameEnd();
      return Ok(pointsAwarded);
    }

    /** The five incrementAndCheck calls of applyMove, in their order: the
        clicked cell, then up, down, left and right when on the grid. The
        points are those the calls award together. */
    method IncrementNeighbourhood(row: int, col: int, player: Player) returns (pointsAwarded: nat)
      requires Valid() && InBounds(gridSize, row, col)
      modifies this, cellValues, cellOwners
      ensures Valid() && Kept()
      ensures (board, pointsAwarded) == Move(old(board), row, col, player)
    {
      ghost var b0 := board;
      pointsAwarded := IncrementColumn(row, col, player);
      pointsAwarded := IncrementRow(row, col, player, pointsAwarded);
      MoveSteps(b0, row, col, player);
    }

    /** The first three calls: the clicked cell, then up and down when on the grid. */
    method IncrementColumn(row: int, col: int, player: Player) returns (pointsAwarded: nat)
      requires Valid() && InBounds(gridSize, row, col)
      modifies this, cellValues, cellOwners
      ensures Valid() && Kept()
      ensures (board, pointsAwarded) ==
        StepIf(StepIf(Step((old(board), 0), (row, col), player),
          row > 0, (row - 1, col), player), row < gridSize - 1, (row + 1, col), player)
    {
      pointsAwarded := IncrementAndAdd(row, col, player, 0);
      ghost var acc := (board, pointsAwarded);
      if row > 0 {
        pointsAwarded := IncrementAndAdd(row - 1, col, player, pointsAwarded);
      }
      acc := StepIf(acc, row > 0, (row - 1, col), player);
      assert (board, pointsAwarded) == acc;
      if row < gridSize - 1 {
        pointsAwarded := IncrementAndAdd(row + 1, col, player, pointsAwarded);
      }
    }

    /** The last two calls: left and right when on the grid. */
    method IncrementRow(row: int, col: int, player: Player, total: nat) returns (pointsAwarded: nat)
      requires Valid() && InBounds(gridSize, row, col)
      modifies this, cellValues, cellOwners
      ensures Valid() && Kept()
      ensures (board, pointsAwarded) ==
        StepIf(StepIf((old(board), total), col > 0, (row, col - 1), player), col < gridSize - 1, (row, col + 1), player)
    {
      pointsAwarded := total;
      if col > 0 {
        pointsAwarded := IncrementAndAdd(row, col - 1, player, pointsAwarded);
      }
      ghost var acc := StepIf((old(board), total), col > 0, (row, col - 1), player);
      assert (board, pointsAwarded) == acc;
      if col < gridSize - 1 {
        pointsAwarded := IncrementAndAdd(row, col + 1, player, pointsAwarded);
      }
    }

    /** `pointsAwarded += incrementAndCheck(row, col, player)`. */
    method IncrementAndAdd(row: int, col: int, player: Player, total: nat) returns (total': nat)
      requires Valid() && InBounds(gridSize, row, col)
      modifies this, cellValues, cellOwners
      ensures Valid() && Kept()
      ensures (board, total') == Step((old(board), total), (row, col), player)
    {
      var point := IncrementAndCheck(row, col, player);
      total' := total + point;
    }

    /** incrementAndCheck on one on-grid cell. */
    method IncrementAndCheck(row: int, col: int, player: Player) returns (point: nat)
      requires Valid() && InBounds(gridSize, row, col)
      modifies this, cellValues, cellOwners
      ensures Valid() && Kept()
      ensures var step := Rules.IncrementAndCheck(old(board)[row][col], player);
        board == SetCell(old(board), (row, col), step.0) && point == step.1
    {
      ghost var step := Rules.IncrementAndCheck(old(board)[row][col], player);
      point := 0;
      if cellValues[row, col] < MaxCellValue {
        cellValues[row, col] := cellValues[row, col] + 1;
        if cellValues[row, col] == MaxCellValue && cellOwners[row, col] == None {
          cellOwners[row, col] := Some(player);
          point := 1;
        }
      }
      board := SetCell(board, (row, col), step.0);
    }

    /** checkGameEnd: scans the grid row by row and raises the game-over flag
        when every cell is 4; it never lowers the flag. */
    method CheckGameEnd()
      requires Valid()
      modifies gameState
      ensures View() == Rules.CheckGameEnd(old(View()))
    {
      var row := 0;
      while row < gridSize
        invariant 0 <= row <= gridSize
        invariant forall i, j :: 0 <= i < row && 0 <= j < gridSize ==> cellValues[i, j] == MaxCellValue
      {
        var col := 0;
        while col < gridSize
          invariant 0 <= col <= gridSize
          invariant forall j :: 0 <= j < col ==> cellValues[row, j] == MaxCellValue
        {
          if cellValues[row, col] < MaxCellValue {
            assert board[row][col].value < MaxCellValue;
            return;
          }
          col := col + 1;
        }
        row := row + 1;
      }
      gameState.SetGameOver(true);
    }

    /** isGameOver. */
    function IsGameOver(): (over: bool)
      reads this, gameState
      ensures over == View().over
    {
      gameState.gameOver
    }

    /** getScore. */
    function GetScore(p: Player): (s: int)
      reads this, gameState
      ensures s == View().Score(p)
    {
      gameState.GetScore(p)
    }

    /** getCurrentPlayer. */
    function GetCurrentPlayer(): (p: Player)
      reads this, gameState
      ensures p == View().current
    {
      gameState.currentPlayer
    }

    /** getWinner: delegates to the GameState. */
    function GetWinner(): (w: Option<Player>)
      reads this, gameState
      ensures w.Some? ==> GetScore(w.value) > GetScore(w.value.Opponent())
      ensures w.None? <==> GetScore(PlayerOne) == GetScore(PlayerTwo)
    {
      gameState.GetWinner()
    }

    /** setCurrentPlayer (used by undo). */
    method SetCurrentPlayer(p: Player)
      modifies gameState
      ensures View() == old(View()).(current := p)
    {
      gameState.SetCurrentPlayer(p);
    }

    /** setGameOver (used by undo). */
    method SetGameOver(over: bool)
      modifies gameState
      ensures View() == old(View()).(over := over)
    {
      gameState.SetGameOver(over);
    }

    /** resetBoard: the same size, an empty grid and a reset GameState. */
    method ResetBoard()
      requires Valid()
      modifies this, cellValues, cellOwners, gameState
      ensures Valid() && Kept() && View() == Fresh(gridSize)
    {
      InitializeGrid();
      gameState.Reset();
    }

    /** changeGridSize: rejects a size other than 3, 5 or 7 and changes
        nothing; otherwise new arrays of the new size, an empty grid and a
        reset GameState. */
    method ChangeGridSize(newGridSize: int) returns (r: Result<()>)
      requires Valid()
      modifies this, gameState
      ensures Valid() && gameState == old(gameState)
      ensures r.Ok? <==> ValidGridSize(newGridSize)
      ensures r.Ok? ==> gridSize == newGridSize && View() == Fresh(newGridSize)
      ensures r.Ok? ==> fresh(cellValues) && fresh(cellOwners)
      ensures r.Err? ==> r.error == InvalidGridSize(newGridSize)
      ensures r.Err? ==>
        && gridSize == old(gridSize) && cellValues == old(cellValues)
        && cellOwners == old(cellOwners) && View() == old(View())
    {
      if newGridSize < MinGridSize || newGridSize > MaxGridSize || newGridSize % 2 == 0 {
        return Err(InvalidGridSize(newGridSize));
      }
      gridSize := newGridSize;
      cellValues := new int[gridSize, gridSize];
      cellOwners := new Option<Player>[gridSize, gridSize];
      InitializeGrid();
      gameState.Reset();
      return Ok(());
    }
  }

  /** new GameEngine(size): raises for a size other than 3, 5 or 7; otherwise
      an engine with an empty size-by-size grid and a fresh GameState. */
  method NewGameEngine(size: int) returns (r: Result<GameEngine>)
    ensures r.Err? <==> !ValidGridSize(size)
    ensures r.Err? ==> r.error == InvalidGridSize(size)
    ensures r.Ok? ==>
      && fresh(r.value) && fresh(r.value.cellValues) && fresh(r.value.cellOwners)
      && fresh(r.value.gameState)
    ensures r.Ok? ==> r.value.Valid() && r.value.gridSize == size && r.value.View() == Fresh(size)
  {
    if size < MinGridSize || size > MaxGridSize || size % 2 == 0 {
      return Err(InvalidGridSize(size));
    }
    var e := new GameEngine(size);
    return Ok(e);
  }
}
