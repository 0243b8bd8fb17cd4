/** The whole setup handed from the menu screen to the game
    (src/main/java/com/mycompany/javagrid4/models/GameConfig.java): two
    player configurations, either of which may be null, and a board size. */
module GameSetup {
  import opened Common
  import Rules
  import opened PlayerSetup

  /** The board sizes setBoardSize and isValid accept: the same sizes the
      engine's constructor accepts. */
  function AllowedBoardSize(n: int): (ok: bool)
    ensures ok <==> Rules.ValidGridSize(n)
  {
    n == 3 || n == 5 || n == 7
  }

  class GameConfig {
    var player1: PlayerConfig?
    var player2: PlayerConfig?
    var boardSize: int

    /** The default setup: default players 1 and 2 and a 3-by-3 board. */
    constructor ()
      ensures player1 != null && player2 != null && fresh(player1) && fresh(player2)
      ensures player1.playerId == 1 && player1.name == Some(DefaultName(1)) && player1.color == Some(DefaultColor(1))
      ensures player2.playerId == 2 && player2.name == Some(DefaultName(2)) && player2.color == Some(DefaultColor(2))
      ensures boardSize == 3
    {
      player1 := new PlayerConfig(1);
      player2 := new PlayerConfig(2);
      boardSize := 3;
    }

    /** The three-argument constructor stores what it is given; the size is not checked. */
    constructor WithValues(player1: PlayerConfig?, player2: PlayerConfig?, boardSize: int)
      ensures this.player1 == player1 && this.player2 == player2 && this.boardSize == boardSize
    {
      this.player1 := player1;
      this.player2 := player2;
      this.boardSize := boardSize;
    }

    /** setPlayer1. */
    method SetPlayer1(player1: PlayerConfig?)
      modifies this
      ensures this.player1 == player1 && player2 == old(player2) && boardSize == old(boardSize)
    {
      this.player1 := player1;
    }

    /** setPlayer2. */
    method SetPlayer2(player2: PlayerConfig?)
      modifies this
      ensures this.player2 == player2 && player1 == old(player1) && boardSize == old(boardSize)
    {
      this.player2 := player2;
    }

    /** setBoardSize: a size other than 3, 5 or 7 raises and nothing changes;
        otherwise the size is stored. */
    method SetBoardSize(boardSize: int) returns (r: Result<()>)
      modifies this
      ensures r.Ok? <==> AllowedBoardSize(boardSize)
      ensures r.Ok? ==> this.boardSize == boardSize
      ensures r.Err? ==> r.error == InvalidBoardSize(boardSize) && this.boardSize == old(this.boardSize)
      ensures player1 == old(player1) && player2 == old(player2)
    {
      if boardSize != 3 && boardSize != 5 && boardSize != 7 {
        return Err(InvalidBoardSize(boardSize));
      }
      this.boardSize := boardSize;
      return Ok(());
    }

    /** isValid: both players present and valid, and an accepted size. */
    predicate IsValid()
      reads this, player1, player2
    {
      && player1 != null && player1.IsValid()
      && player2 != null && player2.IsValid()
      && AllowedBoardSize(boardSize)
    }
  }

  /** The default setup is valid. */
  method DefaultConfigIsValid() returns (config: GameConfig)
    ensures fresh(config) && config.IsValid() && config.boardSize == 3
  {
    config := new GameConfig();
    DefaultIsValid(1);
    DefaultIsValid(2);
  }

  /** The three-argument constructor accepts a size that isValid rejects,
      even when both players are valid. */
  method UncheckedSizeIsInvalid(player1: PlayerConfig, player2: PlayerConfig, boardSize: int)
    returns (config: GameConfig)
    requires player1.IsValid() && player2.IsValid()
    ensures fresh(config) && config.boardSize == boardSize
    ensures config.IsValid() <==> AllowedBoardSize(boardSize)
  {
    config := new GameConfig.WithValues(player1, player2, boardSize);
  }
}
