/** Scores, whose turn it is and whether the match has ended
    (src/main/java/com/mycompany/javagrid4/GameState.java). The winner is
    derived from the two scores on demand and never stored. */
module MatchState {
  import opened Common
  import opened Players

  class GameState {
    var player1Score: int
    var player2Score: int
    var currentPlayer: Player
    var gameOver: bool

    /** The state of a match that has not started. */
    ghost predicate Initial()
      reads this
    {
      player1Score == 0 && player2Score == 0 && currentPlayer == PlayerOne && !gameOver
    }

    /** A new state: both scores 0, the first player to move, not over. */
    constructor ()
      ensures Initial()
    {
      player1Score := 0;
      player2Score := 0;
      currentPlayer := PlayerOne;
      gameOver := false;
    }

    /** getScore: the first player's score for PLAYER_ONE, the second's otherwise. */
    function GetScore(p: Player): int
      reads this
    {
      if p == PlayerOne then player1Score else player2Score
    }

    /** addScore: adds the points to the given player's score only. */
    method AddScore(p: Player, points: int)
      modifies this
      ensures GetScore(p) == old(GetScore(p)) + points
      ensures GetScore(p.Opponent()) == old(GetScore(p.Opponent()))
      ensures currentPlayer == old(currentPlayer) && gameOver == old(gameOver)
    {
      if p == PlayerOne {
        player1Score := player1Score + points;
      } else {
        player2Score := player2Score + points;
      }
    }

    /** setScore, used by undo: overwrites the given player's score only. */
    method SetScore(p: Player, score: int)
      modifies this
      ensures GetScore(p) == score
      ensures GetScore(p.Opponent()) == old(GetScore(p.Opponent()))
      ensures currentPlayer == old(currentPlayer) && gameOver == old(gameOver)
    {
      if p == PlayerOne {
        player1Score := score;
      } else {
        player2Score := score;
      }
    }

    /** switchPlayer: the opponent of the current player moves next. */
    method SwitchPlayer()
      modifies this
      ensures currentPlayer == old(currentPlayer).Opponent()
      ensures player1Score == old(player1Score) && player2Score == old(player2Score)
      ensures gameOver == old(gameOver)
    {
      currentPlayer := currentPlayer.Opponent();
    }

    /** setCurrentPlayer, used by undo. */
    method SetCurrentPlayer(p: Player)
      modifies this`currentPlayer
      ensures currentPlayer == p
    {
      currentPlayer := p;
    }

    /** setGameOver. */
    method SetGameOver(over: bool)
      modifies this`gameOver
      ensures gameOver == over
    {
      gameOver := over;
    }

    /** getWinner: the player with the strictly higher score, None on a tie.
        It reads only the scores, whatever the game-over flag says. */
    function GetWinner(): (w: Option<Player>)
      reads this`player1Score, this`player2Score
      ensures w.Some? ==> GetScore(w.value) > GetScore(w.value.Opponent())
      ensures w.None? <==> player1Score == player2Score
    {
      if player1Score > player2Score then Some(PlayerOne)
      else if player2Score > player1Score then Some(PlayerTwo)
      else None
    }

    /** reset: back to exactly the state the constructor builds. */
    method Reset()
      modifies this
      ensures Initial()
    {
      player1Score := 0;
      player2Score := 0;
      currentPlayer := PlayerOne;
      gameOver := false;
    }
  }

  /** Two switches give the turn back to the player who had it. */
  method SwitchTwice(s: GameState)
    modifies s
    ensures s.currentPlayer == old(s.currentPlayer)
    ensures s.player1Score == old(s.player1Score) && s.player2Score == old(s.player2Score)
    ensures s.gameOver == old(s.gameOver)
  {
    s.SwitchPlayer();
    s.SwitchPlayer();
  }
}
