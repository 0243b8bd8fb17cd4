/** The two players of a match (src/main/java/com/mycompany/javagrid4/Player.java):
    an enumeration with a numeric id, a display name and the opponent. */
module Players {
  import Text

  datatype Player = PlayerOne | PlayerTwo
  {
    /** getId: 1 for the first player, 2 for the second. */
    function Id(): (id: int)
      ensures id == 1 || id == 2
      ensures id == 1 <==> this == PlayerOne
    {
      match this
      case PlayerOne => 1
      case PlayerTwo => 2
    }

    /** getDisplayName: "Player " followed by the id. */
    function DisplayName(): (name: string)
      ensures name == "Player " + Text.IntToString(Id())
    {
      match this
      case PlayerOne => "Player 1"
      case PlayerTwo => "Player 2"
    }

    /** getOpponent: the other player. */
    function Opponent(): (q: Player)
      ensures q != this
    {
      if this == PlayerOne then PlayerTwo else PlayerOne
    }

    /** toString() of a Java enum constant: its declared name. */
    function Name(): (name: string)
      ensures |name| == 10 && name[..7] == "PLAYER_"
    {
      match this
      case PlayerOne => "PLAYER_ONE"
      case PlayerTwo => "PLAYER_TWO"
    }
  }

  /** There are exactly two players and the id tells them apart. */
  lemma IdsIdentifyPlayers(p: Player, q: Player)
    ensures p.Id() == q.Id() <==> p == q
    ensures p == PlayerOne || p == PlayerTwo
  {
  }

  /** getOpponent is an involution. */
  lemma OpponentInvolution(p: Player)
    ensures p.Opponent().Opponent() == p
    ensures p.Opponent().Id() == 3 - p.Id()
  {
  }
}
