/** One player's setup from the menu screen
    (src/main/java/com/mycompany/javagrid4/models/PlayerConfig.java): an
    immutable id, a name and a colour, either of which may be null. */
module PlayerSetup {
  import opened Common
  import Text

  /** java.awt.Color, compared by its red, green and blue components. */
  datatype Color = Color(red: int, green: int, blue: int)

  /** The longest name isValid accepts, in UTF-16 code units. */
  const MaxNameLength := 10

  /** The default name: "Player " followed by the id in decimal, which reads back as the id. */
  function DefaultName(playerId: int): (name: string)
    ensures |name| > 7 && name[..7] == "Player "
    ensures Text.ParseInt(name[7..]) == Some(playerId)
  {
    Text.IntToStringRoundTrip(playerId);
    Text.IntToStringChars(playerId);
    var digits := Text.IntToString(playerId);
    assert ("Player " + digits)[7..] == digits;
    "Player " + digits
  }

  /** The default colour: red for player 1 and blue for every other id. */
  function DefaultColor(playerId: int): (c: Color)
    ensures 0 <= c.red <= 255 && 0 <= c.green <= 255 && 0 <= c.blue <= 255
    ensures c.red > c.blue <==> playerId == 1
  {
    if playerId == 1 then Color(255, 100, 100) else Color(100, 150, 255)
  }

  /** isValid: the name is present, not blank once trim() has removed the
      characters up to U+0020 at both ends, and at most 10 UTF-16 units long
      as given (untrimmed); and a colour is present. Equivalently: some
      character of the name is above U+0020. */
  function IsValidEntry(name: Option<string>, color: Option<Color>): (ok: bool)
    ensures ok <==>
      && name.Some? && color.Some?
      && (exists i :: 0 <= i < |name.value| && !Text.IsTrimmed(name.value[i]))
      && Text.Utf16Length(name.value) <= MaxNameLength
  {
    if name.None? then false
    else
      Text.TrimEmpty(name.value);
      Text.Trim(name.value) != [] && Text.Utf16Length(name.value) <= MaxNameLength && color.Some?
  }

  /** The default configuration is valid exactly when the id has at most
      three characters, so that "Player " + id fits in 10: for ids 1 and 2,
      and for every id from -99 to 999. */
  lemma DefaultIsValid(playerId: int)
    ensures IsValidEntry(Some(DefaultName(playerId)), Some(DefaultColor(playerId))) <==> -99 <= playerId <= 999
  {
    var name := DefaultName(playerId);
    var digits := Text.IntToString(playerId);
    assert name == "Player " + digits;
    Text.IntToStringChars(playerId);
    Text.IntToStringAtMostThree(playerId);
    assert forall i :: 0 <= i < |name| ==> name[i] as int <= 0xFFFF by {
      forall i | 0 <= i < |name| ensures name[i] as int <= 0xFFFF {
        if i >= 7 {
          assert name[i] == digits[i - 7];
        }
      }
    }
    Text.Utf16LengthBmp(name);
    assert !Text.IsTrimmed(name[0]);
  }

  /** Surrounding spaces count against the limit: a name of exactly 10 units
      with one leading space added trims to the same text but is rejected. */
  lemma PaddingCounts(name: string, color: Color)
    requires IsValidEntry(Some(name), Some(color)) && Text.Utf16Length(name) == MaxNameLength
    ensures Text.Trim(" " + name) == Text.Trim(name)
    ensures !IsValidEntry(Some(" " + name), Some(color))
  {
    var padded := " " + name;
    assert padded[1..] == name;
    assert Text.TrimStart(padded) == Text.TrimStart(name);
    assert Text.Utf16Length(padded) == 1 + Text.Utf16Length(name);
  }

  class PlayerConfig {
    const playerId: int
    var name: Option<string>
    var color: Option<Color>

    /** The default configuration for an id. */
    constructor (playerId: int)
      ensures this.playerId == playerId
      ensures name == Some(DefaultName(playerId)) && color == Some(DefaultColor(playerId))
    {
      this.playerId := playerId;
      name := Some(DefaultName(playerId));
      color := Some(DefaultColor(playerId));
    }

    /** The three-argument constructor stores what it is given, unchecked. */
    constructor WithValues(playerId: int, name: Option<string>, color: Option<Color>)
      ensures this.playerId == playerId && this.name == name && this.color == color
    {
      this.playerId := playerId;
      this.name := name;
      this.color := color;
    }

    /** setName: only the name changes (not validated here). */
    method SetName(name: Option<string>)
      modifies this
      ensures this.name == name && color == old(color)
    {
      this.name := name;
    }

    /** setColor: only the colour changes. */
    method SetColor(color: Option<Color>)
      modifies this
      ensures this.color == color && name == old(name)
    {
      this.color := color;
    }

    /** isValid on the current fields. */
    predicate IsValid()
      reads this
    {
      IsValidEntry(name, color)
    }
  }
}
