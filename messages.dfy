/**
 * Chat messages and the text the server builds from them: the line written to a
 * client for every delivered message, and the bot's join and leave announcements.
 */
module Messages {
  import opened Wrappers

  /** One chat message: who it is from and what it says (a user line or a bot announcement). */
  datatype Message = Message(username: string, text: string)

  /** The room name that every announcement ends with. */
  const RoomLabel: string := "Torbit Chat"
  const JoinedSuffix: string := " joined " + RoomLabel
  const LeftSuffix: string := " left " + RoomLabel

  /** The layout the write duty renders the local time with; every timestamp has its width. */
  const TimestampLayout: string := "2006-01-02 15:04:05"

  // ---------------------------------------------------------------------------
  // The outbound line
  // ---------------------------------------------------------------------------

  /**
   * The line written to a client for message `m`, stamped with the (opaque) time `t`:
   * sender, one space, the stamp, a colon and a space, the text, one newline.
   */
  function OutboundLine(m: Message, t: string): (line: string)
    ensures |line| == |m.username| + |t| + |m.text| + 4
    ensures line[..|m.username|] == m.username
    ensures line[|line| - 1] == '\n'
  {
    m.username + " " + t + ": " + m.text + "\n"
  }

  /** A line taken apart again: sender, timestamp and text. */
  datatype Line = Line(sender: string, stamp: string, text: string)

  /** The first position of `c` in `s`, or |s| when `c` does not occur. */
  function IndexOf(s: string, c: char): (i: nat)
    ensures i <= |s|
    ensures i < |s| ==> s[i] == c
    ensures forall k :: 0 <= k < i ==> s[k] != c
  {
    if s == [] then 0
    else if s[0] == c then 0
    else 1 + IndexOf(s[1..], c)
  }

  /**
   * Reads an outbound line back: the sender runs up to the first space, the stamp is
   * as wide as the timestamp layout, then ": ", the text, and a final newline.
   */
  function ParseLine(line: string): (r: Option<Line>)
    ensures r.Some? ==> OutboundLine(Message(r.value.sender, r.value.text), r.value.stamp) == line
    ensures r.Some? ==> ' ' !in r.value.sender && |r.value.stamp| == |TimestampLayout|
  {
    var i := IndexOf(line, ' ');
    var w := |TimestampLayout|;
    if i + w + 4 <= |line| && line[i + 1 + w .. i + w + 3] == ": " && line[|line| - 1] == '\n' then
      var sender, stamp, text := line[..i], line[i + 1 .. i + 1 + w], line[i + w + 3 .. |line| - 1];
      assert line == sender + " " + stamp + ": " + text + "\n" by {
        assert line == line[..i] + [line[i]] + line[i + 1 .. i + 1 + w] + line[i + 1 + w .. i + w + 3]
                       + line[i + w + 3 .. |line| - 1] + [line[|line| - 1]];
      }
      Some(Line(sender, stamp, text))
    else
      None
  }

  /**
   * Formatting then parsing gives back sender, stamp and text, provided the sender has
   * no space in it and the stamp has the layout's width.
   */
  lemma ParseOutboundLine(m: Message, t: string)
    requires ' ' !in m.username
    requires |t| == |TimestampLayout|
    ensures ParseLine(OutboundLine(m, t)) == Some(Line(m.username, t, m.text))
  {
    var line := OutboundLine(m, t);
    var n := |m.username|;
    assert line[n] == ' ';
    assert forall k :: 0 <= k < n ==> line[k] == m.username[k];
    assert IndexOf(line, ' ') == n;
    assert line[n + 1 .. n + 1 + |t|] == t;
    assert line[n + 1 + |t|] == ':' && line[n + 2 + |t|] == ' ';
    assert line[n + 1 + |t| .. n + |t| + 3] == ": ";
    assert line[n + |t| + 3 .. |line| - 1] == m.text;
  }

  /**
   * When sender, stamp and text hold no newline (as every line read from a client
   * and every rendered time do), the newline that ends the line is its only one.
   */
  lemma OutboundLineSingleNewline(m: Message, t: string)
    requires '\n' !in m.username && '\n' !in t && '\n' !in m.text
    ensures forall k :: 0 <= k < |OutboundLine(m, t)| - 1 ==> OutboundLine(m, t)[k] != '\n'
  {
  }

  // ---------------------------------------------------------------------------
  // Announcements
  // ---------------------------------------------------------------------------

  /** The text announcing that `name` joined. */
  function JoinText(name: string): (text: string)
    ensures |text| == |name| + |JoinedSuffix|
  {
    name + JoinedSuffix
  }

  /** The text announcing that `name` left. */
  function LeftText(name: string): (text: string)
    ensures |text| == |name| + |LeftSuffix|
  {
    name + LeftSuffix
  }

  /** The name in a text that ends with `suffix`, or None when it does not end so. */
  function StripSuffix(text: string, suffix: string): (r: Option<string>)
    ensures r.Some? ==> r.value + suffix == text
    ensures r.None? ==> forall name :: name + suffix != text
  {
    if |suffix| <= |text| && text[|text| - |suffix|..] == suffix then
      assert text == text[..|text| - |suffix|] + text[|text| - |suffix|..];
      Some(text[..|text| - |suffix|])
    else
      assert forall name :: (name + suffix)[|name + suffix| - |suffix|..] == suffix by {
        forall name ensures (name + suffix)[|name + suffix| - |suffix|..] == suffix {
          assert (name + suffix)[|name|..] == suffix;
        }
      }
      None
  }

  /** The joiner named by a join announcement's text, if it is one. */
  function JoinedName(text: string): (r: Option<string>)
    ensures r.Some? ==> JoinText(r.value) == text
    ensures r.None? ==> forall name :: JoinText(name) != text
  {
    StripSuffix(text, JoinedSuffix)
  }

  /** The leaver named by a leave announcement's text, if it is one. */
  function LeftName(text: string): (r: Option<string>)
    ensures r.Some? ==> LeftText(r.value) == text
    ensures r.None? ==> forall name :: LeftText(name) != text
  {
    StripSuffix(text, LeftSuffix)
  }

  /** The name is read back from a join text, and a join text never reads as a leave text. */
  lemma JoinTextRoundTrip(name: string)
    ensures JoinedName(JoinText(name)) == Some(name)
    ensures LeftName(JoinText(name)) == None
  {
    var text := JoinText(name);
    assert text[|text| - |JoinedSuffix|..] == JoinedSuffix;
    assert JoinedSuffix == " joined Torbit Chat";
    assert text[|name| + 6] == JoinedSuffix[6] == 'd';
    if |LeftSuffix| <= |text| {
      assert text[|text| - |LeftSuffix|..][|LeftSuffix| - 2 - |RoomLabel|] == 'd';
    }
  }

  /** The name is read back from a leave text, and a leave text never reads as a join text. */
  lemma LeftTextRoundTrip(name: string)
    ensures LeftName(LeftText(name)) == Some(name)
    ensures JoinedName(LeftText(name)) == None
  {
    var text := LeftText(name);
    assert text[|text| - |LeftSuffix|..] == LeftSuffix;
    assert LeftSuffix == " left Torbit Chat";
    assert text[|name| + 4] == LeftSuffix[4] == 't';
    if |JoinedSuffix| <= |text| {
      assert text[|text| - |JoinedSuffix|..][|JoinedSuffix| - 2 - |RoomLabel|] == 't';
    }
  }

  /** The bot's message announcing that `name` joined: from the bot, naming the joiner. */
  function JoinAnnouncement(bot: string, name: string): (m: Message)
    ensures m.username == bot
    ensures JoinedName(m.text) == Some(name) && LeftName(m.text) == None
  {
    JoinTextRoundTrip(name);
    Message(bot, JoinText(name))
  }

  /** The bot's message announcing that `name` left: from the bot, naming the leaver. */
  function LeaveAnnouncement(bot: string, name: string): (m: Message)
    ensures m.username == bot
    ensures LeftName(m.text) == Some(name) && JoinedName(m.text) == None
  {
    LeftTextRoundTrip(name);
    Message(bot, LeftText(name))
  }
}
