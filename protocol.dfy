/** The serial line protocol of the touch controller: each line starts with a
    sign (`+` touched, `-` released) and one decimal digit naming the channel;
    whatever follows is ignored. (touch_player.py, `touch_message`) */
module Protocol {
  import opened Text

  /** A channel number, one decimal digit. */
  type Digit = d: int | 0 <= d <= 9

  /** The decoded form of one line: the source returns the pair
      `(direction, n)`, with `(0, None)` meaning "no message". */
  datatype Event = Engage(channel: Digit) | Release(channel: Digit) | NoEvent
  {
    /** The first element of the source's pair: 1, -1 or 0. */
    function Direction(): (d: int)
      ensures -1 <= d <= 1
      ensures d == 0 <==> NoEvent?
      ensures d == 1 <==> Engage?
    {
      match this
      case Engage(_) => 1
      case Release(_) => -1
      case NoEvent => 0
    }

    /** The second element of the source's pair: the channel, absent for no message. */
    function Channel(): (n: Option<int>)
      ensures n.Some? <==> !NoEvent?
      ensures n.Some? ==> 0 <= n.value <= 9 && n.value == channel
    {
      if NoEvent? then None else Some(channel)
    }
  }

  predicate IsDigitChar(c: char)
  {
    '0' <= c <= '9'
  }

  function DigitValue(c: char): Digit
    requires IsDigitChar(c)
  {
    c as int - '0' as int
  }

  function DigitChar(d: Digit): (c: char)
    ensures IsDigitChar(c) && DigitValue(c) == d
  {
    ('0' as int + d) as char
  }

  /** The two characters a controller sends for an event. */
  function Format(e: Event): (s: string)
    requires !e.NoEvent?
    ensures |s| == 2 && IsDigitChar(s[1])
    ensures s[0] == (if e.Engage? then '+' else '-')
  {
    [if e.Engage? then '+' else '-', DigitChar(e.channel)]
  }

  /** `touch_message` on a line already read: an empty line is no message,
      otherwise the line must match `^([+-])(\d)`. */
  function Parse(line: string): (e: Event)
    ensures !e.NoEvent? <==> |line| >= 2 && (line[0] == '+' || line[0] == '-') && IsDigitChar(line[1])
    ensures !e.NoEvent? ==> Format(e) == line[..2]
  {
    if |line| == 0 then NoEvent
    else if |line| < 2 || !IsDigitChar(line[1]) then NoEvent
    else if line[0] == '+' then Engage(DigitValue(line[1]))
    else if line[0] == '-' then Release(DigitValue(line[1]))
    else NoEvent
  }

  /** Parsing undoes formatting, whatever trails the two characters. */
  lemma ParseFormat(e: Event, rest: string)
    requires !e.NoEvent?
    ensures Parse(Format(e) + rest) == e
    ensures Parse(Format(e) + rest).Direction() == (if e.Engage? then 1 else -1)
    ensures Parse(Format(e) + rest).Channel() == Some(e.channel as int)
  {
    var line := Format(e) + rest;
    assert line[..2] == Format(e);
  }

  /** Only the first two characters of a line decide its event. */
  lemma ParseIgnoresTail(line: string, rest: string)
    requires |line| >= 2
    ensures Parse(line + rest) == Parse(line)
  {
    assert (line + rest)[..2] == line[..2];
  }

  /** A line that does not start with a sign and a digit, the empty line among
      them, carries no event. */
  lemma ParseRejects(line: string)
    requires |line| < 2 || (line[0] != '+' && line[0] != '-') || !IsDigitChar(line[1])
    ensures Parse(line) == NoEvent && Parse(line).Direction() == 0 && Parse(line).Channel() == None
  {
  }

  lemma ParseExamples()
    ensures Parse("+3 noise") == Engage(3)
    ensures Parse("-0") == Release(0)
    ensures Parse("+7\r\n") == Engage(7)
    ensures Parse("garbage") == NoEvent
    ensures Parse("") == NoEvent
    ensures Parse("3+") == NoEvent
  {
  }
}
