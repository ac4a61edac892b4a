/** The log reader: each line of the keylogger's log is a 10-digit epoch
    timestamp, a 3-character separator, the key token and a line terminator.
    Reading the file is left to the caller; the reader gets its lines. */
module LogReader {
  import opened Keystrokes

  const TimestampWidth: nat := 10
  const KeyOffset: nat := 13

  predicate IsDigit(c: char) {
    '0' <= c <= '9'
  }

  predicate AllDigits(s: string) {
    forall i :: 0 <= i < |s| ==> IsDigit(s[i])
  }

  function DigitValue(c: char): (d: nat)
    requires IsDigit(c)
    ensures d < 10
  {
    c as int - '0' as int
  }

  function DigitChar(d: nat): (c: char)
    requires d < 10
    ensures IsDigit(c) && DigitValue(c) == d
  {
    ('0' as int + d) as char
  }

  function Pow10(n: nat): (p: nat)
    ensures p >= 1
  {
    if n == 0 then 1 else 10 * Pow10(n - 1)
  }

  /** The value of a string of decimal digits, most significant first. */
  function DecimalValue(s: string): (v: nat)
    requires AllDigits(s)
    ensures v < Pow10(|s|)
  {
    if s == [] then 0
    else
      var p := s[..|s| - 1];
      var v' := DecimalValue(p);
      assert v' * 10 <= (Pow10(|p|) - 1) * 10;
      v' * 10 + DigitValue(s[|s| - 1])
  }

  /** The key slice `line[13:-1]` under Python's slicing rules: empty when
      the line is too short to hold any character between offset 13 and the
      last character, which is always dropped. */
  function KeySlice(line: string): (key: string)
    ensures |key| == if |line| > KeyOffset then |line| - KeyOffset - 1 else 0
    ensures forall i :: 0 <= i < |key| ==> key[i] == line[KeyOffset + i]
  {
    if |line| > KeyOffset then line[KeyOffset..|line| - 1] else ""
  }

  /** One log line as a keystroke; None where `int(line[:10])` fails. */
  function ParseLine(line: string): (r: Option<Keystroke>)
    ensures r.Some? <==> |line| >= TimestampWidth && AllDigits(line[..TimestampWidth])
    ensures r.Some? ==> 0 <= r.value.time < Pow10(TimestampWidth)
    ensures r.Some? ==> |r.value.key| == if |line| > KeyOffset then |line| - KeyOffset - 1 else 0
    ensures r.Some? ==> forall i :: 0 <= i < |r.value.key| ==> r.value.key[i] == line[KeyOffset + i]
  {
    if |line| >= TimestampWidth && AllDigits(line[..TimestampWidth]) then
      Some(Keystroke(DecimalValue(line[..TimestampWidth]), KeySlice(line)))
    else
      None
  }

  /** Parses the lines in order, one keystroke per line, and stops at the
      first line whose timestamp is not a number. */
  method GetKeystrokes(lines: seq<string>) returns (r: Result<seq<Keystroke>>)
    ensures r.Success? ==> |r.value| == |lines|
    ensures r.Success? ==> forall i :: 0 <= i < |lines| ==> ParseLine(lines[i]) == Some(r.value[i])
    ensures r.Failure? ==> r.error.ParseError? && r.error.line < |lines|
    ensures r.Failure? ==> ParseLine(lines[r.error.line]).None?
    ensures r.Failure? ==> forall i :: 0 <= i < r.error.line ==> ParseLine(lines[i]).Some?
  {
    var keystrokes: seq<Keystroke> := [];
    for i := 0 to |lines|
      invariant |keystrokes| == i
      invariant forall j :: 0 <= j < i ==> ParseLine(lines[j]) == Some(keystrokes[j])
    {
      var parsed := ParseLine(lines[i]);
      if parsed.None? {
        return Failure(ParseError(i));
      }
      keystrokes := keystrokes + [parsed.value];
    }
    return Success(keystrokes);
  }

  /** The timestamp t written as exactly `width` decimal digits, zero padded. */
  function PadDecimal(t: nat, width: nat): (s: string)
    ensures |s| == width && AllDigits(s)
  {
    if width == 0 then "" else PadDecimal(t / 10, width - 1) + [DigitChar(t % 10)]
  }

  lemma {:induction false} PadDecimalValue(t: nat, width: nat)
    requires t < Pow10(width)
    ensures DecimalValue(PadDecimal(t, width)) == t
  {
    if width > 0 {
      var s := PadDecimal(t, width);
      assert s[..width - 1] == PadDecimal(t / 10, width - 1);
      assert t / 10 < Pow10(width - 1);
      PadDecimalValue(t / 10, width - 1);
    }
  }

  /** A log line as the keylogger writes it. */
  function FormatLine(t: nat, sep: string, key: string): string
    requires |sep| == KeyOffset - TimestampWidth
  {
    PadDecimal(t, TimestampWidth) + sep + key + "\n"
  }

  /** Parsing undoes formatting: the timestamp is the value of the ten digits
      and the key is everything between the separator and the terminator. */
  lemma {:induction false} ParseFormatRoundTrip(t: nat, sep: string, key: string)
    requires t < Pow10(TimestampWidth)
    requires |sep| == KeyOffset - TimestampWidth
    ensures ParseLine(FormatLine(t, sep, key)) == Some(Keystroke(t, key))
  {
    var line := FormatLine(t, sep, key);
    var digits := PadDecimal(t, TimestampWidth);
    assert line[..TimestampWidth] == digits;
    PadDecimalValue(t, TimestampWidth);
    assert line[KeyOffset..|line| - 1] == key;
  }
}
