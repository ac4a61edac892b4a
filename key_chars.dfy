/** The key-symbol normaliser and Python's whitespace test, which the
    words-per-minute estimate uses to find word boundaries. */
module KeyChars {
  import opened Keystrokes

  /** The literal text of a key token: "[tab]" is a tab, "[return]" a
      newline, and every other token stands for itself. */
  function ConvertToChar(key: string): (c: string)
    ensures key == TAB ==> c == "\t"
    ensures key == RETURN ==> c == "\n"
    ensures key != TAB && key != RETURN ==> c == key
  {
    if key == TAB then "\t"
    else if key == RETURN then "\n"
    else key
  }

  /** The characters Python's str.isspace accepts: those of Unicode
      bidirectional class WS, B or S and those of general category Zs. */
  predicate IsSpaceChar(c: char) {
    var n := c as int;
    || 0x09 <= n <= 0x0D
    || 0x1C <= n <= 0x20
    || n == 0x85 || n == 0xA0 || n == 0x1680
    || 0x2000 <= n <= 0x200A
    || n == 0x2028 || n == 0x2029 || n == 0x202F || n == 0x205F || n == 0x3000
  }

  /** Python's str.isspace: non-empty and whitespace throughout. */
  predicate IsSpace(s: string) {
    |s| > 0 && forall i :: 0 <= i < |s| ==> IsSpaceChar(s[i])
  }

  /** The normaliser changes exactly the two tokens it knows, into a tab
      and a newline. */
  lemma ConvertToCharIdentityOff(key: string)
    ensures ConvertToChar(TAB) == "\t" && ConvertToChar(RETURN) == "\n"
    ensures ConvertToChar(key) != key <==> key == TAB || key == RETURN
  {
  }

  /** Normalising twice is normalising once. */
  lemma ConvertToCharIdempotent(key: string)
    ensures ConvertToChar(ConvertToChar(key)) == ConvertToChar(key)
  {
  }

  /** A normalised key is whitespace exactly when it is a tab or return token
      or is whitespace already; bracketed names are never whitespace. */
  lemma ConvertToCharSpace(key: string)
    ensures IsSpace(ConvertToChar(key)) <==> key == TAB || key == RETURN || IsSpace(key)
    ensures |key| > 0 && key[0] == '[' && key != TAB && key != RETURN ==> !IsSpace(ConvertToChar(key))
  {
    assert IsSpaceChar('\t') && IsSpaceChar('\n');
    assert !IsSpaceChar('[');
  }

  /** Among ASCII characters the whitespace ones are exactly Python's:
      tab, line feed, vertical tab, form feed, carriage return, the four
      information separators 0x1C-0x1F and space. */
  lemma IsSpaceAscii(c: char)
    requires c as int < 0x80
    ensures IsSpaceChar(c) <==> c as int in {0x09, 0x0A, 0x0B, 0x0C, 0x0D, 0x1C, 0x1D, 0x1E, 0x1F, 0x20}
  {
  }

  /** A joined string is whitespace exactly when it is non-empty and each
      part is whitespace or empty. */
  lemma IsSpaceAppend(a: string, b: string)
    ensures IsSpace(a + b) <==> a + b != [] && (a == [] || IsSpace(a)) && (b == [] || IsSpace(b))
  {
    if IsSpace(a + b) {
      forall i | 0 <= i < |a| ensures IsSpaceChar(a[i]) {
        assert (a + b)[i] == a[i];
      }
      forall i | 0 <= i < |b| ensures IsSpaceChar(b[i]) {
        assert (a + b)[|a| + i] == b[i];
      }
    }
  }
}
