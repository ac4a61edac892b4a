/** The plaintext export: the text the report writes for a keystroke log.
    Single-character keys are written as they are, "[return]" as a newline,
    and every other token is dropped. The report's shift flag is never set,
    so no letter changes case. */
module Plaintext {
  import opened Keystrokes

  /** What one keystroke writes. */
  function Emit(key: string): (out: string)
    ensures |out| <= 1
  {
    if |key| == 1 then key
    else if key == RETURN then "\n"
    else ""
  }

  /** The text written for a whole log, in event order. */
  function TextOf(ks: seq<Keystroke>): (text: string)
    ensures |text| <= |ks|
  {
    if ks == [] then ""
    else TextOf(ks[..|ks| - 1]) + Emit(ks[|ks| - 1].key)
  }

  /** The report's loop, writing to a string instead of a file. */
  method WritePlaintext(ks: seq<Keystroke>) returns (text: string)
    ensures text == TextOf(ks)
  {
    text := "";
    for i := 0 to |ks|
      invariant text == TextOf(ks[..i])
    {
      assert ks[..i + 1][..i] == ks[..i];
      var key := ks[i].key;
      if |key| == 1 {
        text := text + key;
      } else if key == RETURN {
        text := text + "\n";
      }
    }
    assert ks[..|ks|] == ks;
  }

  /** The text of two logs one after the other is the two texts joined. */
  lemma {:induction false} PlaintextAppend(a: seq<Keystroke>, b: seq<Keystroke>)
    ensures TextOf(a + b) == TextOf(a) + TextOf(b)
    decreases |b|
  {
    if b != [] {
      var b' := b[..|b| - 1];
      assert (a + b)[..|a + b| - 1] == a + b';
      PlaintextAppend(a, b');
    } else {
      assert a + b == a;
    }
  }

  /** The log of typing a string one character at a time, at the given
      times. */
  function Typed(s: string, times: seq<int>): (ks: seq<Keystroke>)
    requires |times| == |s|
    ensures |ks| == |s|
    ensures forall i :: 0 <= i < |s| ==> ks[i] == Keystroke(times[i], [s[i]])
  {
    seq(|s|, i requires 0 <= i < |s| => Keystroke(times[i], [s[i]]))
  }

  /** Typing a string and exporting the log gives the string back. */
  lemma {:induction false} PlaintextOfTyped(s: string, times: seq<int>)
    requires |times| == |s|
    ensures TextOf(Typed(s, times)) == s
  {
    if s != [] {
      var n := |s| - 1;
      assert Typed(s, times)[..n] == Typed(s[..n], times[..n]);
      PlaintextOfTyped(s[..n], times[..n]);
      assert s == s[..n] + [s[n]];
    }
  }

  /** The text is as long as the number of keystrokes that write something:
      the single-character keys and the returns. */
  lemma {:induction false} PlaintextLength(ks: seq<Keystroke>)
    ensures |TextOf(ks)| == |WritesSet(ks)|
  {
    if ks != [] {
      var n := |ks| - 1;
      PlaintextLength(ks[..n]);
      WritesSetExtends(ks);
      CardSnoc(WritesSet(ks), WritesSet(ks[..n]), n, Writes(ks, n));
    } else {
      assert WritesSet(ks) == {};
    }
  }

  /** The positions of the keystrokes that write a character. */
  function WritesSet(ks: seq<Keystroke>): set<int> {
    set i | 0 <= i < |ks| && Writes(ks, i)
  }

  lemma WritesSetExtends(ks: seq<Keystroke>)
    requires ks != []
    ensures var n := |ks| - 1;
      forall i :: i in WritesSet(ks) <==> i in WritesSet(ks[..n]) || (Writes(ks, n) && i == n)
  {
    var n := |ks| - 1;
    var p := ks[..n];
    forall i | 0 <= i < n ensures Writes(p, i) == Writes(ks, i) {
      assert p[i] == ks[i];
    }
  }

  /** Keystroke i writes one character. */
  predicate Writes(ks: seq<Keystroke>, i: int)
    requires 0 <= i < |ks|
  {
    |ks[i].key| == 1 || ks[i].key == RETURN
  }
}
