/** Words per minute: word boundaries over the capped time between
    consecutive keystrokes. There is no pause handling: every pair adds its
    capped gap. */
module Wpm {
  import opened Keystrokes
  import opened KeyChars

  /** A word ends where a whitespace key follows a non-whitespace one,
      both taken after normalisation. */
  predicate IsBoundary(prev: Keystroke, cur: Keystroke) {
    IsSpace(ConvertToChar(cur.key)) && !IsSpace(ConvertToChar(prev.key))
  }

  /** Position i, counted from 1, ends a word. */
  predicate BoundaryAt(ks: seq<Keystroke>, i: int)
    requires 1 <= i < |ks|
  {
    IsBoundary(ks[i - 1], ks[i])
  }

  /** The number of word boundaries between consecutive events. */
  function WordCount(ks: seq<Keystroke>): (c: nat)
    ensures |ks| > 0 ==> c <= |ks| - 1
  {
    if |ks| <= 1 then 0
    else WordCount(ks[..|ks| - 1]) + (if IsBoundary(ks[|ks| - 2], ks[|ks| - 1]) then 1 else 0)
  }

  /** The sum over consecutive pairs of the capped gap. It never exceeds five
      seconds per pair, nor the time from the first event to the last. */
  function TotalTime(ks: seq<Keystroke>): (t: int)
    ensures |ks| > 0 ==> t <= MaxGap * (|ks| - 1)
    ensures |ks| > 0 ==> t <= ks[|ks| - 1].time - ks[0].time
  {
    if |ks| <= 1 then 0
    else TotalTime(ks[..|ks| - 1]) + Cap(ks[|ks| - 1].time - ks[|ks| - 2].time)
  }

  /** The estimate `word_count / total_time * 60`, failing as the report does
      on fewer than two events and on zero elapsed time. */
  function WordsPerMinute(ks: seq<Keystroke>): (r: Result<real>)
    ensures r == Failure(InsufficientData) <==> |ks| <= 1
    ensures r == Failure(DivisionUndefined) <==> |ks| > 1 && TotalTime(ks) == 0
  {
    if |ks| <= 1 then Failure(InsufficientData)
    else if TotalTime(ks) == 0 then Failure(DivisionUndefined)
    else Success(WordCount(ks) as real / TotalTime(ks) as real * 60.0)
  }

  /** The loop over consecutive pairs, counting boundaries and adding capped
      gaps, then dividing. */
  method ComputeWpm(ks: seq<Keystroke>) returns (r: Result<real>)
    ensures r == WordsPerMinute(ks)
    ensures r == Failure(InsufficientData) <==> |ks| <= 1
  {
    if |ks| <= 1 {
      return Failure(InsufficientData);
    }
    var wordCount, totalTime := ScanPairs(ks);
    if totalTime == 0 {
      return Failure(DivisionUndefined);
    }
    return Success(wordCount as real / totalTime as real * 60.0);
  }

  /** The report's loop over positions 1 .. n-1: a word for every boundary
      and the capped gap to the previous event. */
  method ScanPairs(ks: seq<Keystroke>) returns (wordCount: nat, totalTime: int)
    requires |ks| > 1
    ensures wordCount == WordCount(ks) && totalTime == TotalTime(ks)
  {
    wordCount, totalTime := 0, 0;
    for i := 1 to |ks|
      invariant wordCount == WordCount(ks[..i])
      invariant totalTime == TotalTime(ks[..i])
    {
      PairStep(ks, i);
      var endsWord := EndsWord(ks[i - 1], ks[i]);
      if endsWord {
        wordCount := wordCount + 1;
      }
      totalTime := totalTime + Cap(ks[i].time - ks[i - 1].time);
    }
    assert ks[..|ks|] == ks;
  }

  /** The report's test for the pair: the current key is whitespace and the
      previous one is not, both after normalisation. */
  method EndsWord(lastKs: Keystroke, cur: Keystroke) returns (b: bool)
    ensures b == IsBoundary(lastKs, cur)
    ensures b <==> IsSpaceKey(cur.key) && !IsSpaceKey(lastKs.key)
  {
    b := IsSpace(ConvertToChar(cur.key)) && !IsSpace(ConvertToChar(lastKs.key));
    ConvertToCharSpace(cur.key);
    ConvertToCharSpace(lastKs.key);
  }

  /** A raw key token that stands for whitespace: the tab and return tokens,
      or a key that is whitespace itself. */
  predicate IsSpaceKey(key: string) {
    key == TAB || key == RETURN || IsSpace(key)
  }

  /** One more pair adds its boundary and its capped gap. */
  lemma PairStep(ks: seq<Keystroke>, i: nat)
    requires 1 <= i < |ks|
    ensures WordCount(ks[..i + 1]) == WordCount(ks[..i]) + if IsBoundary(ks[i - 1], ks[i]) then 1 else 0
    ensures TotalTime(ks[..i + 1]) == TotalTime(ks[..i]) + Cap(ks[i].time - ks[i - 1].time)
  {
    var p, q := ks[..i + 1], ks[..i];
    assert p[..i] == q;
    PairSnoc(p, q, ks[i - 1], ks[i]);
  }

  lemma PairSnoc(p: seq<Keystroke>, q: seq<Keystroke>, a: Keystroke, b: Keystroke)
    requires |p| > 1 && q == p[..|p| - 1] && p[|p| - 2] == a && p[|p| - 1] == b
    ensures WordCount(p) == WordCount(q) + if IsBoundary(a, b) then 1 else 0
    ensures TotalTime(p) == TotalTime(q) + Cap(b.time - a.time)
  {
  }

  /** The word count is the number of boundary positions 1 .. n-1. */
  lemma {:induction false} WordCountIsBoundaryCount(ks: seq<Keystroke>)
    ensures WordCount(ks) == |BoundarySet(ks)|
  {
    if |ks| > 1 {
      WordCountIsBoundaryCount(ks[..|ks| - 1]);
      BoundarySetSnoc(ks);
    } else {
      assert BoundarySet(ks) == {};
    }
  }

  /** The positions 1 .. n-1 that end a word. */
  function BoundarySet(ks: seq<Keystroke>): set<int> {
    set i | 1 <= i < |ks| && BoundaryAt(ks, i)
  }

  /** One more event adds its position to the boundary set exactly when it
      ends a word. */
  lemma {:induction false} BoundarySetSnoc(ks: seq<Keystroke>)
    requires |ks| > 1
    ensures |BoundarySet(ks)| == |BoundarySet(ks[..|ks| - 1])| + (if BoundaryAt(ks, |ks| - 1) then 1 else 0)
  {
    var n := |ks| - 1;
    BoundarySetExtends(ks);
    CardSnoc(BoundarySet(ks), BoundarySet(ks[..n]), n, BoundaryAt(ks, n));
  }

  lemma BoundarySetExtends(ks: seq<Keystroke>)
    requires |ks| > 1
    ensures var n := |ks| - 1;
      forall i :: i in BoundarySet(ks) <==> i in BoundarySet(ks[..n]) || (BoundaryAt(ks, n) && i == n)
  {
    var n := |ks| - 1;
    var p := ks[..n];
    forall i | 1 <= i < n ensures BoundaryAt(p, i) == BoundaryAt(ks, i) {
      assert p[i - 1] == ks[i - 1] && p[i] == ks[i];
    }
  }

  /** Two boundaries are never adjacent, since a boundary key is whitespace
      and the next boundary needs a non-whitespace predecessor; so there are at
      most half as many words as keystrokes. */
  lemma {:induction false} WordCountAtMostHalf(ks: seq<Keystroke>)
    ensures 2 * WordCount(ks) <= |ks|
  {
    if |ks| > 1 {
      var n := |ks|;
      var p := ks[..n - 1];
      WordCountAtMostHalf(p);
      if IsBoundary(ks[n - 2], ks[n - 1]) && n > 2 {
        var q := ks[..n - 2];
        assert p[..n - 2] == q;
        WordCountAtMostHalf(q);
        NoAdjacentBoundaries(ks[n - 3], ks[n - 2], ks[n - 1]);
        assert WordCount(p) == WordCount(q);
      }
    }
  }

  lemma NoAdjacentBoundaries(a: Keystroke, b: Keystroke, c: Keystroke)
    requires IsBoundary(b, c)
    ensures !IsBoundary(a, b)
  {
  }

  /** On time-ordered input no gap is negative, so the total is too. */
  lemma {:induction false} TotalTimeNonNegative(ks: seq<Keystroke>)
    requires TimeOrdered(ks)
    ensures TotalTime(ks) >= 0
  {
    if |ks| > 1 {
      var p := ks[..|ks| - 1];
      assert TimeOrdered(p);
      TotalTimeNonNegative(p);
      assert ks[|ks| - 2].time <= ks[|ks| - 1].time;
    }
  }

  /** On time-ordered input the total is zero, and words per minute undefined,
      exactly when every event carries the first event's timestamp. */
  lemma {:induction false} TotalTimeZeroIff(ks: seq<Keystroke>)
    requires TimeOrdered(ks) && |ks| > 0
    ensures TotalTime(ks) == 0 <==> forall i :: 0 <= i < |ks| ==> ks[i].time == ks[0].time
  {
    if |ks| > 1 {
      var n := |ks|;
      var p := ks[..n - 1];
      assert TimeOrdered(p);
      TotalTimeZeroIff(p);
      TotalTimeNonNegative(p);
      assert ks[n - 2].time <= ks[n - 1].time;
      if TotalTime(ks) == 0 {
        assert TotalTime(p) == 0;
        assert forall i :: 0 <= i < n - 1 ==> ks[i].time == p[i].time;
      }
    }
  }

  /** w words per minute over the given seconds makes the given words:
      w * seconds == 60 * words. */
  predicate IsRate(w: real, words: nat, seconds: int) {
    w * seconds as real == 60.0 * words as real
  }

  /** A defined estimate is the rate of the words over the total time. */
  lemma WordsPerMinuteRate(ks: seq<Keystroke>)
    requires WordsPerMinute(ks).Success?
    ensures IsRate(WordsPerMinute(ks).value, WordCount(ks), TotalTime(ks))
  {
    RateProduct(WordCount(ks), TotalTime(ks));
  }

  lemma RateProduct(c: nat, t: int)
    requires t != 0
    ensures IsRate(c as real / t as real * 60.0, c, t)
  {
    var q := c as real / t as real;
    assert q * t as real == c as real;
  }

  /** A rate of w words per minute is at least twelve words per minute for
      every five seconds per pair, the most a pair can contribute:
      w * pairs >= 12 * words. */
  predicate RateAtLeast(w: real, words: nat, pairs: nat) {
    w * pairs as real >= 12.0 * words as real
  }

  /** On time-ordered input the estimate, when defined, is non-negative and,
      since the total time is at most five seconds per pair, at least
      60 * words / (5 * (n - 1)). */
  lemma WpmBounds(ks: seq<Keystroke>, w: real)
    requires TimeOrdered(ks) && WordsPerMinute(ks) == Success(w)
    ensures w >= 0.0
    ensures RateAtLeast(w, WordCount(ks), |ks| - 1)
  {
    var c, t := WordCount(ks), TotalTime(ks);
    DefinedEstimate(ks, w);
    RateBounds(w, c, t, |ks| - 1);
  }

  /** What a defined estimate on time-ordered input tells about its parts. */
  lemma DefinedEstimate(ks: seq<Keystroke>, w: real)
    requires TimeOrdered(ks) && WordsPerMinute(ks) == Success(w)
    ensures |ks| > 1 && 0 < TotalTime(ks) <= MaxGap * (|ks| - 1)
    ensures w == WordCount(ks) as real / TotalTime(ks) as real * 60.0
  {
    TotalTimeNonNegative(ks);
  }

  /** The rate w = c / t * 60 with 0 < t <= 5 * p is non-negative and at
      least 12 * c / p. */
  lemma RateBounds(w: real, c: nat, t: int, p: nat)
    requires 0 < t <= MaxGap * p && w == c as real / t as real * 60.0
    ensures w >= 0.0
    ensures RateAtLeast(w, c, p)
  {
    var q := c as real / t as real;
    var tr, pr := t as real, p as real;
    assert tr <= 5.0 * pr;
    assert q * tr == c as real;
    assert q >= 0.0;
    assert q * (5.0 * pr) - q * tr == q * (5.0 * pr - tr);
    assert q * (5.0 * pr - tr) >= 0.0;
  }
}
