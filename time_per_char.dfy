/** Average seconds per key. The report remembers the first event whose key
    is non-empty and never advances that reference: every later event adds
    min(t - t_ref, 5) to its key's total, and each total is divided by the
    key's full frequency, which counts the reference event too. */
module TimePerChar {
  import opened Keystrokes
  import Frequencies

  /** The reference event: the first one with a non-empty key, or |ks| when
      every key is empty. Events before it have empty keys and, like the
      reference itself, contribute nothing. */
  function RefIndex(ks: seq<Keystroke>): (r: nat)
    ensures r <= |ks|
    ensures r < |ks| ==> ks[r].key != ""
    ensures forall j :: 0 <= j < r && j < |ks| ==> ks[j].key == ""
  {
    if ks == [] then 0
    else
      var p := ks[..|ks| - 1];
      var r := RefIndex(p);
      assert forall j :: 0 <= j < |p| ==> p[j] == ks[j];
      if r < |p| then r
      else if ks[|ks| - 1].key != "" then |p|
      else |ks|
  }

  /** The seconds charged to key k by the events after the reference r, each
      measured against the reference's timestamp and capped at five. */
  function Accumulated(ks: seq<Keystroke>, r: nat, k: string): (a: int)
    requires r < |ks|
    ensures a <= MaxGap * Count(ks, k)
    decreases |ks|
  {
    if |ks| == r + 1 then 0
    else
      var p := ks[..|ks| - 1];
      assert p[r] == ks[r];
      Accumulated(p, r, k) + (if ks[|ks| - 1].key == k then Cap(ks[|ks| - 1].time - ks[r].time) else 0)
  }

  /** The keys of the events strictly between positions lo and hi. */
  function KeysBetween(ks: seq<Keystroke>, lo: int, hi: int): set<string>
    requires hi <= |ks|
  {
    set j | lo < j < hi && 0 <= j :: ks[j].key
  }

  /** The keys of the events after the reference. */
  function AfterRefKeys(ks: seq<Keystroke>): set<string> {
    KeysBetween(ks, RefIndex(ks), |ks|)
  }

  lemma AfterRefKeysCounted(ks: seq<Keystroke>)
    ensures forall k :: k in AfterRefKeys(ks) ==> RefIndex(ks) < |ks| && Count(ks, k) > 0
  {
    forall k | k in AfterRefKeys(ks) ensures Count(ks, k) > 0 {
      CountPositive(ks, k);
    }
  }

  /** The table the report returns. */
  function AverageTimes(ks: seq<Keystroke>): (avg: map<string, real>)
    ensures avg.Keys == AfterRefKeys(ks)
  {
    AfterRefKeysCounted(ks);
    map k | k in AfterRefKeys(ks) :: Accumulated(ks, RefIndex(ks), k) as real / Count(ks, k) as real
  }

  /** The report's two loops: accumulate against the remembered first event,
      then divide each total by the key's frequency. */
  method ComputeTimePerChar(ks: seq<Keystroke>) returns (avg: map<string, real>)
    ensures avg == AverageTimes(ks)
  {
    var time := AccumulateAgainstFirst(ks);
    var frequencies := Frequencies.ComputeFrequencies(ks);
    AfterRefKeysCounted(ks);
    avg := DivideByFrequency(time, frequencies);
    TotalsGiveTable(ks, time, frequencies, avg);
  }

  /** The report's first loop: remember the first event with a non-empty key
      and add each later event's capped distance to it to that event's key. */
  method AccumulateAgainstFirst(ks: seq<Keystroke>) returns (time: map<string, int>)
    ensures time.Keys == AfterRefKeys(ks)
    ensures forall k :: k in time ==> RefIndex(ks) < |ks| && time[k] == Accumulated(ks, RefIndex(ks), k)
  {
    time := map[];
    var first := "";
    var lastTime := 0;
    ghost var ref := 0;
    for i := 0 to |ks|
      invariant ref == RefIndex(ks[..i])
      invariant first == "" ==> ref == i && time == map[]
      invariant first != "" ==> ref < i && first == ks[ref].key && lastTime == ks[ref].time
      invariant first != "" ==> Totals(ks, ref, i, time)
    {
      RefIndexSnoc(ks, i);
      var keystroke := ks[i];
      if first == "" {
        first := keystroke.key;
        lastTime := keystroke.time;
        if first != "" {
          ref := i;
          StartAt(ks, i);
        } else {
          ref := i + 1;
        }
      } else {
        time := ChargeLater(time, keystroke, lastTime, ks, ref, i);
      }
    }
    assert ks[..|ks|] == ks;
    if first != "" {
      TotalsAtEnd(ks, ref, time);
    }
  }

  /** The loop body for an event after the reference: its key is charged
      the capped distance to the reference, which keeps the totals in step
      with Accumulated. */
  method ChargeLater(time: map<string, int>, keystroke: Keystroke, lastTime: int,
                     ghost ks: seq<Keystroke>, ghost r: nat, ghost i: nat) returns (time': map<string, int>)
    requires r < i < |ks| && keystroke == ks[i] && lastTime == ks[r].time
    requires Totals(ks, r, i, time)
    ensures Totals(ks, r, i + 1, time')
  {
    ChargeStep(ks, r, i, time);
    time' := AddCharge(time, keystroke.key, Cap(keystroke.time - lastTime));
  }

  /** `if key not in time: time[key] = 0` followed by `time[key] += gap`. */
  method AddCharge(time: map<string, int>, key: string, gap: int) returns (time': map<string, int>)
    ensures time' == AddGap(time, key, gap)
  {
    time' := time;
    if key !in time' {
      time' := time'[key := 0];
    }
    time' := time'[key := time'[key] + gap];
  }

  /** Totals that match Accumulated, over the frequencies, give the table. */
  lemma TotalsGiveTable(ks: seq<Keystroke>, time: map<string, int>, frequencies: map<string, nat>, avg: map<string, real>)
    requires time.Keys == AfterRefKeys(ks)
    requires forall k :: k in time ==> RefIndex(ks) < |ks| && time[k] == Accumulated(ks, RefIndex(ks), k)
    requires frequencies.Keys == KeySet(ks) && forall k :: k in frequencies ==> frequencies[k] == Count(ks, k)
    requires avg.Keys == time.Keys
    requires forall k :: k in avg ==> frequencies[k] > 0 && avg[k] == time[k] as real / frequencies[k] as real
    ensures avg == AverageTimes(ks)
  {
    var spec := AverageTimes(ks);
    forall k | k in avg ensures avg[k] == spec[k] {
      assert avg[k] == Accumulated(ks, RefIndex(ks), k) as real / Count(ks, k) as real;
    }
  }

  /** The report's second loop: each total over its key's frequency. */
  method DivideByFrequency(time: map<string, int>, frequencies: map<string, nat>) returns (avg: map<string, real>)
    requires forall k :: k in time ==> k in frequencies && frequencies[k] > 0
    ensures avg.Keys == time.Keys
    ensures forall k :: k in avg ==> avg[k] == time[k] as real / frequencies[k] as real
  {
    avg := map[];
    var pending := time.Keys;
    while pending != {}
      invariant pending <= time.Keys
      invariant avg.Keys == time.Keys - pending
      invariant forall k :: k in avg ==> avg[k] == time[k] as real / frequencies[k] as real
      decreases |pending|
    {
      var key :| key in pending;
      avg := avg[key := time[key] as real / frequencies[key] as real];
      pending := pending - {key};
    }
  }

  /** The loop's totals after events ..i: one entry per key charged so far,
      each equal to Accumulated over ks[..i]. */
  ghost predicate Totals(ks: seq<Keystroke>, r: nat, i: nat, time: map<string, int>)
    requires r < i <= |ks|
  {
    && time.Keys == KeysBetween(ks, r, i)
    && forall k :: Accumulated(ks[..i], r, k) == if k in time then time[k] else 0
  }

  /** The totals after `gap` more seconds are charged to key. */
  function AddGap(time: map<string, int>, key: string, gap: int): (r: map<string, int>)
    ensures r.Keys == time.Keys + {key}
    ensures r[key] == (if key in time then time[key] else 0) + gap
    ensures forall x :: x in time && x != key ==> r[x] == time[x]
  {
    time[key := (if key in time then time[key] else 0) + gap]
  }

  /** Charging event i extends the totals of ks[..i] to those of ks[..i+1]. */
  lemma ChargeStep(ks: seq<Keystroke>, r: nat, i: nat, time: map<string, int>)
    requires r < i < |ks| && Totals(ks, r, i, time)
    ensures Totals(ks, r, i + 1, AddGap(time, ks[i].key, Cap(ks[i].time - ks[r].time)))
  {
    AccumulatedSnoc(ks, r, i);
    KeysBetweenSnoc(ks, r, i);
  }

  /** At the reference itself nothing is accumulated yet. */
  lemma StartAt(ks: seq<Keystroke>, r: nat)
    requires r < |ks|
    ensures Totals(ks, r, r + 1, map[])
  {
  }

  /** The totals of the whole log are those of the table. */
  lemma TotalsAtEnd(ks: seq<Keystroke>, r: nat, time: map<string, int>)
    requires r < |ks| && r == RefIndex(ks) && Totals(ks, r, |ks|, time)
    ensures time.Keys == AfterRefKeys(ks)
    ensures forall k :: k in time ==> time[k] == Accumulated(ks, r, k)
  {
    assert ks[..|ks|] == ks;
    forall k | k in time ensures time[k] == Accumulated(ks, r, k) {
      assert Accumulated(ks[..|ks|], r, k) == time[k];
    }
  }

  lemma RefIndexSnoc(ks: seq<Keystroke>, i: nat)
    requires i < |ks|
    ensures var r := RefIndex(ks[..i]);
      RefIndex(ks[..i + 1]) == if r < i then r else if ks[i].key != "" then i else i + 1
  {
    assert ks[..i + 1][..i] == ks[..i];
  }

  lemma AccumulatedSnoc(ks: seq<Keystroke>, r: nat, i: nat)
    requires r < i < |ks|
    ensures forall k :: Accumulated(ks[..i + 1], r, k) ==
                         Accumulated(ks[..i], r, k) + (if ks[i].key == k then Cap(ks[i].time - ks[r].time) else 0)
  {
    assert ks[..i + 1][..i] == ks[..i];
  }

  lemma KeysBetweenSnoc(ks: seq<Keystroke>, lo: int, i: nat)
    requires lo < i < |ks|
    ensures KeysBetween(ks, lo, i + 1) == KeysBetween(ks, lo, i) + {ks[i].key}
  {
  }

  /** On time-ordered input the reference precedes every charged event, so no
      charge is negative. */
  lemma {:induction false} AccumulatedNonNegative(ks: seq<Keystroke>, r: nat, k: string)
    requires r < |ks| && TimeOrdered(ks)
    ensures Accumulated(ks, r, k) >= 0
    decreases |ks|
  {
    if |ks| > r + 1 {
      var p := ks[..|ks| - 1];
      assert TimeOrdered(p);
      AccumulatedNonNegative(p, r, k);
      assert ks[r].time <= ks[|ks| - 1].time;
    }
  }

  /** Every average is at most five seconds, the cap, and on time-ordered
      input at least zero. */
  lemma TimePerCharBounds(ks: seq<Keystroke>, k: string)
    requires k in AverageTimes(ks)
    ensures AverageTimes(ks)[k] <= MaxGap as real
    ensures TimeOrdered(ks) ==> AverageTimes(ks)[k] >= 0.0
  {
    AfterRefKeysCounted(ks);
    var r := RefIndex(ks);
    var a, c := Accumulated(ks, r, k), Count(ks, k);
    assert AverageTimes(ks)[k] == a as real / c as real;
    QuotientBounds(a as real, c as real);
    if TimeOrdered(ks) {
      AccumulatedNonNegative(ks, r, k);
    }
  }

  lemma QuotientBounds(a: real, c: real)
    requires c > 0.0 && a <= MaxGap as real * c
    ensures a / c <= MaxGap as real
    ensures a >= 0.0 ==> a / c >= 0.0
  {
    var q := a / c;
    assert q * c == a;
  }

  /** The reference is never advanced: with events a, b, c at seconds
      0, 1, 2, key c is charged two seconds (its distance to a), not one. */
  lemma ReferenceNeverAdvances()
    ensures var avg := AverageTimes([Keystroke(0, "a"), Keystroke(1, "b"), Keystroke(2, "c")]);
      "c" in avg && avg["c"] == 2.0
  {
    var ks := [Keystroke(0, "a"), Keystroke(1, "b"), Keystroke(2, "c")];
    assert ks[..2] == [Keystroke(0, "a"), Keystroke(1, "b")];
    assert ks[..2][..1] == [Keystroke(0, "a")];
    assert RefIndex(ks) == 0;
    assert "c" in AfterRefKeys(ks) by { assert ks[2].key == "c"; }
    assert Count(ks, "c") == 1;
    assert Accumulated(ks, 0, "c") == 2;
  }
}
