/** Deletion attribution as the report does it: a backward scan over
    positions n-1 down to 2 with a bank of pending deletions. A run of
    "[del]" keys fills the bank; the first non-deletion below the run charges
    one deletion to the key just before it and empties the bank. There is no
    cursor handling. */
module Deletions {
  import opened Keystrokes

  /** The scan's state: the bank of pending deletions and the table so far. */
  datatype ScanState = ScanState(bank: nat, counts: map<string, nat>)

  /** One position of the backward scan. */
  function Step(s: ScanState, ks: seq<Keystroke>, i: nat): (r: ScanState)
    requires 1 <= i < |ks|
    ensures r.bank == if ks[i].key == DEL then s.bank + 1 else 0
    ensures r.counts == if ks[i].key != DEL && s.bank > 0 then Bump(s.counts, ks[i - 1].key) else s.counts
  {
    if ks[i].key == DEL then ScanState(s.bank + 1, s.counts)
    else if s.bank > 0 then ScanState(0, Bump(s.counts, ks[i - 1].key))
    else s
  }

  /** The state once positions |ks|-1 down to i have been scanned. */
  function ScanFrom(ks: seq<Keystroke>, i: nat): (r: ScanState)
    requires 2 <= i <= |ks|
    ensures r.bank <= |ks| - i
    ensures forall k :: k in r.counts ==> r.counts[k] > 0
    decreases |ks| - i
  {
    if i == |ks| then ScanState(0, map[])
    else Step(ScanFrom(ks, i + 1), ks, i)
  }

  /** Position i is where a charge happens: it is not a deletion and a
      deletion directly follows it. The charge goes to position i-1. */
  predicate Charged(ks: seq<Keystroke>, i: nat)
    requires 1 <= i < |ks|
  {
    ks[i].key != DEL && i + 1 < |ks| && ks[i + 1].key == DEL
  }

  /** The number of charged positions at or after i whose predecessor has
      key k. */
  function ChargeCount(ks: seq<Keystroke>, i: nat, k: string): nat
    requires 1 <= i <= |ks|
    decreases |ks| - i
  {
    if i == |ks| then 0
    else (if Charged(ks, i) && ks[i - 1].key == k then 1 else 0) + ChargeCount(ks, i + 1, k)
  }

  /** The length of the run of deletions that starts at i. */
  function DelRun(ks: seq<Keystroke>, i: nat): nat
    requires i <= |ks|
    decreases |ks| - i
  {
    if i == |ks| || ks[i].key != DEL then 0 else 1 + DelRun(ks, i + 1)
  }

  /** The number of deletions at or after position i. */
  function DelsFrom(ks: seq<Keystroke>, i: nat): nat
    requires i <= |ks|
    decreases |ks| - i
  {
    if i == |ks| then 0 else (if ks[i].key == DEL then 1 else 0) + DelsFrom(ks, i + 1)
  }

  /** The report's loop, after its check that there are at least two events. */
  method ComputeDeletions(ks: seq<Keystroke>) returns (r: Result<map<string, nat>>)
    ensures |ks| <= 1 <==> r == Failure(InsufficientData)
    ensures |ks| > 1 ==> r == Success(ScanFrom(ks, 2).counts)
    ensures r.Success? ==> forall k :: k in r.value <==> ChargeCount(ks, 2, k) > 0
    ensures r.Success? ==> forall k :: k in r.value ==> r.value[k] == ChargeCount(ks, 2, k)
    ensures r.Success? ==> MapSum(r.value) <= DelsFrom(ks, 2)
  {
    if |ks| <= 1 {
      return Failure(InsufficientData);
    }
    var delCount: map<string, nat> := map[];
    var delBank: nat := 0;
    var i := |ks| - 1;
    while i > 1
      invariant 1 <= i < |ks|
      invariant ScanFrom(ks, i + 1) == ScanState(delBank, delCount)
    {
      var cur, lastKs := ks[i], ks[i - 1];
      if cur.key == DEL {
        delBank := delBank + 1;
      } else if delBank > 0 {
        if lastKs.key !in delCount {
          delCount := delCount[lastKs.key := 0];
        }
        delCount := delCount[lastKs.key := delCount[lastKs.key] + 1];
        delBank := 0;
      }
      i := i - 1;
    }
    ScanCharacterized(ks, 2);
    ScanBounded(ks, 2);
    return Success(delCount);
  }

  /** The bank-free description of the scan: the bank is the length of the
      deletion run at i, and key k is charged once for every non-deletion
      directly followed by a deletion whose predecessor has key k. */
  lemma {:induction false} ScanCharacterized(ks: seq<Keystroke>, i: nat)
    requires 2 <= i <= |ks|
    ensures ScanFrom(ks, i).bank == DelRun(ks, i)
    ensures forall k :: k in ScanFrom(ks, i).counts <==> ChargeCount(ks, i, k) > 0
    ensures forall k :: k in ScanFrom(ks, i).counts ==> ScanFrom(ks, i).counts[k] == ChargeCount(ks, i, k)
    decreases |ks| - i
  {
    if i < |ks| {
      ScanCharacterized(ks, i + 1);
      var s := ScanFrom(ks, i + 1);
      if ks[i].key != DEL {
        assert s.bank > 0 <==> Charged(ks, i);
      }
    }
  }

  /** The counts of the report's table, and nothing else, are the charges. */
  lemma DeletionsAreCharges(ks: seq<Keystroke>, k: string)
    requires |ks| > 1
    ensures k in ScanFrom(ks, 2).counts <==> ChargeCount(ks, 2, k) > 0
    ensures k in ScanFrom(ks, 2).counts ==> ScanFrom(ks, 2).counts[k] == ChargeCount(ks, 2, k)
  {
    ScanCharacterized(ks, 2);
  }

  /** Every charge spends a banked deletion, so the counts never add up to
      more than the deletions the scan visits. */
  lemma {:induction false} ScanBounded(ks: seq<Keystroke>, i: nat)
    requires 2 <= i <= |ks|
    ensures MapSum(ScanFrom(ks, i).counts) + ScanFrom(ks, i).bank <= DelsFrom(ks, i)
    decreases |ks| - i
  {
    if i < |ks| {
      ScanBounded(ks, i + 1);
      var s := ScanFrom(ks, i + 1);
      if ks[i].key != DEL && s.bank > 0 {
        MapSumBump(s.counts, ks[i - 1].key);
      }
    }
  }

  lemma DeletionsBounded(ks: seq<Keystroke>)
    requires |ks| > 1
    ensures MapSum(ScanFrom(ks, 2).counts) <= DelsFrom(ks, 2)
  {
    ScanBounded(ks, 2);
  }

  /** With no deletion among the scanned positions the bank stays empty and
      nothing is charged. */
  lemma {:induction false} NoDeletionsNoCharges(ks: seq<Keystroke>, i: nat)
    requires 2 <= i <= |ks|
    requires forall j :: i <= j < |ks| ==> ks[j].key != DEL
    ensures ScanFrom(ks, i) == ScanState(0, map[])
    decreases |ks| - i
  {
    if i < |ks| {
      NoDeletionsNoCharges(ks, i + 1);
    }
  }

  /** A deletion right after the first two keys is never charged: the scan
      stops before position 1, and the charge would go two positions back. */
  lemma TrailingDeletionAfterTwoKeys()
    ensures ScanFrom([Keystroke(0, "a"), Keystroke(1, "b"), Keystroke(2, DEL)], 2).counts == map[]
  {
  }

  /** A single deletion after a, b, c charges b, the key two positions before
      it. */
  lemma DeletionChargesTwoBack()
    ensures ScanFrom([Keystroke(0, "a"), Keystroke(1, "b"), Keystroke(2, "c"), Keystroke(3, DEL)], 2).counts
      == map["b" := 1]
  {
    var ks := [Keystroke(0, "a"), Keystroke(1, "b"), Keystroke(2, "c"), Keystroke(3, DEL)];
    assert ScanFrom(ks, 3) == ScanState(1, map[]);
    assert ScanFrom(ks, 2) == ScanState(0, Bump(map[], "b"));
  }

  /** A run of two deletions charges once, since the bank is emptied rather
      than decremented. */
  lemma RunChargesOnce()
    ensures ScanFrom([Keystroke(0, "a"), Keystroke(1, "b"), Keystroke(2, "c"), Keystroke(3, DEL), Keystroke(4, DEL)], 2).counts
      == map["b" := 1]
  {
    var ks := [Keystroke(0, "a"), Keystroke(1, "b"), Keystroke(2, "c"), Keystroke(3, DEL), Keystroke(4, DEL)];
    assert ScanFrom(ks, 4) == ScanState(1, map[]);
    assert ScanFrom(ks, 3) == ScanState(2, map[]);
    assert ScanFrom(ks, 2) == ScanState(0, Bump(map[], "b"));
  }
}
