/** The frequency counter: a table from each key to its number of
    occurrences. */
module Frequencies {
  import opened Keystrokes

  /** One pass over the events, creating a key's entry at zero on first
      sight and adding one per occurrence. The table holds exactly the keys
      that occur, each with its number of occurrences, and the counts add up
      to the number of events. */
  method ComputeFrequencies(ks: seq<Keystroke>) returns (freq: map<string, nat>)
    ensures freq.Keys == KeySet(ks)
    ensures forall k :: k in freq ==> freq[k] == Count(ks, k)
    ensures MapSum(freq) == |ks|
  {
    freq := map[];
    for i := 0 to |ks|
      invariant freq.Keys == KeySet(ks[..i])
      invariant forall k :: k in freq ==> freq[k] == Count(ks[..i], k)
      invariant MapSum(freq) == i
    {
      var key := ks[i].key;
      ghost var before := freq;
      if key !in freq {
        freq := freq[key := 0];
      }
      freq := freq[key := freq[key] + 1];
      assert freq == Bump(before, key);
      CountStep(ks, i, before);
    }
    assert ks[..|ks|] == ks;
  }

  /** Bumping the key of event i turns the table of ks[..i] into the table
      of ks[..i+1]. */
  lemma CountStep(ks: seq<Keystroke>, i: nat, freq: map<string, nat>)
    requires i < |ks|
    requires freq.Keys == KeySet(ks[..i])
    requires forall k :: k in freq ==> freq[k] == Count(ks[..i], k)
    requires MapSum(freq) == i
    ensures Bump(freq, ks[i].key).Keys == KeySet(ks[..i + 1])
    ensures forall k :: k in Bump(freq, ks[i].key) ==> Bump(freq, ks[i].key)[k] == Count(ks[..i + 1], k)
    ensures MapSum(Bump(freq, ks[i].key)) == i + 1
  {
    MapSumBump(freq, ks[i].key);
    KeySetSnoc(ks, i);
    CountSnoc(ks, i);
    CountPositive(ks[..i], ks[i].key);
  }
}
