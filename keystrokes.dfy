/** Shared vocabulary of the keystroke-log analysis: the event record, the
    outcomes of the analyses that can fail, and counting over event
    sequences and over key-to-count tables. */
module Keystrokes {

  /** One logged keystroke: Unix epoch seconds and the key token, either a
      single character or a bracketed name such as "[return]" or "[del]". */
  datatype Keystroke = Keystroke(time: int, key: string)

  datatype Option<T> = None | Some(value: T)

  /** The ways an analysis fails; each stands for an exception the report
      raises. */
  datatype Error =
    | ParseError(line: nat)   // the line at this index has no numeric timestamp
    | InsufficientData        // an analysis that needs two events got fewer
    | DivisionUndefined       // words per minute over zero elapsed seconds

  datatype Result<T> = Success(value: T) | Failure(error: Error)

  const DEL: string := "[del]"
  const TAB: string := "[tab]"
  const RETURN: string := "[return]"

  /** Longest gap, in seconds, that one pair of keystrokes may contribute. */
  const MaxGap: int := 5

  /** The seconds one gap contributes: min(gap, 5). */
  function Cap(gap: int): (c: int)
    ensures c <= MaxGap && c <= gap
    ensures c == gap || c == MaxGap
  {
    if MaxGap < gap then MaxGap else gap
  }

  /** Events are given in non-decreasing time order. */
  ghost predicate TimeOrdered(ks: seq<Keystroke>) {
    forall i, j :: 0 <= i < j < |ks| ==> ks[i].time <= ks[j].time
  }

  /** The keys that occur in ks. */
  function KeySet(ks: seq<Keystroke>): set<string> {
    set i | 0 <= i < |ks| :: ks[i].key
  }

  /** The number of events in ks whose key is k. */
  function Count(ks: seq<Keystroke>, k: string): (c: nat)
    ensures c <= |ks|
  {
    if ks == [] then 0
    else Count(ks[..|ks| - 1], k) + (if ks[|ks| - 1].key == k then 1 else 0)
  }

  lemma {:induction false} CountPositive(ks: seq<Keystroke>, k: string)
    ensures Count(ks, k) > 0 <==> k in KeySet(ks)
  {
    if ks != [] {
      var p := ks[..|ks| - 1];
      CountPositive(p, k);
      assert KeySet(ks) == KeySet(p) + {ks[|ks| - 1].key} by {
        forall x | x in KeySet(ks) ensures x in KeySet(p) + {ks[|ks| - 1].key} {
          var i :| 0 <= i < |ks| && ks[i].key == x;
          if i < |ks| - 1 { assert p[i] == ks[i]; }
        }
        forall x | x in KeySet(p) ensures x in KeySet(ks) {
          var i :| 0 <= i < |p| && p[i].key == x;
          assert ks[i] == p[i];
        }
      }
    }
  }

  /** The count over a one-event extension. */
  lemma CountSnoc(ks: seq<Keystroke>, i: nat)
    requires i < |ks|
    ensures forall k :: Count(ks[..i + 1], k) == Count(ks[..i], k) + (if ks[i].key == k then 1 else 0)
  {
    assert ks[..i + 1][..i] == ks[..i];
  }

  /** The key set of a one-event extension. */
  lemma KeySetSnoc(ks: seq<Keystroke>, i: nat)
    requires i < |ks|
    ensures KeySet(ks[..i + 1]) == KeySet(ks[..i]) + {ks[i].key}
  {
    var p, q := ks[..i], ks[..i + 1];
    forall x | x in KeySet(q) ensures x in KeySet(p) + {ks[i].key} {
      var j :| 0 <= j < |q| && q[j].key == x;
      if j < i { assert p[j] == q[j]; }
    }
    forall x | x in KeySet(p) + {ks[i].key} ensures x in KeySet(q) {
      if x == ks[i].key { assert q[i] == ks[i]; }
      else { var j :| 0 <= j < |p| && p[j].key == x; assert q[j] == p[j]; }
    }
  }

  /** The table after one more occurrence of k: `if k not in m: m[k] = 0`
      followed by `m[k] += 1`. */
  function Bump(m: map<string, nat>, k: string): (r: map<string, nat>)
    ensures r.Keys == m.Keys + {k}
    ensures r[k] == (if k in m then m[k] else 0) + 1
    ensures forall x :: x in m && x != k ==> r[x] == m[x]
  {
    m[k := (if k in m then m[k] else 0) + 1]
  }

  /** The sum of the counts of a table. */
  ghost function MapSum(m: map<string, nat>): nat
    decreases |m|
  {
    if m == map[] then 0
    else
      var k :| k in m;
      m[k] + MapSum(m - {k})
  }

  /** Any one key may be taken out first. */
  lemma {:induction false} MapSumRemove(m: map<string, nat>, k: string)
    requires k in m
    ensures MapSum(m) == m[k] + MapSum(m - {k})
    decreases |m|
  {
    var j :| j in m && MapSum(m) == m[j] + MapSum(m - {j});
    if j != k {
      MapSumRemove(m - {j}, k);
      MapSumRemove(m - {k}, j);
      assert m - {j} - {k} == m - {k} - {j};
    }
  }

  /** Setting the count of k to v changes the sum by v minus the old count. */
  lemma MapSumUpdate(m: map<string, nat>, k: string, v: nat)
    ensures MapSum(m[k := v]) + (if k in m then m[k] else 0) == MapSum(m) + v
  {
    MapSumRemove(m[k := v], k);
    assert m[k := v] - {k} == m - {k};
    if k in m {
      MapSumRemove(m, k);
    } else {
      assert m - {k} == m;
    }
  }

  lemma MapSumBump(m: map<string, nat>, k: string)
    ensures MapSum(Bump(m, k)) == MapSum(m) + 1
  {
    MapSumUpdate(m, k, (if k in m then m[k] else 0) + 1);
  }

  /** A set that is sp plus, when b holds, the fresh element n. */
  lemma CardSnoc(s: set<int>, sp: set<int>, n: int, b: bool)
    requires n !in sp
    requires forall i :: i in s <==> i in sp || (b && i == n)
    ensures |s| == |sp| + (if b then 1 else 0)
  {
    var t := if b then sp + {n} else sp;
    forall i ensures i in s <==> i in t {
      assert i in s <==> i in sp || (b && i == n);
    }
    assert s == t;
  }
}
