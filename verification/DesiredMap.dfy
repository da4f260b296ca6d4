/**
 The desired entries of a patch, one per event: a map kept as a list in the order of its keys, in
 which a later entry for an event replaces an earlier one.
 */
module DesiredMap {
  import opened Outcomes
  import opened EventPlan

  datatype Desired = Desired(event: string, entry: Entry)

  /** The lexicographic order of keys. */
  predicate Less(a: string, b: string) {
    b != [] && (a == [] || a[0] < b[0] || (a[0] == b[0] && Less(a[1..], b[1..])))
  }

  /** At the first position where they differ, the smaller key has the smaller character or has ended. */
  lemma {:induction false} LessIs(a: string, b: string)
    ensures Less(a, b) <==> exists k :: 0 <= k <= |a| && k < |b| && a[..k] == b[..k] && (k == |a| || a[k] < b[k])
  {
    if a != [] && b != [] && a[0] == b[0] {
      LessIs(a[1..], b[1..]);
      if Less(a[1..], b[1..]) {
        var k :| 0 <= k <= |a[1..]| && k < |b[1..]| && a[1..][..k] == b[1..][..k] && (k == |a[1..]| || a[1..][k] < b[1..][k]);
        FirstAlike(a, b, k + 1);
      }
      if exists k :: 0 <= k <= |a| && k < |b| && a[..k] == b[..k] && (k == |a| || a[k] < b[k]) {
        var k :| 0 <= k <= |a| && k < |b| && a[..k] == b[..k] && (k == |a| || a[k] < b[k]);
        assert k > 0;
        FirstAlike(a, b, k);
        assert a[1..][..k - 1] == b[1..][..k - 1];
      }
    } else {
      assert a[..0] == b[..0];
      if exists k :: 0 <= k <= |a| && k < |b| && a[..k] == b[..k] && (k == |a| || a[k] < b[k]) {
        var k :| 0 <= k <= |a| && k < |b| && a[..k] == b[..k] && (k == |a| || a[k] < b[k]);
        if k > 0 {
          FirstAlike(a, b, k);
        }
      }
    }
  }

  lemma {:induction false} FirstAlike(a: string, b: string, k: nat)
    requires 0 < k <= |a| && k <= |b|
    ensures a[..k] == b[..k] <==> a[0] == b[0] && a[1..][..k - 1] == b[1..][..k - 1]
  {
    assert a[..k] == [a[0]] + a[1..][..k - 1] && b[..k] == [b[0]] + b[1..][..k - 1];
  }

  lemma {:induction false} LessOrTie(a: string, b: string)
    ensures a == b || Less(a, b) || Less(b, a)
    ensures !Less(a, a)
  {
    if a != [] {
      LessOrTie(a[1..], if b == [] then [] else b[1..]);
      if b != [] {
        assert a == [a[0]] + a[1..] && b == [b[0]] + b[1..];
      }
    }
  }

  lemma {:induction false} LessTrans(a: string, b: string, c: string)
    requires Less(a, b) && Less(b, c)
    ensures Less(a, c)
  {
    if a != [] && a[0] == b[0] == c[0] {
      LessTrans(a[1..], b[1..], c[1..]);
    }
  }

  predicate Increasing(m: seq<Desired>) {
    forall i, j :: 0 <= i < j < |m| ==> Less(m[i].event, m[j].event)
  }

  function Find(m: seq<Desired>, event: string): Option<Entry> {
    if m == [] then None else if m[0].event == event then Some(m[0].entry) else Find(m[1..], event)
  }

  lemma {:induction false} FindMember(m: seq<Desired>, i: nat)
    requires Increasing(m) && i < |m|
    ensures Find(m, m[i].event) == Some(m[i].entry)
  {
    LessOrTie(m[0].event, m[0].event);
    if i > 0 {
      FindMember(m[1..], i - 1);
    }
  }

  function Put(m: seq<Desired>, d: Desired): seq<Desired> {
    if m == [] || Less(d.event, m[0].event) then [d] + m
    else if m[0].event == d.event then [d] + m[1..]
    else [m[0]] + Put(m[1..], d)
  }

  lemma {:induction false} PutKeys(m: seq<Desired>, d: Desired, x: Desired)
    requires x in Put(m, d)
    ensures x == d || x in m
  {
    if m != [] && !Less(d.event, m[0].event) && m[0].event != d.event && x != m[0] {
      PutKeys(m[1..], d, x);
    }
  }

  lemma {:induction false} PutIncreases(m: seq<Desired>, d: Desired)
    requires Increasing(m)
    ensures Increasing(Put(m, d))
  {
    if m != [] {
      LessOrTie(d.event, m[0].event);
      if Less(d.event, m[0].event) {
        forall j | 0 <= j < |m| ensures Less(d.event, m[j].event) {
          if j > 0 {
            LessTrans(d.event, m[0].event, m[j].event);
          }
        }
      } else if m[0].event != d.event {
        var rest := Put(m[1..], d);
        PutIncreases(m[1..], d);
        forall j | 0 <= j < |rest| ensures Less(m[0].event, rest[j].event) {
          PutKeys(m[1..], d, rest[j]);
        }
      }
    }
  }

  lemma {:induction false} FindPut(m: seq<Desired>, d: Desired, event: string)
    ensures Find(Put(m, d), event) == if event == d.event then Some(d.entry) else Find(m, event)
  {
    LessOrTie(d.event, event);
    if m == [] || Less(d.event, m[0].event) {
      assert ([d] + m)[1..] == m;
    } else if m[0].event == d.event {
      assert ([d] + m[1..])[1..] == m[1..];
    } else {
      FindPut(m[1..], d, event);
      assert ([m[0]] + Put(m[1..], d))[1..] == Put(m[1..], d);
    }
  }

  /** The last of the first `n` entries for an event. */
  function LastFor(entries: seq<Desired>, n: nat, event: string): Option<Entry>
    requires n <= |entries|
  {
    if n == 0 then None
    else if entries[n - 1].event == event then Some(entries[n - 1].entry)
    else LastFor(entries, n - 1, event)
  }

  /** One entry per event, the last one winning. */
  function Collected(entries: seq<Desired>, n: nat): seq<Desired>
    requires n <= |entries|
  {
    if n == 0 then [] else Put(Collected(entries, n - 1), entries[n - 1])
  }

  lemma {:induction false} CollectedIsMap(entries: seq<Desired>, n: nat, event: string)
    requires n <= |entries|
    ensures Increasing(Collected(entries, n))
    ensures Find(Collected(entries, n), event) == LastFor(entries, n, event)
  {
    if n > 0 {
      CollectedIsMap(entries, n - 1, event);
      PutIncreases(Collected(entries, n - 1), entries[n - 1]);
      FindPut(Collected(entries, n - 1), entries[n - 1], event);
    }
  }

  predicate AllCatalogued(catalogued: set<string>, entries: seq<Desired>) {
    forall k :: 0 <= k < |entries| ==> entries[k].event in catalogued
  }

  /** Collects the entries; an event that is not catalogued is an error. */
  method Collect(catalogued: set<string>, entries: seq<Desired>) returns (r: Option<seq<Desired>>)
    ensures r == if AllCatalogued(catalogued, entries) then Some(Collected(entries, |entries|)) else None
  {
    var m: seq<Desired> := [];
    for i := 0 to |entries|
      invariant forall k :: 0 <= k < i ==> entries[k].event in catalogued
      invariant m == Collected(entries, i)
    {
      if entries[i].event !in catalogued {
        return None;
      }
      m := Put(m, entries[i]);
    }
    return Some(m);
  }
}
