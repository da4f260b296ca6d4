/** Which elements of a sequence carry a flag: all of them in order, and the first one. */
module Flags {
  import opened Outcomes

  /** The indices from `i` on whose flag is set, in increasing order. */
  function Where(flags: seq<bool>, i: nat): (r: seq<nat>)
    requires i <= |flags|
    ensures forall k :: 0 <= k < |r| ==> i <= r[k] < |flags|
    ensures |r| <= |flags| - i
    decreases |flags| - i
  {
    if i == |flags| then [] else (if flags[i] then [i] else []) + Where(flags, i + 1)
  }

  /** The first index from `i` on whose flag is set. */
  function First(flags: seq<bool>, i: nat): (r: Option<nat>)
    requires i <= |flags|
    ensures r.Some? ==> i <= r.value < |flags| && flags[r.value]
    ensures forall k :: i <= k < (if r.Some? then r.value else |flags|) ==> !flags[k]
    decreases |flags| - i
  {
    if i == |flags| then None else if flags[i] then Some(i) else First(flags, i + 1)
  }

  predicate AllTrue(flags: seq<bool>) {
    forall k :: 0 <= k < |flags| ==> flags[k]
  }

  function Chosen(flags: seq<bool>): set<nat> {
    set k: nat | k < |flags| && flags[k]
  }

  lemma {:induction false} WhereStep(flags: seq<bool>, i: nat, before: seq<nat>)
    requires i <= |flags|
    ensures i < |flags| && flags[i] ==> before + Where(flags, i) == (before + [i]) + Where(flags, i + 1)
    ensures i < |flags| && !flags[i] ==> before + Where(flags, i) == before + Where(flags, i + 1)
    ensures i == |flags| ==> before + Where(flags, i) == before
  {
    if i < |flags| {
      var rest := Where(flags, i + 1);
      assert [] + rest == rest;
      assert before + ([i] + rest) == (before + [i]) + rest;
    }
  }

  lemma {:induction false} WhereMember(flags: seq<bool>, i: nat, k: nat)
    requires i <= |flags|
    ensures k in Where(flags, i) <==> i <= k < |flags| && flags[k]
    decreases |flags| - i
  {
    if i < |flags| {
      WhereMember(flags, i + 1, k);
    }
  }

  lemma {:induction false} WhereIncreases(flags: seq<bool>, i: nat)
    requires i <= |flags|
    ensures forall j, k :: 0 <= j < k < |Where(flags, i)| ==> Where(flags, i)[j] < Where(flags, i)[k]
    decreases |flags| - i
  {
    if i < |flags| {
      WhereIncreases(flags, i + 1);
    }
  }

  /** Every index is listed exactly when every flag is set. */
  lemma {:induction false} WhereAll(flags: seq<bool>, i: nat)
    requires i <= |flags|
    ensures |Where(flags, i)| == |flags| - i <==> forall k :: i <= k < |flags| ==> flags[k]
    ensures |Where(flags, i)| == |flags| - i ==> forall j :: 0 <= j < |flags| - i ==> Where(flags, i)[j] == i + j
    decreases |flags| - i
  {
    if i < |flags| {
      WhereAll(flags, i + 1);
    }
  }

  lemma {:induction false} WhereNone(flags: seq<bool>, i: nat)
    requires i <= |flags|
    ensures Where(flags, i) == [] <==> forall k :: i <= k < |flags| ==> !flags[k]
    decreases |flags| - i
  {
    if i < |flags| {
      WhereNone(flags, i + 1);
    }
  }

  lemma {:induction false} FirstIs(flags: seq<bool>, i: nat, k: nat)
    requires i <= k < |flags| && flags[k] && forall j :: i <= j < k ==> !flags[j]
    ensures First(flags, i) == Some(k)
    decreases k - i
  {
    if i < k {
      FirstIs(flags, i + 1, k);
    }
  }
}
