/**
 Patching an event a second time: nothing that a reader of the configuration sees changes any
 more, and where the desired handler already stands alone in its group, not a byte changes.
 */
module PatchAgain {
  import opened Outcomes
  import opened Flags
  import opened Splicing
  import opened JsonLayout
  import opened ListSplice
  import opened ListEditing
  import opened EventPlan
  import opened HandlerPatch
  import opened EventText
  import opened EventSplice
  import opened EventMeaning
  import opened Appending

  /**
   The groups are as a patch leaves them: the first group that can host the desired handler ends
   with it, and there is no other owned handler.  `found` says whether the host came before.
   */
  predicate Tidy(event: string, entry: Option<Entry>, owner: Owner, groups: seq<Group>, found: bool) {
    if groups == [] then entry.Some? ==> found
    else
      var g := groups[0];
      var here := !found && Hosts(entry, g);
      && (g.Hooked? ==>
            Bodies(g.handlers.cells) == Foreign(event, owner, Bodies(g.handlers.cells)) + if here then [entry.value.handler] else [])
      && Tidy(event, entry, owner, groups[1..], found || here)
  }

  lemma {:induction false} TidyGroup(event: string, entry: Option<Entry>, owner: Owner, groups: seq<Group>, lead: string, i: nat)
    requires AllWs(lead) && WfDesired(entry) && Recognised(event, owner, entry)
    requires i < |groups| && WfGroup(groups[i]) && !Goes(event, owner, Host(entry, groups), groups, i)
    ensures var g := PatchedGroups(event, entry, owner, groups, lead)[i];
      && (Hosts(entry, g) <==> Hosts(entry, groups[i]))
      && (g.Hooked? ==>
            Bodies(g.handlers.cells) == Foreign(event, owner, Bodies(g.handlers.cells)) + AsSeq(PlacedIn(entry, Host(entry, groups), i)))
  {
    hide Host, Foreign, OwnedOf;
    HostIsHooked(entry, groups);
    var g, placed := groups[i], PlacedIn(entry, Host(entry, groups), i);
    PatchedGroupMeans(event, owner, g, placed, lead);
    if g.Hooked? {
      PatchedHandlersMean(event, owner, Bodies(g.handlers.cells), placed);
    }
  }

  lemma {:induction false} OneMoreTidy(event: string, entry: Option<Entry>, owner: Owner, g: Group, rest: seq<Group>, found: bool)
    requires Tidy(event, entry, owner, rest, found || Hosts(entry, g))
    requires g.Hooked? ==>
      Bodies(g.handlers.cells) == Foreign(event, owner, Bodies(g.handlers.cells)) + if !found && Hosts(entry, g) then [entry.value.handler] else []
    ensures Tidy(event, entry, owner, [g] + rest, found)
  {
    hide Foreign, Hosts;
    assert ([g] + rest)[1..] == rest;
  }

  lemma {:induction false} KeptAreTidy(event: string, entry: Option<Entry>, owner: Owner, groups: seq<Group>, lead: string, i: nat)
    requires AllWs(lead) && WfDesired(entry) && Recognised(event, owner, entry)
    requires i <= |groups| && forall k :: 0 <= k < |groups| ==> WfGroup(groups[k])
    ensures var host := Host(entry, groups);
      var kept := Keep(PatchedGroups(event, entry, owner, groups, lead), Going(event, owner, host, groups), i);
      Tidy(event, entry, owner, kept + if NeedsGroup(entry, groups) then [NewGroup(entry.value)] else [], host.Some? && host.value < i)
    decreases |groups| - i
  {
    hide Host, PatchedGroup, Goes, Foreign, Tidy, Hosts, WfGroup;
    HostIsHooked(entry, groups);
    var host := Host(entry, groups);
    var patched, going := PatchedGroups(event, entry, owner, groups, lead), Going(event, owner, host, groups);
    var last := if NeedsGroup(entry, groups) then [NewGroup(entry.value)] else [];
    if i < |groups| {
      var rest := Keep(patched, going, i + 1) + last;
      KeptAreTidy(event, entry, owner, groups, lead, i + 1);
      HostStays(event, entry, owner, groups);
      if going[i] {
        assert Keep(patched, going, i) + last == rest;
      } else {
        TidyGroup(event, entry, owner, groups, lead, i);
        OneMoreTidy(event, entry, owner, patched[i], rest, host.Some? && host.value < i);
        SeqAssoc([patched[i]], Keep(patched, going, i + 1), last);
      }
    } else {
      LastIsTidy(event, entry, owner, host);
      assert Keep(patched, going, i) + last == last;
    }
  }

  lemma {:induction false} LastIsTidy(event: string, entry: Option<Entry>, owner: Owner, host: Option<nat>)
    requires WfDesired(entry) && Recognised(event, owner, entry)
    ensures Tidy(event, entry, owner, if entry.Some? && host.None? then [NewGroup(entry.value)] else [], host.Some?)
  {
    hide Bodies, WfGroup, GroupText, Foreign, OwnedOf, WfBody;
    if entry.Some? && host.None? {
      NewGroupText(entry.value);
      OneBody(event, owner, entry.value.handler);
      assert [NewGroup(entry.value)][1..] == [];
    }
  }

  /** In tidy groups, each group holds its foreign handlers and, if it is the host, the desired one. */
  lemma {:induction false} TidyMeans(event: string, entry: Option<Entry>, owner: Owner, groups: seq<Group>, i: nat, k: nat)
    requires i <= |groups|
    requires Tidy(event, entry, owner, groups[i..], Host(entry, groups).Some? && Host(entry, groups).value < i)
    ensures !NeedsGroup(entry, groups)
    ensures i <= k < |groups| && groups[k].Hooked? ==>
      Bodies(groups[k].handlers.cells) == Foreign(event, owner, Bodies(groups[k].handlers.cells)) + AsSeq(PlacedIn(entry, Host(entry, groups), k))
    decreases |groups| - i
  {
    hide Host, Foreign;
    HostIsHooked(entry, groups);
    if i < |groups| {
      assert groups[i..][1..] == groups[i + 1..] && groups[i..][0] == groups[i];
      TidyMeans(event, entry, owner, groups, i + 1, k);
    }
  }

  function ViewOf(g: Group): View {
    if g.Plain? then Text(g.text) else Handlers(g.before, Bodies(g.handlers.cells), g.after, g.matcher)
  }

  /** What a reader of the event sees, white space between handlers and groups aside. */
  function Views(groups: seq<Group>): (r: seq<View>)
    ensures |r| == |groups|
  {
    seq(|groups|, i requires 0 <= i < |groups| => ViewOf(groups[i]))
  }

  lemma {:induction false} TidyGroupStays(event: string, entry: Option<Entry>, owner: Owner, groups: seq<Group>, lead: string, i: nat)
    requires AllWs(lead) && WfDesired(entry) && Recognised(event, owner, entry)
    requires Tidy(event, entry, owner, groups, false)
    requires i < |groups| && WfGroup(groups[i])
    ensures !Goes(event, owner, Host(entry, groups), groups, i)
    ensures ViewOf(PatchedGroups(event, entry, owner, groups, lead)[i]) == ViewOf(groups[i])
  {
    hide Host, Foreign, OwnedOf;
    assert groups[0..] == groups;
    TidyMeans(event, entry, owner, groups, 0, i);
    HostIsHooked(entry, groups);
    var g, placed := groups[i], PlacedIn(entry, Host(entry, groups), i);
    PatchedGroupMeans(event, owner, g, placed, lead);
    if g.Hooked? {
      EmptiedIff(event, owner, g.handlers);
      BodiesAt(g.handlers.cells, 0);
      PatchedHandlersMean(event, owner, Bodies(g.handlers.cells), placed);
    }
  }

  lemma {:induction false} AllKept(groups: seq<Group>, going: seq<bool>, i: nat)
    requires |going| == |groups| && i <= |groups| && forall k :: 0 <= k < |groups| ==> !going[k]
    ensures Keep(groups, going, i) == groups[i..]
    decreases |groups| - i
  {
    if i < |groups| {
      AllKept(groups, going, i + 1);
      assert groups[i..] == [groups[i]] + groups[i + 1..];
    }
  }

  lemma {:induction false} TidyStays(event: string, entry: Option<Entry>, owner: Owner, groups: seq<Group>, lead: string)
    requires AllWs(lead) && WfDesired(entry) && Recognised(event, owner, entry)
    requires Tidy(event, entry, owner, groups, false)
    requires forall k :: 0 <= k < |groups| ==> WfGroup(groups[k])
    ensures FinalGroups(event, entry, owner, groups, lead) == PatchedGroups(event, entry, owner, groups, lead)
    ensures forall k :: 0 <= k < |groups| ==> !Going(event, owner, Host(entry, groups), groups)[k]
    ensures !NeedsGroup(entry, groups)
    ensures Views(FinalGroups(event, entry, owner, groups, lead)) == Views(groups)
  {
    hide Host, ViewOf, PatchedGroup, Goes;
    var patched, going := PatchedGroups(event, entry, owner, groups, lead), Going(event, owner, Host(entry, groups), groups);
    forall k | 0 <= k < |groups| ensures !going[k] && ViewOf(patched[k]) == ViewOf(groups[k]) {
      TidyGroupStays(event, entry, owner, groups, lead, k);
    }
    AllKept(patched, going, 0);
    assert groups[0..] == groups && patched[0..] == patched;
    TidyMeans(event, entry, owner, groups, 0, 0);
    assert patched + [] == patched;
  }

  /** A second patch can always be made, and changes nothing that a reader sees. */
  lemma {:induction false} PatchedTwice(event: string, entry: Option<Entry>, owner: Owner, groups: seq<Group>, lead: string, lead': string)
    requires AllWs(lead) && AllWs(lead') && WfDesired(entry) && Recognised(event, owner, entry)
    requires forall k :: 0 <= k < |groups| ==> WfGroup(groups[k])
    ensures var once := FinalGroups(event, entry, owner, groups, lead);
      && Views(FinalGroups(event, entry, owner, once, lead')) == Views(once)
      && forall l: List :: Holding(l, once) ==> !Unpatchable(event, entry, owner, l, once)
  {
    hide Host, Tidy, Keep, Views;
    var once := FinalGroups(event, entry, owner, groups, lead);
    KeptAreTidy(event, entry, owner, groups, lead, 0);
    FinalGroupsWf(event, entry, owner, groups, lead);
    forall k | 0 <= k < |once| ensures WfGroup(once[k]) {
      assert once[k] in once;
    }
    TidyStays(event, entry, owner, once, lead');
  }

  // ---- byte for byte ------------------------------------------------------------------------------

  /**
   When the desired handler already is the only one of its group, in the serialised form, and no
   other handler is owned, the patched array is the array, byte for byte.
   */
  lemma {:induction false} UnchangedArray(src: string, event: string, entry: Option<Entry>, owner: Owner, base: nat, l: List, groups: seq<Group>)
    requires EventStands(src, base, l, groups) && WfDesired(entry) && Recognised(event, owner, entry)
    requires Tidy(event, entry, owner, groups, false)
    requires Host(entry, groups).Some? ==> Bodies(groups[Host(entry, groups).value].handlers.cells) == [entry.value.handler]
    ensures PatchedArray(event, entry, owner, src, base, l, groups) == l
  {
    hide Host, PatchedGroup, Goes, Foreign, GroupText, Splice, WfGroup;
    var host := Host(entry, groups);
    var lead, going := HostLead(src, base, l, groups, host), Going(event, owner, host, groups);
    var patched := PatchedGroups(event, entry, owner, groups, lead);
    HostIsHooked(entry, groups);
    TidyStays(event, entry, owner, groups, lead);
    assert groups[0..] == groups;
    forall i | 0 <= i < |groups| ensures patched[i] == groups[i] {
      TidyMeans(event, entry, owner, groups, 0, i);
      if groups[i].Hooked? {
        SameGroup(event, owner, groups[i], PlacedIn(entry, host, i), lead);
      } else {
        PatchedGroupMeans(event, owner, groups[i], None, lead);
      }
    }
    assert patched == groups;
    BodiesAt(l.cells, 0);
    forall i | 0 <= i < |groups| ensures Texts(groups)[i] == Bodies(l.cells)[i] {
      BodiesAt(l.cells, i);
    }
    assert Texts(patched) == Bodies(l.cells);
    assert Chosen(going) == {};
    NothingSpliced(l);
  }
}
