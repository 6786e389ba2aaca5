/**
 * The custom-listener collection: listener groups, each composed of one
 * listener record and the event records that name it as their listener.
 *
 * The store keeps two flat record streams (listeners and events). Reading
 * materialises the groups from them (`View`); every change re-flattens a whole
 * list of groups into the two streams (`ListenerRecords`, `EventRecords`).
 * The text codec is an exact round trip, so a stream is modelled by its
 * decoded records.
 */
module ListenerModel {
  import opened Decimal

  /** `CustomEvent`. `spec` is the header spec text, of which the parsed spec fields are an exact image. */
  datatype CustomEvent = CustomEvent(
    spec: string, iconId: Int32, id: string, description: string,
    parameters: string, name: string, code: string)

  /** `CustomListenerGroup`: compared structurally, as a data class is. */
  datatype ListenerGroup = ListenerGroup(
    name: string, independent: bool, customImport: string, code: string, events: seq<CustomEvent>)

  /** A record of the listeners stream: keys "name", "code", "s" and "imports". */
  datatype ListenerRecord = ListenerRecord(name: string, code: string, s: bool, imports: string)

  /** A record of the events stream: keys "headerSpec", "icon", "var", "description", "parameters", "name", "code" and "listener". */
  datatype EventRecord = EventRecord(
    headerSpec: string, icon: Int32, variable: string, description: string,
    parameters: string, name: string, code: string, listener: string)

  /** `activityListenerMap`: appended to the stored listener records on every read. */
  const ActivityRecord := ListenerRecord("", "", true, "")

  /** The group that `activityListenerMap` becomes, holding the events addressed to the empty name. */
  function ActivityGroup(events: seq<CustomEvent>): ListenerGroup {
    ListenerGroup("", true, "", "", events)
  }

  // ---------------------------------------------------------------------------
  // Reading: the materialised view

  function ToEvent(r: EventRecord): CustomEvent {
    CustomEvent(r.headerSpec, r.icon, r.variable, r.description, r.parameters, r.name, r.code)
  }

  /** The events of the group named `name`: the records whose listener is `name`, in stored order (at most one per record). */
  function EventsOf(events: seq<EventRecord>, name: string): (es: seq<CustomEvent>)
    ensures |es| <= |events|
  {
    if events == [] then []
    else (if events[0].listener == name then [ToEvent(events[0])] else []) + EventsOf(events[1..], name)
  }

  function GroupOf(r: ListenerRecord, events: seq<EventRecord>): ListenerGroup {
    ListenerGroup(r.name, r.s, r.imports, r.code, EventsOf(events, r.name))
  }

  /**
   * The value of `listenerProperty`: one group per stored listener record,
   * then one more for `activityListenerMap` (see `ViewLayout`).
   */
  function View(listeners: seq<ListenerRecord>, events: seq<EventRecord>): (v: seq<ListenerGroup>)
    ensures |v| == |listeners| + 1
  {
    var all := listeners + [ActivityRecord];
    seq(|all|, i requires 0 <= i < |all| => GroupOf(all[i], events))
  }

  // ---------------------------------------------------------------------------
  // Writing: re-flattening a list of groups (`saveLocally`)

  /** `filter { it.name != "" }`. */
  function NamedOnly(groups: seq<ListenerGroup>): (named: seq<ListenerGroup>)
    ensures forall g :: g in named <==> g in groups && g.name != ""
    ensures |named| <= |groups|
  {
    if groups == [] then []
    else (if groups[0].name != "" then [groups[0]] else []) + NamedOnly(groups[1..])
  }

  function ToListenerRecord(g: ListenerGroup): ListenerRecord {
    ListenerRecord(g.name, g.code, g.independent, g.customImport)
  }

  /** The new listeners stream: one record per group with a non-empty name, in list order. */
  function ListenerRecords(groups: seq<ListenerGroup>): (rs: seq<ListenerRecord>)
    ensures |rs| == |NamedOnly(groups)| <= |groups|
    ensures forall r <- rs :: r.name != ""
  {
    var named := NamedOnly(groups);
    assert forall i :: 0 <= i < |named| ==> named[i] in named;
    seq(|named|, i requires 0 <= i < |named| => ToListenerRecord(named[i]))
  }

  function ToEventRecord(e: CustomEvent, owner: string): EventRecord {
    EventRecord(e.spec, e.iconId, e.id, e.description, e.parameters, e.name, e.code, owner)
  }

  /** The events of one group as records tagged with the group's name. */
  function TagEvents(events: seq<CustomEvent>, owner: string): (rs: seq<EventRecord>)
    ensures |rs| == |events|
    ensures forall r <- rs :: r.listener == owner
  {
    if events == [] then [] else [ToEventRecord(events[0], owner)] + TagEvents(events[1..], owner)
  }

  /** The new events stream: the events of every group, the unnamed ones included, each tagged with its group's name. */
  function EventRecords(groups: seq<ListenerGroup>): (rs: seq<EventRecord>)
    ensures forall r <- rs :: exists g <- groups :: r.listener == g.name
  {
    if groups == [] then []
    else
      var rs := TagEvents(groups[0].events, groups[0].name) + EventRecords(groups[1..]);
      assert forall g <- groups[1..] :: g in groups;
      rs
  }

  // ---------------------------------------------------------------------------
  // Specification helpers

  /** No two groups share a name. */
  predicate UniqueNames(groups: seq<ListenerGroup>) {
    forall i, j :: 0 <= i < j < |groups| ==> groups[i].name != groups[j].name
  }

  /** A listeners stream whose names are non-empty and pairwise distinct. */
  predicate WellFormed(listeners: seq<ListenerRecord>) {
    (forall r <- listeners :: r.name != "") &&
    (forall i, j :: 0 <= i < j < |listeners| ==> listeners[i].name != listeners[j].name)
  }

  /** The events of all groups called `name`, in list order. */
  function EventsNamed(groups: seq<ListenerGroup>, name: string): seq<CustomEvent> {
    if groups == [] then []
    else (if groups[0].name == name then groups[0].events else []) + EventsNamed(groups[1..], name)
  }

  /** Each group of `named`, given the events that all groups of `all` with its name contribute. */
  function Regroup(named: seq<ListenerGroup>, all: seq<ListenerGroup>): seq<ListenerGroup> {
    seq(|named|, i requires 0 <= i < |named| => named[i].(events := EventsNamed(all, named[i].name)))
  }

  /** What the next read returns after `saveLocally(groups)`. */
  function Reloaded(groups: seq<ListenerGroup>): seq<ListenerGroup> {
    View(ListenerRecords(groups), EventRecords(groups))
  }

  /** Groups as a well-formed listeners stream yields them: distinct, non-empty names. */
  predicate StoredPart(groups: seq<ListenerGroup>) {
    UniqueNames(groups) && forall g <- groups :: g.name != ""
  }

  /** `removeIf { it.name == name }`. */
  function RemoveNamed(groups: seq<ListenerGroup>, name: string): (r: seq<ListenerGroup>)
    ensures forall g :: g in r <==> g in groups && g.name != name
    ensures (forall g <- groups :: g.name != name) ==> r == groups
  {
    if groups == [] then []
    else (if groups[0].name != name then [groups[0]] else []) + RemoveNamed(groups[1..], name)
  }

  /** `indexOfFirst { it.name == name }`: -1 when no group has the name. */
  function FirstNamed(groups: seq<ListenerGroup>, name: string): (k: int)
    ensures k == -1 <==> forall g <- groups :: g.name != name
    ensures k != -1 ==> 0 <= k < |groups| && groups[k].name == name
    ensures k != -1 ==> forall j :: 0 <= j < k ==> groups[j].name != name
  {
    if groups == [] then -1
    else if groups[0].name == name then 0
    else
      var k := FirstNamed(groups[1..], name);
      if k == -1 then -1 else k + 1
  }

  // ---------------------------------------------------------------------------
  // Reading back what was written

  /** The view is the stored groups in stored order, then exactly one activity group. */
  lemma ViewLayout(listeners: seq<ListenerRecord>, events: seq<EventRecord>)
    ensures var v := View(listeners, events);
      && |v| == |listeners| + 1
      && (forall i :: 0 <= i < |listeners| ==>
            v[i] == ListenerGroup(listeners[i].name, listeners[i].s, listeners[i].imports,
                                  listeners[i].code, EventsOf(events, listeners[i].name)))
      && v[|listeners|] == ActivityGroup(EventsOf(events, ""))
  {
  }

  lemma {:induction false} EventsOfConcat(a: seq<EventRecord>, b: seq<EventRecord>, name: string)
    ensures EventsOf(a + b, name) == EventsOf(a, name) + EventsOf(b, name)
  {
    if a != [] {
      assert (a + b)[1..] == a[1..] + b;
      EventsOfConcat(a[1..], b, name);
    } else {
      assert a + b == b;
    }
  }

  /** Tagging a group's events and selecting by name gives the events back exactly when the names agree. */
  lemma {:induction false} EventsOfTagged(events: seq<CustomEvent>, owner: string, name: string)
    ensures EventsOf(TagEvents(events, owner), name) == if owner == name then events else []
  {
    if events != [] {
      var rs := TagEvents(events, owner);
      assert rs[1..] == TagEvents(events[1..], owner);
      EventsOfTagged(events[1..], owner, name);
    }
  }

  /** After re-flattening, the events stored for a name are the events of all groups with that name. */
  lemma {:induction false} EventsOfEventRecords(groups: seq<ListenerGroup>, name: string)
    ensures EventsOf(EventRecords(groups), name) == EventsNamed(groups, name)
  {
    if groups != [] {
      EventsOfConcat(TagEvents(groups[0].events, groups[0].name), EventRecords(groups[1..]), name);
      EventsOfTagged(groups[0].events, groups[0].name, name);
      EventsOfEventRecords(groups[1..], name);
    }
  }

  /**
   * What the next read returns after `saveLocally(groups)`: every named group
   * in list order, each holding the events of all groups with its name, then
   * the activity group holding the events of all unnamed groups.
   */
  lemma SaveThenView(groups: seq<ListenerGroup>)
    ensures View(ListenerRecords(groups), EventRecords(groups))
         == Regroup(NamedOnly(groups), groups) + [ActivityGroup(EventsNamed(groups, ""))]
  {
    var named := NamedOnly(groups);
    var rs, es := ListenerRecords(groups), EventRecords(groups);
    var v, r := View(rs, es), Regroup(named, groups) + [ActivityGroup(EventsNamed(groups, ""))];
    assert |v| == |r| == |named| + 1;
    forall i | 0 <= i < |v| ensures v[i] == r[i] {
      if i < |named| {
        assert v[i] == GroupOf(rs[i], es);
        EventsOfEventRecords(groups, named[i].name);
      } else {
        EventsOfEventRecords(groups, "");
      }
    }
  }

  lemma {:induction false} EventsNamedAbsent(groups: seq<ListenerGroup>, name: string)
    requires forall g <- groups :: g.name != name
    ensures EventsNamed(groups, name) == []
  {
    if groups != [] {
      assert groups[0] in groups;
      assert forall g <- groups[1..] :: g in groups;
      EventsNamedAbsent(groups[1..], name);
    }
  }

  /** When no other group shares its name, the events collected for a group's name are its own. */
  lemma {:induction false} EventsNamedSole(groups: seq<ListenerGroup>, k: nat)
    requires k < |groups|
    requires forall j :: 0 <= j < |groups| && j != k ==> groups[j].name != groups[k].name
    ensures EventsNamed(groups, groups[k].name) == groups[k].events
  {
    if k == 0 {
      assert forall g <- groups[1..] :: g.name != groups[0].name by {
        forall g <- groups[1..] ensures g.name != groups[0].name {
          var j :| 0 <= j < |groups[1..]| && groups[1..][j] == g;
          assert groups[j + 1] == g;
        }
      }
      EventsNamedAbsent(groups[1..], groups[0].name);
    } else {
      assert groups[0].name != groups[k].name;
      assert groups[1..][k - 1] == groups[k];
      EventsNamedSole(groups[1..], k - 1);
    }
  }

  /** With distinct names, the next read returns the named groups unchanged, then the activity group. */
  lemma ViewAfterSaveUnique(groups: seq<ListenerGroup>)
    requires UniqueNames(groups)
    ensures View(ListenerRecords(groups), EventRecords(groups))
         == NamedOnly(groups) + [ActivityGroup(EventsNamed(groups, ""))]
  {
    SaveThenView(groups);
    var named := NamedOnly(groups);
    var regrouped := Regroup(named, groups);
    forall i | 0 <= i < |named| ensures regrouped[i] == named[i] {
      assert named[i] in groups;
      var k :| 0 <= k < |groups| && groups[k] == named[i];
      EventsNamedSole(groups, k);
    }
    assert regrouped == named;
  }

  lemma {:induction false} NamedOnlyConcat(a: seq<ListenerGroup>, b: seq<ListenerGroup>)
    ensures NamedOnly(a + b) == NamedOnly(a) + NamedOnly(b)
  {
    if a == [] {
      assert a + b == b;
    } else {
      assert (a + b)[1..] == a[1..] + b;
      NamedOnlyConcat(a[1..], b);
    }
  }

  lemma {:induction false} NamedOnlyAllNamed(groups: seq<ListenerGroup>)
    requires forall g <- groups :: g.name != ""
    ensures NamedOnly(groups) == groups
  {
    if groups != [] {
      assert groups[0] in groups;
      assert forall g <- groups[1..] :: g in groups;
      NamedOnlyAllNamed(groups[1..]);
    }
  }

  lemma {:induction false} EventsNamedConcat(a: seq<ListenerGroup>, b: seq<ListenerGroup>, name: string)
    ensures EventsNamed(a + b, name) == EventsNamed(a, name) + EventsNamed(b, name)
  {
    if a == [] {
      assert a + b == b;
    } else {
      assert (a + b)[1..] == a[1..] + b;
      EventsNamedConcat(a[1..], b, name);
    }
  }

  lemma {:induction false} RemoveNamedConcat(a: seq<ListenerGroup>, b: seq<ListenerGroup>, name: string)
    ensures RemoveNamed(a + b, name) == RemoveNamed(a, name) + RemoveNamed(b, name)
  {
    if a == [] {
      assert a + b == b;
    } else {
      var head := if a[0].name != name then [a[0]] else [];
      assert (a + b)[0] == a[0] && (a + b)[1..] == a[1..] + b;
      RemoveNamedConcat(a[1..], b, name);
      calc {
        RemoveNamed(a + b, name);
      ==
        head + RemoveNamed(a[1..] + b, name);
      ==
        head + (RemoveNamed(a[1..], name) + RemoveNamed(b, name));
      ==
        (head + RemoveNamed(a[1..], name)) + RemoveNamed(b, name);
      }
    }
  }

  lemma UniqueCons(x: ListenerGroup, rest: seq<ListenerGroup>)
    requires UniqueNames(rest) && forall g <- rest :: g.name != x.name
    ensures UniqueNames([x] + rest)
  {
    var all := [x] + rest;
    forall i, j | 0 <= i < j < |all| ensures all[i].name != all[j].name {
      assert all[j] == rest[j - 1];
      if i == 0 {
        assert rest[j - 1] in rest;
      } else {
        assert all[i] == rest[i - 1];
      }
    }
  }

  lemma {:induction false} RemoveNamedStored(groups: seq<ListenerGroup>, name: string)
    requires StoredPart(groups)
    ensures StoredPart(RemoveNamed(groups, name))
  {
    if groups != [] {
      var tail := groups[1..];
      assert StoredPart(tail) by {
        forall i, j | 0 <= i < j < |tail| ensures tail[i].name != tail[j].name {
          assert tail[i] == groups[i + 1] && tail[j] == groups[j + 1];
        }
      }
      RemoveNamedStored(tail, name);
      var rest := RemoveNamed(tail, name);
      forall g <- rest ensures g.name != groups[0].name {
        var j :| 0 <= j < |tail| && tail[j] == g;
        assert groups[j + 1] == g;
      }
      if groups[0].name != name {
        UniqueCons(groups[0], rest);
      }
    }
  }

  lemma RegroupConcat(a: seq<ListenerGroup>, b: seq<ListenerGroup>, all: seq<ListenerGroup>)
    ensures Regroup(a + b, all) == Regroup(a, all) + Regroup(b, all)
  {
  }

  /** Stored groups regrouped within a list where no other group shares their names keep their own events. */
  lemma RegroupStored(stored: seq<ListenerGroup>, extra: seq<ListenerGroup>)
    requires UniqueNames(stored)
    requires forall g <- extra, s <- stored :: g.name != s.name
    ensures Regroup(stored, stored + extra) == stored
  {
    forall i | 0 <= i < |stored| ensures EventsNamed(stored + extra, stored[i].name) == stored[i].events {
      EventsNamedConcat(stored, extra, stored[i].name);
      EventsNamedSole(stored, i);
      assert stored[i] in stored;
      EventsNamedAbsent(extra, stored[i].name);
    }
  }

  /**
   * The next read after saving stored groups followed by extra groups whose
   * names are not stored: the stored groups unchanged, then the named extra
   * groups with the events of their name, then the activity group holding the
   * events of the unnamed extra groups.
   */
  lemma ReloadStoredPlus(stored: seq<ListenerGroup>, extra: seq<ListenerGroup>)
    requires StoredPart(stored)
    requires forall g <- extra, s <- stored :: g.name != s.name
    ensures Reloaded(stored + extra)
         == stored + Regroup(NamedOnly(extra), stored + extra) + [ActivityGroup(EventsNamed(extra, ""))]
  {
    var all := stored + extra;
    var named := NamedOnly(extra);
    StoredNamedOnly(stored, extra);
    StoredUnnamedEvents(stored, extra);
    SaveThenView(all);
    RegroupConcat(stored, named, all);
    RegroupStored(stored, extra);
  }

  lemma StoredNamedOnly(stored: seq<ListenerGroup>, extra: seq<ListenerGroup>)
    requires forall g <- stored :: g.name != ""
    ensures NamedOnly(stored + extra) == stored + NamedOnly(extra)
  {
    NamedOnlyConcat(stored, extra);
    NamedOnlyAllNamed(stored);
  }

  lemma StoredUnnamedEvents(stored: seq<ListenerGroup>, extra: seq<ListenerGroup>)
    requires forall g <- stored :: g.name != ""
    ensures EventsNamed(stored + extra, "") == EventsNamed(extra, "")
  {
    EventsNamedConcat(stored, extra, "");
    EventsNamedAbsent(stored, "");
  }

  /** Round trip of `saveLocally`: stored groups followed by an activity group read back as exactly that list. */
  lemma RoundTrip(groups: seq<ListenerGroup>, activity: ListenerGroup)
    requires StoredPart(groups)
    requires activity == ActivityGroup(activity.events)
    ensures Reloaded(groups + [activity]) == groups + [activity]
  {
    ReloadStoredPlus(groups, [activity]);
    assert EventsNamed([activity], "") == activity.events;
  }

  /** The view of a well-formed stream: stored groups with distinct non-empty names, then the activity group. */
  lemma WellFormedView(listeners: seq<ListenerRecord>, events: seq<EventRecord>)
    requires WellFormed(listeners)
    ensures var v := View(listeners, events); var n := |listeners|;
      && StoredPart(v[..n])
      && (forall i :: 0 <= i < n ==> v[i].name == listeners[i].name)
      && v[n] == ActivityGroup(v[n].events)
      && v == v[..n] + [v[n]]
  {
    var v := View(listeners, events);
    forall g <- v[..|listeners|] ensures g.name != "" {
      var i :| 0 <= i < |listeners| && v[i] == g;
      assert listeners[i] in listeners;
    }
  }

  /** Saving the view of a well-formed stream and reading again gives the same view. */
  lemma ResaveView(listeners: seq<ListenerRecord>, events: seq<EventRecord>)
    requires WellFormed(listeners)
    ensures Reloaded(View(listeners, events)) == View(listeners, events)
  {
    var v := View(listeners, events);
    WellFormedView(listeners, events);
    RoundTrip(v[..|listeners|], v[|listeners|]);
  }

  /** Re-saving the view keeps only events addressed to a stored listener or to the empty name. */
  lemma ResaveDropsOrphans(listeners: seq<ListenerRecord>, events: seq<EventRecord>)
    ensures forall r <- EventRecords(View(listeners, events)) ::
      r.listener == "" || exists l <- listeners :: l.name == r.listener
  {
    var v := View(listeners, events);
    forall r <- EventRecords(v) ensures r.listener == "" || exists l <- listeners :: l.name == r.listener {
      var g :| g in v && r.listener == g.name;
      var i :| 0 <= i < |v| && v[i] == g;
      if i < |listeners| { assert listeners[i] in listeners; }
    }
  }

  lemma EventsNamedPair(a: ListenerGroup, b: ListenerGroup, name: string)
    ensures EventsNamed([a, b], name)
         == (if a.name == name then a.events else []) + (if b.name == name then b.events else [])
  {
    var eb := if b.name == name then b.events else [];
    assert [a, b][1..] == [b];
    assert [b][1..] == [];
    assert EventsNamed([b], name) == eb + EventsNamed([], name) == eb;
  }

  /** Adding a group after the activity group, at the level of stored groups (see `AddThenView`). */
  lemma AddToStored(stored: seq<ListenerGroup>, activity: ListenerGroup, group: ListenerGroup)
    requires StoredPart(stored) && activity == ActivityGroup(activity.events)
    requires forall s <- stored :: s.name != group.name
    ensures Reloaded(stored + [activity, group])
         == if group.name != "" then stored + [group, activity]
            else stored + [ActivityGroup(activity.events + group.events)]
  {
    if group.name != "" {
      AddNamedToStored(stored, activity, group);
    } else {
      AddUnnamedToStored(stored, activity, group);
    }
  }

  /** Neither the activity group nor a group whose name no stored group has clashes with a stored group. */
  lemma AddedNamesFresh(stored: seq<ListenerGroup>, activity: ListenerGroup, group: ListenerGroup)
    requires StoredPart(stored) && activity.name == ""
    requires forall s <- stored :: s.name != group.name
    ensures forall g <- [activity, group], s <- stored :: g.name != s.name
  {
    forall g <- [activity, group], s <- stored ensures g.name != s.name {
      assert g == activity || g == group;
    }
  }

  lemma AddNamedToStored(stored: seq<ListenerGroup>, activity: ListenerGroup, group: ListenerGroup)
    requires StoredPart(stored) && activity == ActivityGroup(activity.events)
    requires forall s <- stored :: s.name != group.name
    requires group.name != ""
    ensures Reloaded(stored + [activity, group]) == stored + [group, activity]
  {
    var extra := [activity, group];
    AddedNamesFresh(stored, activity, group);
    ReloadStoredPlus(stored, extra);
    AddNamedRegroup(stored, activity, group);
    calc {
      Reloaded(stored + extra);
    ==  // ReloadStoredPlus
      stored + Regroup(NamedOnly(extra), stored + extra) + [ActivityGroup(EventsNamed(extra, ""))];
    ==  // AddNamedRegroup
      stored + [group] + [ActivityGroup(activity.events)];
    ==
      stored + [group, activity];
    }
  }

  lemma AddUnnamedToStored(stored: seq<ListenerGroup>, activity: ListenerGroup, group: ListenerGroup)
    requires StoredPart(stored) && activity == ActivityGroup(activity.events)
    requires forall s <- stored :: s.name != group.name
    requires group.name == ""
    ensures Reloaded(stored + [activity, group]) == stored + [ActivityGroup(activity.events + group.events)]
  {
    var extra := [activity, group];
    AddedNamesFresh(stored, activity, group);
    ReloadStoredPlus(stored, extra);
    AddUnnamedRegroup(stored, activity, group);
    assert stored + [] == stored;
  }

  lemma AddNamedRegroup(stored: seq<ListenerGroup>, activity: ListenerGroup, group: ListenerGroup)
    requires activity.name == "" && group.name != ""
    requires forall s <- stored :: s.name != group.name
    ensures var extra := [activity, group];
      && Regroup(NamedOnly(extra), stored + extra) == [group]
      && EventsNamed(extra, "") == activity.events
  {
    var extra := [activity, group];
    EventsNamedPair(activity, group, "");
    assert extra[1..] == [group] && [group][1..] == [];
    assert NamedOnly(extra) == [group];
    assert EventsNamed(stored + extra, group.name) == group.events by {
      EventsNamedConcat(stored, extra, group.name);
      EventsNamedAbsent(stored, group.name);
      EventsNamedPair(activity, group, group.name);
    }
  }

  lemma AddUnnamedRegroup(stored: seq<ListenerGroup>, activity: ListenerGroup, group: ListenerGroup)
    requires activity.name == "" && group.name == ""
    ensures var extra := [activity, group];
      && Regroup(NamedOnly(extra), stored + extra) == []
      && EventsNamed(extra, "") == activity.events + group.events
  {
    var extra := [activity, group];
    EventsNamedPair(activity, group, "");
    assert extra[1..] == [group] && [group][1..] == [];
    assert NamedOnly([group]) == [] + NamedOnly([]) == [];
  }

  /**
   * `addListenerGroup(group)` saves the view followed by the new group. The
   * next read has the stored groups, then a named group, then the activity
   * group; an unnamed group is not stored, its events join the activity group.
   */
  lemma AddThenView(listeners: seq<ListenerRecord>, events: seq<EventRecord>, group: ListenerGroup)
    requires WellFormed(listeners)
    requires forall r <- listeners :: r.name != group.name
    ensures var v := View(listeners, events); var n := |listeners|;
      Reloaded(v + [group])
        == if group.name != "" then v[..n] + [group, v[n]]
           else v[..n] + [ActivityGroup(v[n].events + group.events)]
  {
    var v, n := View(listeners, events), |listeners|;
    WellFormedView(listeners, events);
    var stored, activity := v[..n], v[n];
    forall s <- stored ensures s.name != group.name {
      var i :| 0 <= i < n && stored[i] == s;
      assert listeners[i] in listeners;
    }
    assert v + [group] == stored + [activity, group];
    AddToStored(stored, activity, group);
  }

  /** A name no stored listener has is the name of no stored group of the view. */
  lemma StoredNamesAbsent(listeners: seq<ListenerRecord>, events: seq<EventRecord>, name: string)
    requires forall r <- listeners :: r.name != name
    ensures forall g <- View(listeners, events)[..|listeners|] :: g.name != name
  {
    var v, n := View(listeners, events), |listeners|;
    forall g <- v[..n] ensures g.name != name {
      var i :| 0 <= i < n && v[..n][i] == g;
      assert listeners[i] in listeners;
    }
  }

  /** A non-empty name that no stored listener has is the name of no group of the view. */
  lemma NameAbsentFromView(listeners: seq<ListenerRecord>, events: seq<EventRecord>, name: string)
    requires name != "" && forall r <- listeners :: r.name != name
    ensures forall g <- View(listeners, events) :: g.name != name
  {
    var v := View(listeners, events);
    ViewLayout(listeners, events);
    forall g <- v ensures g.name != name {
      var i :| 0 <= i < |v| && v[i] == g;
      if i < |listeners| {
        assert listeners[i] in listeners;
      }
    }
  }

  /** Saving a list followed by a group whose name it lacks stores exactly that group's events under its name. */
  lemma AddedEventsStored(groups: seq<ListenerGroup>, group: ListenerGroup)
    requires forall g <- groups :: g.name != group.name
    ensures EventsOf(EventRecords(groups + [group]), group.name) == group.events
  {
    EventsOfEventRecords(groups + [group], group.name);
    EventsNamedConcat(groups, [group], group.name);
    EventsNamedAbsent(groups, group.name);
    assert EventsNamed([group], group.name) == group.events + EventsNamed([], group.name);
  }

  /** Removing by name, at the level of stored groups (see `RemoveThenView`). */
  lemma RemoveFromStored(stored: seq<ListenerGroup>, activity: ListenerGroup, name: string)
    requires StoredPart(stored) && activity == ActivityGroup(activity.events)
    ensures var kept := RemoveNamed(stored + [activity], name);
      && Reloaded(kept) == RemoveNamed(stored, name) + [if name == "" then ActivityGroup([]) else activity]
      && forall r <- EventRecords(kept) :: r.listener != name
  {
    var kept := RemoveNamed(stored + [activity], name);
    var ks := RemoveNamed(stored, name);
    RemoveNamedConcat(stored, [activity], name);
    RemoveNamedStored(stored, name);
    if name == "" {
      assert RemoveNamed([activity], name) == [];
      assert kept == ks;
      ReloadStored(ks);
    } else {
      assert RemoveNamed([activity], name) == [activity];
      RoundTrip(ks, activity);
    }
    RemovedNameNotStored(kept, name);
  }

  /** Stored groups alone read back with an empty activity group. */
  lemma ReloadStored(stored: seq<ListenerGroup>)
    requires StoredPart(stored)
    ensures Reloaded(stored) == stored + [ActivityGroup([])]
  {
    ReloadStoredPlus(stored, []);
    assert stored + [] == stored;
    assert Regroup(NamedOnly([]), stored) == [] && EventsNamed([], "") == [];
  }

  /** A list with no group called `name` stores no event record addressed to `name`. */
  lemma RemovedNameNotStored(kept: seq<ListenerGroup>, name: string)
    requires forall g <- kept :: g.name != name
    ensures forall r <- EventRecords(kept) :: r.listener != name
  {
  }

  /**
   * `removeListenerGroup(name)` saves the view without the groups called
   * `name`. The next read has the other stored groups and the activity group,
   * and no stored event record names `name` any more. Removing the empty name
   * discards the activity group's events; removing an absent name changes
   * nothing a read shows.
   */
  lemma RemoveThenView(listeners: seq<ListenerRecord>, events: seq<EventRecord>, name: string)
    requires WellFormed(listeners)
    ensures var v := View(listeners, events); var n := |listeners|; var kept := RemoveNamed(v, name);
      && Reloaded(kept) == RemoveNamed(v[..n], name) + [if name == "" then ActivityGroup([]) else v[n]]
      && (forall r <- EventRecords(kept) :: r.listener != name)
      && (name != "" && (forall r <- listeners :: r.name != name) ==> Reloaded(kept) == v)
  {
    var v, n := View(listeners, events), |listeners|;
    WellFormedView(listeners, events);
    var stored, activity := v[..n], v[n];
    RemoveFromStored(stored, activity, name);
    if name != "" && forall r <- listeners :: r.name != name {
      StoredNamesAbsent(listeners, events, name);
      assert RemoveNamed(stored, name) == stored;
    }
  }

  /** Replacing one stored group, at the level of stored groups (see `EditThenView`). */
  lemma EditInStored(stored: seq<ListenerGroup>, activity: ListenerGroup, k: nat, edited: ListenerGroup)
    requires StoredPart(stored) && activity == ActivityGroup(activity.events)
    requires k < |stored| && edited.name != ""
    requires forall j :: 0 <= j < |stored| && j != k ==> stored[j].name != edited.name
    ensures var changed := stored[k := edited] + [activity];
      && Reloaded(changed) == changed
      && EventsOf(EventRecords(changed), edited.name) == edited.events
      && (edited.name != stored[k].name ==> EventsOf(EventRecords(changed), stored[k].name) == [])
  {
    var es := stored[k := edited];
    var changed := es + [activity];
    EditKeepsStored(stored, k, edited);
    RoundTrip(es, activity);
    EventsOfEventRecords(changed, edited.name);
    EventsNamedConcat(es, [activity], edited.name);
    EventsNamedSole(es, k);
    if edited.name != stored[k].name {
      EditLeavesOldName(stored, activity, k, edited);
    }
  }

  lemma EditKeepsStored(stored: seq<ListenerGroup>, k: nat, edited: ListenerGroup)
    requires StoredPart(stored) && k < |stored| && edited.name != ""
    requires forall j :: 0 <= j < |stored| && j != k ==> stored[j].name != edited.name
    ensures StoredPart(stored[k := edited])
  {
    var es := stored[k := edited];
    forall g <- es ensures g.name != "" {
      var i :| 0 <= i < |es| && es[i] == g;
      if i != k { assert stored[i] in stored; }
    }
    forall i, j | 0 <= i < j < |es| ensures es[i].name != es[j].name {
      if i != k && j != k { assert es[i] == stored[i] && es[j] == stored[j]; }
    }
  }

  /** After a rename, no stored event record keeps the old name. */
  lemma EditLeavesOldName(stored: seq<ListenerGroup>, activity: ListenerGroup, k: nat, edited: ListenerGroup)
    requires StoredPart(stored) && activity == ActivityGroup(activity.events)
    requires k < |stored| && edited.name != stored[k].name
    ensures EventsOf(EventRecords(stored[k := edited] + [activity]), stored[k].name) == []
  {
    var es := stored[k := edited];
    var changed := es + [activity];
    EventsOfEventRecords(changed, stored[k].name);
    EventsNamedConcat(es, [activity], stored[k].name);
    forall g <- es ensures g.name != stored[k].name {
      var i :| 0 <= i < |es| && es[i] == g;
      if i != k { assert stored[i].name != stored[k].name; }
    }
    EventsNamedAbsent(es, stored[k].name);
    assert stored[k] in stored;
    EventsNamedAbsent([activity], stored[k].name);
  }

  /**
   * `editListenerGroup(name, editor)` saves the view with the first group
   * called `name` replaced by its edited form, at the same index. When the
   * edited name is non-empty and clashes with no other group, the next read
   * shows exactly that replacement, and the group's events are stored under
   * its new name only.
   */
  lemma EditThenView(listeners: seq<ListenerRecord>, events: seq<EventRecord>, k: nat, edited: ListenerGroup)
    requires WellFormed(listeners) && k < |listeners|
    requires edited.name != ""
    requires forall j :: 0 <= j < |listeners| && j != k ==> listeners[j].name != edited.name
    ensures var v := View(listeners, events); var n := |listeners|; var changed := v[k := edited];
      && FirstNamed(v, listeners[k].name) == k
      && Reloaded(changed) == v[..n][k := edited] + [v[n]]
      && EventsOf(EventRecords(changed), edited.name) == edited.events
      && (edited.name != listeners[k].name ==> EventsOf(EventRecords(changed), listeners[k].name) == [])
  {
    var v, n := View(listeners, events), |listeners|;
    WellFormedView(listeners, events);
    var stored, activity := v[..n], v[n];
    assert v[k := edited] == stored[k := edited] + [activity];
    assert v[k].name == listeners[k].name;
    FirstNamedUnique(v, n, k);
    EditInStored(stored, activity, k, edited);
  }

  /** In a list whose first `n` names are distinct, the first group with the name of group `k < n` is group `k`. */
  lemma FirstNamedUnique(groups: seq<ListenerGroup>, n: nat, k: nat)
    requires k < n <= |groups| && UniqueNames(groups[..n])
    ensures FirstNamed(groups, groups[k].name) == k
  {
    assert groups[k] in groups;
    forall j | 0 <= j < k ensures groups[j].name != groups[k].name {
      assert groups[..n][j] == groups[j] && groups[..n][k] == groups[k];
    }
  }
}
