/**
 * `import` of custom listeners: the groups decoded from a file are merged
 * into the current view, one incoming group at a time, in file order.
 *
 * For an incoming group whose name is taken by a group of the current list
 * (the first such group) and which differs from it: with a name provider the
 * INCOMING group is renamed to `provider(name)` and the existing one stays;
 * without one the EXISTING group is removed and the incoming one keeps its
 * name. An equal group changes nothing, so both copies end up saved. The
 * list that is saved is the surviving groups followed by all incoming ones.
 */
module ListenerImport {
  import opened Wrappers
  import opened Lists
  import opened ListenerModel

  /** The state of the `forEach`: `allListeners`, and the incoming groups handled so far. */
  datatype Merge = Merge(kept: seq<ListenerGroup>, added: seq<ListenerGroup>)

  /**
   * One turn of the `forEach`, for the incoming group `group`. Its contract
   * follows the loop body case by case, and adds only that `remove(group)`
   * drops the group `find` returned; what an import as a whole does is
   * specified by the closed forms `ImportWithProvider` and
   * `ImportWithoutProvider`.
   */
  function ImportStep(kept: seq<ListenerGroup>, group: ListenerGroup, provider: Option<string -> string>): (r: Merge)
    ensures var k := FirstNamed(kept, group.name);
      && (k == -1 || kept[k] == group ==> r == Merge(kept, [group]))
      && (k != -1 && kept[k] != group && provider.Some? ==>
            r == Merge(kept, [group.(name := provider.value(kept[k].name))]))
      && (k != -1 && kept[k] != group && provider.None? ==>
            r == Merge(kept[..k] + kept[k + 1..], [group]))
  {
    var k := FirstNamed(kept, group.name);
    if k == -1 || kept[k] == group then Merge(kept, [group])
    else match provider
      case Some(rename) => Merge(kept, [group.(name := rename(kept[k].name))])
      case None =>
        assert IndexOf(kept, kept[k]) == k by {
          assert forall j :: 0 <= j < k ==> kept[j] != kept[k];
        }
        Merge(RemoveFirst(kept, kept[k]), [group])
  }

  /** The `forEach` over the first `|incoming|` incoming groups. */
  function ImportAll(existing: seq<ListenerGroup>, incoming: seq<ListenerGroup>, provider: Option<string -> string>): (m: Merge)
    ensures |m.added| == |incoming|
    decreases |incoming|
  {
    if incoming == [] then Merge(existing, [])
    else
      var prev := ImportAll(existing, incoming[..|incoming| - 1], provider);
      var step := ImportStep(prev.kept, incoming[|incoming| - 1], provider);
      Merge(step.kept, prev.added + step.added)
  }

  /** One more turn of the `forEach`. */
  lemma ImportAllNext(existing: seq<ListenerGroup>, incoming: seq<ListenerGroup>, i: nat, provider: Option<string -> string>)
    requires i < |incoming|
    ensures var prev := ImportAll(existing, incoming[..i], provider);
      var step := ImportStep(prev.kept, incoming[i], provider);
      ImportAll(existing, incoming[..i + 1], provider) == Merge(step.kept, prev.added + step.added)
  {
    assert incoming[..i + 1][..i] == incoming[..i];
  }

  /**
   * The list `import` passes to `saveLocally`: the surviving groups, then the
   * incoming ones. With a provider every current group survives and each
   * incoming group is `Resolved`; without one, and with distinct current
   * names, the conflicting current groups are dropped and the incoming groups
   * follow as they are.
   */
  function Imported(existing: seq<ListenerGroup>, incoming: seq<ListenerGroup>, provider: Option<string -> string>): (r: seq<ListenerGroup>)
    ensures provider.Some? ==>
      && |r| == |existing| + |incoming| && r[..|existing|] == existing
      && forall i :: 0 <= i < |incoming| ==> r[|existing| + i] == Resolved(existing, incoming[i], provider.value)
    ensures provider.None? && UniqueNames(existing) ==> r == DropConflicts(existing, incoming) + incoming
  {
    var m := ImportAll(existing, incoming, provider);
    if provider.Some? then
      ImportWithProvider(existing, incoming, provider.value);
      m.kept + m.added
    else if UniqueNames(existing) then
      ImportWithoutProvider(existing, incoming);
      m.kept + m.added
    else
      m.kept + m.added
  }

  // ---------------------------------------------------------------------------
  // With a provider: nothing is removed, clashing incoming groups are renamed

  /** How one incoming group comes out of an import with the provider `rename`. */
  function Resolved(existing: seq<ListenerGroup>, group: ListenerGroup, rename: string -> string): ListenerGroup {
    var k := FirstNamed(existing, group.name);
    if k != -1 && existing[k] != group then group.(name := rename(group.name)) else group
  }

  /**
   * With a provider the existing groups all survive, in order, and each
   * incoming group is renamed to `rename(name)` exactly when its name is taken
   * by an existing group that differs from it.
   */
  lemma {:induction false} ImportWithProvider(existing: seq<ListenerGroup>, incoming: seq<ListenerGroup>, rename: string -> string)
    ensures var m := ImportAll(existing, incoming, Some(rename));
      && m.kept == existing
      && forall i :: 0 <= i < |incoming| ==> m.added[i] == Resolved(existing, incoming[i], rename)
    decreases |incoming|
  {
    if incoming != [] {
      var n := |incoming| - 1;
      ImportWithProvider(existing, incoming[..n], rename);
      var m := ImportAll(existing, incoming, Some(rename));
      var prev := ImportAll(existing, incoming[..n], Some(rename));
      var step := ImportStep(prev.kept, incoming[n], Some(rename));
      assert m == Merge(step.kept, prev.added + step.added);
      StepWithProvider(existing, incoming[n], rename);
      forall i | 0 <= i < |incoming| ensures m.added[i] == Resolved(existing, incoming[i], rename) {
        if i < n {
          assert m.added[i] == prev.added[i] && incoming[..n][i] == incoming[i];
        } else {
          assert m.added[i] == step.added[0];
        }
      }
    }
  }

  /** With a provider a turn keeps every group and adds the incoming one `Resolved`. */
  lemma StepWithProvider(kept: seq<ListenerGroup>, group: ListenerGroup, rename: string -> string)
    ensures ImportStep(kept, group, Some(rename)) == Merge(kept, [Resolved(kept, group, rename)])
  {
    var k := FirstNamed(kept, group.name);
    if k != -1 && kept[k] != group {
      assert kept[k].name == group.name;
    }
  }

  // ---------------------------------------------------------------------------
  // Without a provider: clashing existing groups are removed

  /** Some incoming group has the name of `group` but differs from it. */
  predicate Conflicts(group: ListenerGroup, incoming: seq<ListenerGroup>) {
    exists e <- incoming :: e.name == group.name && e != group
  }

  /** The existing groups that no differing incoming group names, in order. */
  function DropConflicts(existing: seq<ListenerGroup>, incoming: seq<ListenerGroup>): (r: seq<ListenerGroup>)
    ensures forall g :: g in r <==> g in existing && !Conflicts(g, incoming)
  {
    if existing == [] then []
    else (if Conflicts(existing[0], incoming) then [] else [existing[0]]) + DropConflicts(existing[1..], incoming)
  }

  lemma {:induction false} DropConflictsIgnores(existing: seq<ListenerGroup>, incoming: seq<ListenerGroup>, group: ListenerGroup)
    requires forall g <- existing :: g.name != group.name
    ensures DropConflicts(existing, incoming + [group]) == DropConflicts(existing, incoming)
  {
    if existing != [] {
      var x := existing[0];
      assert x in existing;
      assert Conflicts(x, incoming + [group]) == Conflicts(x, incoming) by {
        if Conflicts(x, incoming + [group]) {
          var e :| e in incoming + [group] && e.name == x.name && e != x;
          assert e in incoming;
        }
      }
      assert forall g <- existing[1..] :: g in existing;
      DropConflictsIgnores(existing[1..], incoming, group);
    }
  }

  lemma ConflictsSnoc(x: ListenerGroup, incoming: seq<ListenerGroup>, group: ListenerGroup)
    ensures Conflicts(x, incoming + [group]) == (Conflicts(x, incoming) || (group.name == x.name && group != x))
  {
    if Conflicts(x, incoming + [group]) && !Conflicts(x, incoming) {
      var e :| e in incoming + [group] && e.name == x.name && e != x;
      assert e !in incoming;
    }
    if Conflicts(x, incoming) {
      var e :| e in incoming && e.name == x.name && e != x;
      assert e in incoming + [group];
    }
    if group.name == x.name && group != x {
      assert group in incoming + [group];
    }
  }

  lemma UniqueTail(groups: seq<ListenerGroup>)
    requires UniqueNames(groups) && groups != []
    ensures UniqueNames(groups[1..])
    ensures forall g <- groups[1..] :: g.name != groups[0].name
  {
    var rest := groups[1..];
    forall i, j | 0 <= i < j < |rest| ensures rest[i].name != rest[j].name {
      assert rest[i] == groups[i + 1] && rest[j] == groups[j + 1];
    }
    forall g <- rest ensures g.name != groups[0].name {
      var j :| 0 <= j < |rest| && rest[j] == g;
      assert groups[j + 1] == g;
    }
  }

  /** A group ahead of the search whose name differs is left alone by a turn. */
  lemma StepSkipsOtherName(x: ListenerGroup, kept: seq<ListenerGroup>, group: ListenerGroup, provider: Option<string -> string>)
    requires x.name != group.name
    ensures ImportStep([x] + kept, group, provider).kept == [x] + ImportStep(kept, group, provider).kept
  {
    var all := [x] + kept;
    var k := FirstNamed(kept, group.name);
    FirstNamedPastHead(x, kept, group.name);
    if k != -1 {
      assert all[k + 1] == kept[k];
      if kept[k] != group && provider.None? {
        DeleteAfterHead(x, kept, k);
      }
    }
  }

  lemma FirstNamedPastHead(x: ListenerGroup, kept: seq<ListenerGroup>, name: string)
    requires x.name != name
    ensures FirstNamed([x] + kept, name) == if FirstNamed(kept, name) == -1 then -1 else FirstNamed(kept, name) + 1
  {
    assert ([x] + kept)[1..] == kept;
  }

  /** One turn without a provider, against the groups that survived so far. */
  lemma {:induction false} DropConflictsStep(existing: seq<ListenerGroup>, incoming: seq<ListenerGroup>, group: ListenerGroup)
    requires UniqueNames(existing)
    ensures ImportStep(DropConflicts(existing, incoming), group, None).kept == DropConflicts(existing, incoming + [group])
  {
    if existing != [] {
      var x, rest := existing[0], existing[1..];
      UniqueTail(existing);
      ConflictsSnoc(x, incoming, group);
      var drest := DropConflicts(rest, incoming);
      var d := DropConflicts(existing, incoming);
      if x.name == group.name {
        DropConflictsIgnores(rest, incoming, group);
        if Conflicts(x, incoming) {
          assert d == drest;
          assert FirstNamed(drest, group.name) == -1;
        } else {
          assert d == [x] + drest && d[0] == x;
          assert FirstNamed(d, group.name) == 0;
          assert d[1..] == drest;
        }
      } else {
        DropConflictsStep(rest, incoming, group);
        if !Conflicts(x, incoming) {
          assert d == [x] + drest;
          StepSkipsOtherName(x, drest, group, None);
        } else {
          assert d == drest;
        }
      }
    }
  }

  /**
   * Without a provider, and with distinct names in the current list: incoming
   * groups keep their names, and an existing group survives exactly when no
   * differing incoming group has its name.
   */
  lemma {:induction false} ImportWithoutProvider(existing: seq<ListenerGroup>, incoming: seq<ListenerGroup>)
    requires UniqueNames(existing)
    ensures var m := ImportAll(existing, incoming, None);
      m.added == incoming && m.kept == DropConflicts(existing, incoming)
    decreases |incoming|
  {
    if incoming == [] {
      assert DropConflicts(existing, []) == existing by {
        DropConflictsNone(existing);
      }
    } else {
      var n := |incoming| - 1;
      ImportWithoutProvider(existing, incoming[..n]);
      DropConflictsStep(existing, incoming[..n], incoming[n]);
      assert incoming[..n] + [incoming[n]] == incoming;
    }
  }

  lemma {:induction false} DropConflictsNone(existing: seq<ListenerGroup>)
    ensures DropConflicts(existing, []) == existing
  {
    if existing != [] {
      DropConflictsNone(existing[1..]);
    }
  }
}
