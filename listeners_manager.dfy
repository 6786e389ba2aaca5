/**
 * `SketchwareCustomListenersManager`: the two record streams held in memory,
 * the lazily computed list of listener groups, and the files the streams
 * come from and go to.
 */
module ListenersManager {
  import opened Wrappers
  import opened Storage
  import opened ListenerModel
  import opened ListenerImport

  class CustomListenersManager {
    var eventsValue: seq<EventRecord>
    var listenersValue: seq<ListenerRecord>
    /** `listenerProperty`: None until read and after every reset. */
    var cache: Option<seq<ListenerGroup>>
    const eventsFile: StoredFile<seq<EventRecord>>
    const listenersFile: StoredFile<seq<ListenerRecord>>

    /** A computed list of groups is always the view of the current streams. */
    ghost predicate Valid()
      reads this
    {
      cache.Some? ==> cache.value == View(listenersValue, eventsValue)
    }

    /** The streams are those that `saveLocally(list)` makes of `list`. */
    ghost predicate Saved(list: seq<ListenerGroup>)
      reads this
    {
      listenersValue == ListenerRecords(list) && eventsValue == EventRecords(list)
    }

    constructor (eventsValue: seq<EventRecord>, listenersValue: seq<ListenerRecord>,
                 eventsFile: StoredFile<seq<EventRecord>>, listenersFile: StoredFile<seq<ListenerRecord>>)
      ensures Valid() && cache == None
      ensures this.eventsValue == eventsValue && this.listenersValue == listenersValue
      ensures this.eventsFile == eventsFile && this.listenersFile == listenersFile
    {
      this.eventsValue := eventsValue;
      this.listenersValue := listenersValue;
      this.eventsFile := eventsFile;
      this.listenersFile := listenersFile;
      cache := None;
    }

    /** The companion `invoke`: a manager over what the two files hold now. */
    constructor Open(eventsFile: StoredFile<seq<EventRecord>>, listenersFile: StoredFile<seq<ListenerRecord>>)
      ensures Valid() && cache == None
      ensures eventsValue == eventsFile.contents && listenersValue == listenersFile.contents
      ensures this.eventsFile == eventsFile && this.listenersFile == listenersFile
    {
      eventsValue := eventsFile.contents;
      listenersValue := listenersFile.contents;
      this.eventsFile := eventsFile;
      this.listenersFile := listenersFile;
      cache := None;
    }

    /** `listeners`: computed once after each reset, then reused. */
    method Listeners() returns (groups: seq<ListenerGroup>)
      requires Valid()
      modifies this`cache
      ensures Valid() && cache == Some(groups)
      ensures groups == View(listenersValue, eventsValue)
    {
      match cache {
        case Some(computed) =>
          groups := computed;
        case None =>
          groups := View(listenersValue, eventsValue);
          cache := Some(groups);
      }
    }

    /** `saveLocally`: replaces both streams by the flattening of `list` and resets the computed list. */
    method SaveLocally(list: seq<ListenerGroup>)
      modifies this`listenersValue, this`eventsValue, this`cache
      ensures Valid() && cache == None && Saved(list)
      ensures View(listenersValue, eventsValue)
           == Regroup(NamedOnly(list), list) + [ActivityGroup(EventsNamed(list, ""))]
    {
      listenersValue := ListenerRecords(list);
      eventsValue := EventRecords(list);
      cache := None;
      SaveThenView(list);
    }

    /**
     * `addListenerGroup`. For a well-formed store and a name no stored
     * listener has, a named group is read back just before the activity
     * group, and an unnamed group's events join the activity group.
     */
    method AddListenerGroup(group: ListenerGroup)
      requires Valid()
      modifies this`listenersValue, this`eventsValue, this`cache
      ensures Valid() && cache == None
      ensures Saved(old(View(listenersValue, eventsValue)) + [group])
      ensures WellFormed(old(listenersValue)) && (forall r <- old(listenersValue) :: r.name != group.name) ==>
        var v, n := old(View(listenersValue, eventsValue)), old(|listenersValue|);
        View(listenersValue, eventsValue)
          == if group.name != "" then v[..n] + [group, v[n]]
             else v[..n] + [ActivityGroup(v[n].events + group.events)]
    {
      ghost var listeners0, events0 := listenersValue, eventsValue;
      var all := Listeners();
      SaveLocally(all + [group]);
      if WellFormed(listeners0) && (forall r <- listeners0 :: r.name != group.name) {
        AddThenView(listeners0, events0, group);
      }
    }

    /**
     * `removeListenerGroup`: every group with the name goes, and so do its
     * events. For a well-formed store the stored groups without that name are
     * read back, then the activity group (emptied when the name is empty).
     */
    method RemoveListenerGroup(name: string)
      requires Valid()
      modifies this`listenersValue, this`eventsValue, this`cache
      ensures Valid() && cache == None
      ensures Saved(RemoveNamed(old(View(listenersValue, eventsValue)), name))
      ensures forall r <- eventsValue :: r.listener != name
      ensures WellFormed(old(listenersValue)) ==>
        var v, n := old(View(listenersValue, eventsValue)), old(|listenersValue|);
        View(listenersValue, eventsValue)
          == RemoveNamed(v[..n], name) + [if name == "" then ActivityGroup([]) else v[n]]
      ensures WellFormed(old(listenersValue)) && name != "" && (forall r <- old(listenersValue) :: r.name != name) ==>
        View(listenersValue, eventsValue) == old(View(listenersValue, eventsValue))
    {
      ghost var listeners0, events0 := listenersValue, eventsValue;
      var all := Listeners();
      var kept := RemoveNamed(all, name);
      SaveLocally(kept);
      if WellFormed(listeners0) {
        RemoveThenView(listeners0, events0, name);
      } else {
        assert forall r <- EventRecords(kept) :: r.listener != name by {
          forall r <- EventRecords(kept) ensures r.listener != name {
            assert exists g <- kept :: g.name == r.listener;
          }
        }
      }
    }

    /**
     * `editListenerGroup`: the first group with the name is replaced by what
     * `editor` makes of it; the name must be present. For a well-formed store
     * and an edited group whose name is non-empty and no other stored
     * listener's, the list reads back with that one group replaced, and its
     * events follow it to its new name.
     */
    method EditListenerGroup(name: string, editor: ListenerGroup -> ListenerGroup)
      requires Valid()
      requires FirstNamed(View(listenersValue, eventsValue), name) != -1
      modifies this`listenersValue, this`eventsValue, this`cache
      ensures Valid() && cache == None
      ensures var v := old(View(listenersValue, eventsValue)); var k := FirstNamed(v, name);
        Saved(v[k := editor(v[k])])
      ensures var v := old(View(listenersValue, eventsValue)); var k := FirstNamed(v, name);
              var n := old(|listenersValue|); var edited := editor(v[k]);
        WellFormed(old(listenersValue)) && name != "" && edited.name != ""
        && (forall j :: 0 <= j < n && j != k ==> old(listenersValue[j].name) != edited.name) ==>
          && View(listenersValue, eventsValue) == v[..n][k := edited] + [v[n]]
          && EventsOf(eventsValue, edited.name) == edited.events
          && (edited.name != name ==> EventsOf(eventsValue, name) == [])
    {
      ghost var listeners0, events0 := listenersValue, eventsValue;
      var all := Listeners();
      var index := FirstNamed(all, name);
      var edited := editor(all[index]);
      SaveLocally(all[index := edited]);
      var n := |listeners0|;
      if WellFormed(listeners0) && name != "" && edited.name != ""
         && (forall j :: 0 <= j < n && j != index ==> listeners0[j].name != edited.name) {
        WellFormedView(listeners0, events0);
        assert all[n].name == "";
        EditThenView(listeners0, events0, index, edited);
      }
    }

    /** `fetch`: both streams are read again from their files. */
    method Fetch()
      modifies this`eventsValue, this`listenersValue, this`cache
      ensures Valid() && cache == None
      ensures eventsValue == eventsFile.contents && listenersValue == listenersFile.contents
    {
      eventsValue := eventsFile.contents;
      listenersValue := listenersFile.contents;
      cache := None;
    }

    /** `save`: writes the events stream; the listeners file is not written. */
    method Save()
      modifies eventsFile
      ensures eventsFile.contents == eventsValue
      ensures listenersFile.contents == old(listenersFile.contents)
    {
      eventsFile.contents := eventsValue;
    }

    /**
     * `import`: the groups of `file` are merged into the current list one at
     * a time (see `ImportAll`) and the result is saved.
     */
    method Import(file: StoredFile<seq<ListenerGroup>>, provider: Option<string -> string>)
      requires Valid()
      modifies this`listenersValue, this`eventsValue, this`cache
      ensures Valid() && cache == None
      ensures Saved(Imported(old(View(listenersValue, eventsValue)), file.contents, provider))
    {
      var imports := file.contents;
      var allListeners := Listeners();
      ghost var existing := allListeners;
      assert existing == old(View(listenersValue, eventsValue));
      var added: seq<ListenerGroup> := [];
      var i := 0;
      while i < |imports|
        invariant 0 <= i <= |imports|
        invariant ImportAll(existing, imports[..i], provider) == Merge(allListeners, added)
      {
        ImportAllNext(existing, imports, i, provider);
        var newGroup;
        allListeners, newGroup := ImportOne(allListeners, imports[i], provider);
        added := added + [newGroup];
        i := i + 1;
      }
      assert imports[..|imports|] == imports;
      assert allListeners + added == Imported(existing, file.contents, provider);
      SaveLocally(allListeners + added);
      cache := None;
    }

    /**
     * The body of the `forEach` for the incoming group `newGroup`: the
     * surviving list and the group as it will be saved.
     */
    static method ImportOne(allListeners: seq<ListenerGroup>, newGroup: ListenerGroup, provider: Option<string -> string>)
      returns (kept: seq<ListenerGroup>, group: ListenerGroup)
      ensures ImportStep(allListeners, newGroup, provider) == Merge(kept, [group])
    {
      kept, group := allListeners, newGroup;
      var k := FirstNamed(allListeners, newGroup.name);
      if k != -1 && allListeners[k] != newGroup {
        match provider {
          case Some(rename) =>
            group := newGroup.(name := rename(allListeners[k].name));
          case None =>
            kept := allListeners[..k] + allListeners[k + 1..];
        }
      }
    }

    /** `export`: the current list of groups is written to `destination`. */
    method Export(destination: StoredFile<seq<ListenerGroup>>)
      requires Valid()
      modifies this`cache, destination
      ensures Valid()
      ensures destination.contents == View(listenersValue, eventsValue) && cache == Some(destination.contents)
    {
      var groups := Listeners();
      destination.contents := groups;
    }
  }

  /**
   * `addListenerGroup(group)`, then `save()` and `fetch()`. `save` writes only
   * the events file, so the group's events come back from it while the group
   * itself does not: no group of the next read has its name, and its events
   * stay addressed to a listener that is not stored.
   */
  method AddSaveFetch(manager: CustomListenersManager, group: ListenerGroup)
    requires manager.Valid() && group.name != ""
    requires forall r <- manager.listenersValue :: r.name != group.name
    requires forall r <- manager.listenersFile.contents :: r.name != group.name
    modifies manager, manager.eventsFile
    ensures manager.listenersValue == old(manager.listenersFile.contents)
    ensures EventsOf(manager.eventsValue, group.name) == group.events
    ensures forall g <- View(manager.listenersValue, manager.eventsValue) :: g.name != group.name
  {
    ghost var v := View(manager.listenersValue, manager.eventsValue);
    NameAbsentFromView(manager.listenersValue, manager.eventsValue, group.name);
    manager.AddListenerGroup(group);
    manager.Save();
    manager.Fetch();
    AddedEventsStored(v, group);
    NameAbsentFromView(manager.listenersValue, manager.eventsValue, group.name);
  }
}
