/**
 * The Sketchware Studio custom-menu collection. The store keeps one flat
 * stream of studio menu records; reading gives each record as a custom menu
 * whose id AND name are both the record's name. Changes re-flatten the whole
 * list through the menu-to-record conversion (`toSWStudioMenu`), which is not
 * part of this model and is a parameter here.
 */
module MenuModel {
  import opened Wrappers
  import opened Lists

  /** `CustomMenu`: compared structurally, as a data class is. */
  datatype CustomMenu = CustomMenu(id: string, name: string, title: string, data: string)

  /** `SWStudioMenu`: a record of the menus stream. */
  datatype StudioMenu = StudioMenu(name: string, title: string, data: string)

  function ToCustomMenu(r: StudioMenu): CustomMenu {
    CustomMenu(r.name, r.name, r.title, r.data)
  }

  /** The value of `menusProperty`: one menu per stored record, in stored order. */
  function View(stored: seq<StudioMenu>): (v: seq<CustomMenu>)
    ensures |v| == |stored|
    ensures forall m <- v :: m.id == m.name
  {
    seq(|stored|, i requires 0 <= i < |stored| => ToCustomMenu(stored[i]))
  }

  /** The new menus stream that `saveCustomMenus(menus)` writes. */
  function Flatten(toStudioMenu: CustomMenu -> StudioMenu, menus: seq<CustomMenu>): (f: seq<StudioMenu>)
    ensures |f| == |menus|
    ensures forall m <- menus :: toStudioMenu(m) in f
  {
    var f := seq(|menus|, i requires 0 <= i < |menus| => toStudioMenu(menus[i]));
    assert forall i :: 0 <= i < |menus| ==> toStudioMenu(menus[i]) == f[i] && f[i] in f;
    f
  }

  /** A conversion that loses nothing for a menu whose id is its name (as every menu read from the stream is). */
  ghost predicate Faithful(toStudioMenu: CustomMenu -> StudioMenu) {
    forall m: CustomMenu :: m.id == m.name ==> ToCustomMenu(toStudioMenu(m)) == m
  }

  /** No two menus share an id. */
  predicate UniqueIds(menus: seq<CustomMenu>) {
    forall i, j :: 0 <= i < j < |menus| ==> menus[i].id != menus[j].id
  }

  /** The ids of `menus`. */
  function Ids(menus: seq<CustomMenu>): set<string> {
    set m <- menus :: m.id
  }

  // ---------------------------------------------------------------------------
  // Reading and writing

  /** Every menu read has id equal to name, both the record's name, in stored order. */
  lemma ViewLayout(stored: seq<StudioMenu>)
    ensures var v := View(stored);
      && |v| == |stored|
      && forall i :: 0 <= i < |v| ==>
           v[i].id == stored[i].name && v[i].name == stored[i].name
           && v[i].title == stored[i].title && v[i].data == stored[i].data
  {
  }

  /** With a faithful conversion, saving menus whose ids are their names reads back the same list. */
  lemma SaveThenView(toStudioMenu: CustomMenu -> StudioMenu, menus: seq<CustomMenu>)
    requires Faithful(toStudioMenu)
    requires forall m <- menus :: m.id == m.name
    ensures View(Flatten(toStudioMenu, menus)) == menus
  {
    forall i | 0 <= i < |menus| ensures View(Flatten(toStudioMenu, menus))[i] == menus[i] {
      assert menus[i] in menus;
    }
  }

  /**
   * Whatever the conversion, a saved menu whose id differs from its name
   * never reads back as itself: the stream keeps one name only.
   */
  lemma IdChangeNotReadBack(toStudioMenu: CustomMenu -> StudioMenu, menus: seq<CustomMenu>, menu: CustomMenu)
    requires menu.id != menu.name
    ensures menu !in View(Flatten(toStudioMenu, menus))
  {
  }

  // ---------------------------------------------------------------------------
  // Removing and editing

  /** `removeIf { it.id == id }`. */
  function RemoveById(menus: seq<CustomMenu>, id: string): (r: seq<CustomMenu>)
    ensures forall m :: m in r <==> m in menus && m.id != id
    ensures (forall m <- menus :: m.id != id) ==> r == menus
    ensures |r| <= |menus|
  {
    if menus == [] then []
    else (if menus[0].id != id then [menus[0]] else []) + RemoveById(menus[1..], id)
  }

  /** The index of the first menu with id `id` (`first { it.id == id }`), or -1 when there is none. */
  function FirstWithId(menus: seq<CustomMenu>, id: string): (k: int)
    ensures k == -1 <==> forall m <- menus :: m.id != id
    ensures k != -1 ==> 0 <= k < |menus| && menus[k].id == id
    ensures k != -1 ==> forall j :: 0 <= j < k ==> menus[j].id != id
  {
    if menus == [] then -1
    else if menus[0].id == id then 0
    else
      var k := FirstWithId(menus[1..], id);
      if k == -1 then -1 else k + 1
  }

  /**
   * `set(indexOf(first { it.id == id }), menu)`: the first menu with the id
   * is replaced by `menu`; every other position is unchanged.
   */
  function ReplaceFirst(menus: seq<CustomMenu>, id: string, menu: CustomMenu): (r: seq<CustomMenu>)
    requires FirstWithId(menus, id) != -1
    ensures |r| == |menus| && r[FirstWithId(menus, id)] == menu
    ensures forall j :: 0 <= j < |menus| && j != FirstWithId(menus, id) ==> r[j] == menus[j]
  {
    IndexOfFirstWithId(menus, id);
    menus[IndexOf(menus, menus[FirstWithId(menus, id)]) := menu]
  }

  /**
   * `editMenu(id, builder)` as intended: the first menu with the id is
   * replaced by what `builder` makes of it.
   */
  function EditWithBuilder(menus: seq<CustomMenu>, id: string, builder: CustomMenu -> CustomMenu): (r: seq<CustomMenu>)
    requires FirstWithId(menus, id) != -1
    ensures var k := FirstWithId(menus, id);
      && |r| == |menus| && r[k] == builder(menus[k])
      && forall j :: 0 <= j < |menus| && j != k ==> r[j] == menus[j]
  {
    var k := FirstWithId(menus, id);
    ReplaceFirst(menus, id, builder(menus[k]))
  }

  /**
   * `editMenu(id, builder)` as written. The builder edits the menu object
   * that the current list itself holds, and the list is then searched again
   * for the first menu with `id`; None stands for the exception `first`
   * throws when there is none. A builder that changes the id of a menu whose
   * id no other menu shares always ends in that exception.
   */
  function EditWithBuilderAsWritten(menus: seq<CustomMenu>, id: string, builder: CustomMenu -> CustomMenu): (r: Option<seq<CustomMenu>>)
    requires FirstWithId(menus, id) != -1
    ensures var k := FirstWithId(menus, id);
      && (builder(menus[k]).id == id ==> r == Some(EditWithBuilder(menus, id, builder)))
      && (builder(menus[k]).id != id && UniqueIds(menus) ==> r == None)
  {
    var k := FirstWithId(menus, id);
    var edited := builder(menus[k]);
    var shared := menus[k := edited];
    SearchAfterEdit(menus, id, edited);
    if FirstWithId(shared, id) == -1 then None
    else Some(ReplaceFirst(shared, id, edited))
  }

  /** Searching again for `id` after the first menu with it became `edited`. */
  lemma SearchAfterEdit(menus: seq<CustomMenu>, id: string, edited: CustomMenu)
    requires FirstWithId(menus, id) != -1
    ensures var k := FirstWithId(menus, id); var shared := menus[k := edited];
      && (edited.id == id ==> FirstWithId(shared, id) == k && shared == ReplaceFirst(menus, id, edited)
                              && ReplaceFirst(shared, id, edited) == shared)
      && (edited.id != id && UniqueIds(menus) ==> FirstWithId(shared, id) == -1)
  {
    var k := FirstWithId(menus, id);
    if edited.id == id {
      SearchFindsKeptId(menus, id, edited);
    } else if UniqueIds(menus) {
      SearchMissesRename(menus, id, edited);
    }
  }

  lemma SearchFindsKeptId(menus: seq<CustomMenu>, id: string, edited: CustomMenu)
    requires FirstWithId(menus, id) != -1 && edited.id == id
    ensures var k := FirstWithId(menus, id); var shared := menus[k := edited];
      && FirstWithId(shared, id) == k && shared == ReplaceFirst(menus, id, edited)
      && ReplaceFirst(shared, id, edited) == shared
  {
    var k := FirstWithId(menus, id);
    var shared := menus[k := edited];
    assert forall j :: 0 <= j < k ==> shared[j].id != id;
    assert shared[k].id == id && shared[k] in shared;
    var f := FirstWithId(shared, id);
    assert f != -1;
    assert !(f > k) && !(f < k);
    var r := ReplaceFirst(menus, id, edited);
    assert |r| == |shared| && forall j :: 0 <= j < |r| ==> r[j] == shared[j];
    var r2 := ReplaceFirst(shared, id, edited);
    assert |r2| == |shared| && forall j :: 0 <= j < |r2| ==> r2[j] == shared[j];
  }

  lemma SearchMissesRename(menus: seq<CustomMenu>, id: string, edited: CustomMenu)
    requires FirstWithId(menus, id) != -1 && edited.id != id && UniqueIds(menus)
    ensures FirstWithId(menus[FirstWithId(menus, id) := edited], id) == -1
  {
    var k := FirstWithId(menus, id);
    var shared := menus[k := edited];
    forall j | 0 <= j < |shared| ensures shared[j].id != id {
      if j != k {
        assert shared[j] == menus[j];
        assert menus[k].id == id;
      }
    }
  }

  /** Renaming the only menu through the builder form fails where the intended edit succeeds. */
  lemma BuilderRenameFails()
    ensures var menus := [CustomMenu("a", "a", "Menu", "")];
      var rename := (m: CustomMenu) => m.(id := "b", name := "b");
      && EditWithBuilderAsWritten(menus, "a", rename) == None
      && EditWithBuilder(menus, "a", rename) == [CustomMenu("b", "b", "Menu", "")]
  {
    var menus := [CustomMenu("a", "a", "Menu", "")];
    var rename := (m: CustomMenu) => m.(id := "b", name := "b");
    assert FirstWithId(menus, "a") == 0;
    assert FirstWithId(menus[0 := rename(menus[0])], "a") == -1 by {
      assert menus[0 := rename(menus[0])] == [CustomMenu("b", "b", "Menu", "")];
    }
  }

  // ---------------------------------------------------------------------------
  // Import

  /** The id a clashing existing menu gets: `conflictProvider?.invoke(id) ?: id`. */
  function NewId(provider: Option<string -> string>, id: string): string {
    match provider
    case Some(rename) => rename(id)
    case None => id
  }

  /**
   * One turn of the `forEach`, for the incoming `menu`: the first existing
   * menu with its id takes the new id, and is removed instead when the new
   * id is its old one (no provider, or the provider gave the id back). The
   * contract follows the loop body case by case, and adds only that
   * `remove(it)` drops the menu `find` returned; what an import as a whole
   * does is specified by the closed form `ImportClosedForm`.
   */
  function ImportStep(kept: seq<CustomMenu>, menu: CustomMenu, provider: Option<string -> string>): (r: seq<CustomMenu>)
    ensures var k := FirstWithId(kept, menu.id);
      && (k == -1 ==> r == kept)
      && (k != -1 && NewId(provider, kept[k].id) == kept[k].id ==> r == kept[..k] + kept[k + 1..])
      && (k != -1 && NewId(provider, kept[k].id) != kept[k].id ==>
            r == kept[k := kept[k].(id := NewId(provider, kept[k].id))])
  {
    var k := FirstWithId(kept, menu.id);
    if k == -1 then kept
    else
      var currentId := kept[k].id;
      var renamed := kept[k].(id := NewId(provider, currentId));
      if currentId == renamed.id then
        // the menu keeps its id, so `remove(it)` finds it unchanged at its own index
        IndexOfFirstWithId(kept, menu.id);
        RemoveFirst(kept, kept[k])
      else kept[k := renamed]
  }

  /** The first menu with an id is also the first menu equal to it. */
  lemma IndexOfFirstWithId(menus: seq<CustomMenu>, id: string)
    requires FirstWithId(menus, id) != -1
    ensures IndexOf(menus, menus[FirstWithId(menus, id)]) == FirstWithId(menus, id)
  {
    var k := FirstWithId(menus, id);
    assert forall j :: 0 <= j < k ==> menus[j] != menus[k];
  }

  /** The `forEach` over all incoming menus. */
  function ImportAll(existing: seq<CustomMenu>, incoming: seq<CustomMenu>, provider: Option<string -> string>): (r: seq<CustomMenu>)
    ensures |r| <= |existing|
    decreases |incoming|
  {
    if incoming == [] then existing
    else ImportStep(ImportAll(existing, incoming[..|incoming| - 1], provider), incoming[|incoming| - 1], provider)
  }

  /** One more turn of the `forEach`. */
  lemma ImportAllNext(existing: seq<CustomMenu>, incoming: seq<CustomMenu>, i: nat, provider: Option<string -> string>)
    requires i < |incoming|
    ensures ImportAll(existing, incoming[..i + 1], provider)
         == ImportStep(ImportAll(existing, incoming[..i], provider), incoming[i], provider)
  {
    assert incoming[..i + 1][..i] == incoming[..i];
  }

  /**
   * The list `import` passes to `saveCustomMenus`: the surviving menus, then
   * every incoming menu as it is. With distinct current ids and renames to
   * ids no incoming menu has, the survivors are `RenameOrDrop`.
   */
  function Imported(existing: seq<CustomMenu>, incoming: seq<CustomMenu>, provider: Option<string -> string>): (r: seq<CustomMenu>)
    ensures |incoming| <= |r| <= |existing| + |incoming| && r[|r| - |incoming|..] == incoming
    ensures UniqueIds(existing) && FreshRenames(existing, Ids(incoming), provider) ==>
      r == RenameOrDrop(existing, Ids(incoming), provider) + incoming
  {
    if UniqueIds(existing) && FreshRenames(existing, Ids(incoming), provider) then
      ImportClosedForm(existing, incoming, provider);
      ImportAll(existing, incoming, provider) + incoming
    else
      ImportAll(existing, incoming, provider) + incoming
  }

  /** Each existing menu whose id some incoming menu has is renamed, or dropped when its new id is its old one. */
  function RenameOrDrop(existing: seq<CustomMenu>, ids: set<string>, provider: Option<string -> string>): seq<CustomMenu> {
    if existing == [] then []
    else Resolve(existing[0], ids, provider) + RenameOrDrop(existing[1..], ids, provider)
  }

  /** What becomes of one existing menu once the incoming ids `ids` have been seen. */
  function Resolve(m: CustomMenu, ids: set<string>, provider: Option<string -> string>): seq<CustomMenu> {
    if m.id !in ids then [m]
    else if NewId(provider, m.id) == m.id then []
    else [m.(id := NewId(provider, m.id))]
  }

  /** A renamed menu never takes an id that some incoming menu has. */
  predicate FreshRenames(existing: seq<CustomMenu>, ids: set<string>, provider: Option<string -> string>) {
    forall m <- existing :: m.id in ids && NewId(provider, m.id) != m.id ==> NewId(provider, m.id) !in ids
  }

  lemma {:induction false} NoMatchAfter(existing: seq<CustomMenu>, done: set<string>, ids: set<string>,
                                        provider: Option<string -> string>, id: string)
    requires FreshRenames(existing, ids, provider) && id in ids && done <= ids
    requires forall m <- existing :: m.id == id ==> m.id in done
    ensures FirstWithId(RenameOrDrop(existing, done, provider), id) == -1
  {
    if existing != [] {
      var x := existing[0];
      assert x in existing;
      assert forall m <- existing[1..] :: m in existing;
      NoMatchAfter(existing[1..], done, ids, provider, id);
      var head, rest := Resolve(x, done, provider), RenameOrDrop(existing[1..], done, provider);
      if head != [] {
        assert head[0].id != id;
        assert (head + rest)[0] == head[0] && (head + rest)[1..] == rest;
      } else {
        assert head + rest == rest;
      }
    }
  }

  lemma {:induction false} RenameOrDropIgnores(existing: seq<CustomMenu>, done: set<string>, provider: Option<string -> string>, id: string)
    requires forall m <- existing :: m.id != id
    ensures RenameOrDrop(existing, done + {id}, provider) == RenameOrDrop(existing, done, provider)
  {
    if existing != [] {
      assert existing[0] in existing;
      assert forall m <- existing[1..] :: m in existing;
      RenameOrDropIgnores(existing[1..], done, provider, id);
    }
  }

  lemma FirstWithIdPastHead(x: CustomMenu, kept: seq<CustomMenu>, id: string)
    requires x.id != id
    ensures FirstWithId([x] + kept, id) == if FirstWithId(kept, id) == -1 then -1 else FirstWithId(kept, id) + 1
  {
    assert ([x] + kept)[1..] == kept;
  }

  lemma StepSkipsOtherId(x: CustomMenu, kept: seq<CustomMenu>, menu: CustomMenu, provider: Option<string -> string>)
    requires x.id != menu.id
    ensures ImportStep([x] + kept, menu, provider) == [x] + ImportStep(kept, menu, provider)
  {
    var k := FirstWithId(kept, menu.id);
    FirstWithIdPastHead(x, kept, menu.id);
    if k != -1 {
      if NewId(provider, kept[k].id) == kept[k].id {
        DeleteAfterHead(x, kept, k);
      } else {
        SkipThenRename(x, kept, k, kept[k].(id := NewId(provider, kept[k].id)));
      }
    }
  }

  lemma SkipThenRename<T>(x: T, kept: seq<T>, k: nat, y: T)
    requires k < |kept|
    ensures ([x] + kept)[k + 1 := y] == [x] + kept[k := y]
  {
  }

  lemma UniqueIdsTail(menus: seq<CustomMenu>)
    requires UniqueIds(menus) && menus != []
    ensures UniqueIds(menus[1..])
    ensures forall m <- menus[1..] :: m.id != menus[0].id
  {
    var rest := menus[1..];
    forall i, j | 0 <= i < j < |rest| ensures rest[i].id != rest[j].id {
      assert rest[i] == menus[i + 1] && rest[j] == menus[j + 1];
    }
    forall m <- rest ensures m.id != menus[0].id {
      var j :| 0 <= j < |rest| && rest[j] == m;
      assert menus[j + 1] == m;
    }
  }

  lemma RenameOrDropCons(x: CustomMenu, rest: seq<CustomMenu>, ids: set<string>, provider: Option<string -> string>)
    ensures RenameOrDrop([x] + rest, ids, provider) == Resolve(x, ids, provider) + RenameOrDrop(rest, ids, provider)
  {
    var existing := [x] + rest;
    assert existing[0] == x && existing[1..] == rest;
  }

  /** A turn whose id the first kept menu has: that menu is renamed, or removed when it keeps its id. */
  lemma StepAtHead(x: CustomMenu, kept: seq<CustomMenu>, menu: CustomMenu, provider: Option<string -> string>)
    requires x.id == menu.id
    ensures NewId(provider, x.id) == x.id ==> ImportStep([x] + kept, menu, provider) == kept
    ensures NewId(provider, x.id) != x.id ==>
      ImportStep([x] + kept, menu, provider) == [x.(id := NewId(provider, x.id))] + kept
  {
    var all := [x] + kept;
    assert all[0] == x;
    assert FirstWithId(all, menu.id) == 0;
    var renamed := x.(id := NewId(provider, x.id));
    if NewId(provider, x.id) == x.id {
      assert all[..0] + all[1..] == kept;
    } else {
      assert all[0 := renamed] == [renamed] + kept;
    }
  }

  lemma StepAtMatch(x: CustomMenu, rest: seq<CustomMenu>, done: set<string>, provider: Option<string -> string>, menu: CustomMenu)
    requires x.id == menu.id && x.id !in done
    requires forall m <- rest :: m.id != menu.id
    ensures ImportStep(RenameOrDrop([x] + rest, done, provider), menu, provider)
         == RenameOrDrop([x] + rest, done + {menu.id}, provider)
  {
    RenameOrDropIgnores(rest, done, provider, menu.id);
    RenameOrDropCons(x, rest, done, provider);
    RenameOrDropCons(x, rest, done + {menu.id}, provider);
    var drest := RenameOrDrop(rest, done, provider);
    assert Resolve(x, done, provider) == [x];
    StepAtHead(x, drest, menu, provider);
  }

  lemma StepPastHead(x: CustomMenu, rest: seq<CustomMenu>, done: set<string>, ids: set<string>,
                     provider: Option<string -> string>, menu: CustomMenu)
    requires x.id != menu.id && menu.id in ids && done <= ids
    requires x.id in ids && NewId(provider, x.id) != x.id ==> NewId(provider, x.id) !in ids
    requires ImportStep(RenameOrDrop(rest, done, provider), menu, provider)
          == RenameOrDrop(rest, done + {menu.id}, provider)
    ensures ImportStep(RenameOrDrop([x] + rest, done, provider), menu, provider)
         == RenameOrDrop([x] + rest, done + {menu.id}, provider)
  {
    var head := Resolve(x, done, provider);
    assert Resolve(x, done + {menu.id}, provider) == head;
    var drest := RenameOrDrop(rest, done, provider);
    RenameOrDropCons(x, rest, done, provider);
    RenameOrDropCons(x, rest, done + {menu.id}, provider);
    if head != [] {
      assert head == [head[0]];
      assert head[0].id != menu.id;
      StepSkipsOtherId(head[0], drest, menu, provider);
    } else {
      assert head + drest == drest;
    }
  }

  /** One turn against the menus that the earlier turns left. */
  lemma {:induction false} RenameOrDropStep(existing: seq<CustomMenu>, done: set<string>, ids: set<string>,
                                            provider: Option<string -> string>, menu: CustomMenu)
    requires UniqueIds(existing) && FreshRenames(existing, ids, provider) && menu.id in ids && done <= ids
    ensures ImportStep(RenameOrDrop(existing, done, provider), menu, provider)
         == RenameOrDrop(existing, done + {menu.id}, provider)
  {
    if menu.id in done {
      NoMatchAfter(existing, done, ids, provider, menu.id);
      assert done + {menu.id} == done;
    } else if existing != [] {
      var x, rest := existing[0], existing[1..];
      assert existing == [x] + rest;
      UniqueIdsTail(existing);
      assert x in existing;
      if x.id == menu.id {
        StepAtMatch(x, rest, done, provider, menu);
      } else {
        assert FreshRenames(rest, ids, provider) by {
          assert forall m <- rest :: m in existing;
        }
        RenameOrDropStep(rest, done, ids, provider, menu);
        StepPastHead(x, rest, done, ids, provider, menu);
      }
    }
  }

  lemma {:induction false} RenameOrDropNothing(existing: seq<CustomMenu>, provider: Option<string -> string>)
    ensures RenameOrDrop(existing, {}, provider) == existing
  {
    if existing != [] {
      RenameOrDropNothing(existing[1..], provider);
    }
  }

  /**
   * With distinct ids among the existing menus, and renamed ids that no
   * incoming menu has: every existing menu whose id an incoming menu has is
   * renamed to its new id, or removed when the new id is its old one (always
   * so without a provider); the others stay, in order.
   */
  lemma {:induction false} ImportClosedForm(existing: seq<CustomMenu>, incoming: seq<CustomMenu>, provider: Option<string -> string>)
    requires UniqueIds(existing) && FreshRenames(existing, Ids(incoming), provider)
    ensures ImportAll(existing, incoming, provider) == RenameOrDrop(existing, Ids(incoming), provider)
  {
    ImportPrefix(existing, incoming, |incoming|, provider);
    assert incoming[..|incoming|] == incoming;
  }

  lemma {:induction false} ImportPrefix(existing: seq<CustomMenu>, incoming: seq<CustomMenu>, n: nat, provider: Option<string -> string>)
    requires n <= |incoming|
    requires UniqueIds(existing) && FreshRenames(existing, Ids(incoming), provider)
    ensures ImportAll(existing, incoming[..n], provider) == RenameOrDrop(existing, Ids(incoming[..n]), provider)
  {
    if n == 0 {
      assert Ids(incoming[..0]) == {};
      RenameOrDropNothing(existing, provider);
    } else {
      ImportPrefix(existing, incoming, n - 1, provider);
      assert ImportAll(existing, incoming[..n], provider)
          == ImportStep(ImportAll(existing, incoming[..n - 1], provider), incoming[n - 1], provider) by {
        ImportAllNext(existing, incoming, n - 1, provider);
      }
      PrefixIds(incoming, n);
      RenameOrDropStep(existing, Ids(incoming[..n - 1]), Ids(incoming), provider, incoming[n - 1]);
    }
  }

  lemma PrefixIds(incoming: seq<CustomMenu>, n: nat)
    requires 0 < n <= |incoming|
    ensures Ids(incoming[..n]) == Ids(incoming[..n - 1]) + {incoming[n - 1].id}
    ensures Ids(incoming[..n - 1]) <= Ids(incoming) && incoming[n - 1].id in Ids(incoming)
  {
    var prefix := incoming[..n];
    assert prefix == incoming[..n - 1] + [incoming[n - 1]];
    assert incoming[n - 1] in incoming;
    assert forall m <- incoming[..n - 1] :: m in incoming;
  }
}
