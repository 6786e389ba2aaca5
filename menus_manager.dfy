/**
 * `SketchwareStudioCustomMenusManager`: the menus stream held in memory, the
 * lazily computed list of menus, and the file the stream comes from and goes
 * to. `toStudioMenu` is the menu-to-record conversion every save uses.
 */
module MenusManager {
  import opened Wrappers
  import opened Lists
  import opened Storage
  import opened MenuModel

  class CustomMenusManager {
    var menusValue: seq<StudioMenu>
    /** `menusProperty`: None until read and after every reset. */
    var cache: Option<seq<CustomMenu>>
    const menusFile: StoredFile<seq<StudioMenu>>
    const toStudioMenu: CustomMenu -> StudioMenu

    /**
     * The computed list of menus, when there is one, is the view of the
     * current stream. Every save and fetch restores this; only the builder
     * edit as written (`EditMenuWithAsWritten`) can break it.
     */
    ghost predicate Valid()
      reads this
    {
      cache.Some? ==> cache.value == View(menusValue)
    }

    /** What `menus` returns now: the computed list if there is one, otherwise the view of the stream. */
    ghost function Current(): (menus: seq<CustomMenu>)
      reads this
      ensures Valid() ==> menus == View(menusValue)
      ensures cache.Some? ==> menus == cache.value
    {
      match cache
      case Some(computed) => computed
      case None => View(menusValue)
    }

    constructor (menusValue: seq<StudioMenu>, menusFile: StoredFile<seq<StudioMenu>>, toStudioMenu: CustomMenu -> StudioMenu)
      ensures Valid() && cache == None
      ensures this.menusValue == menusValue && this.menusFile == menusFile && this.toStudioMenu == toStudioMenu
    {
      this.menusValue := menusValue;
      this.menusFile := menusFile;
      this.toStudioMenu := toStudioMenu;
      cache := None;
    }

    /** The companion `invoke`: a manager over what the file holds now. */
    constructor Open(menusFile: StoredFile<seq<StudioMenu>>, toStudioMenu: CustomMenu -> StudioMenu)
      ensures Valid() && cache == None
      ensures menusValue == menusFile.contents && this.menusFile == menusFile && this.toStudioMenu == toStudioMenu
    {
      menusValue := menusFile.contents;
      this.menusFile := menusFile;
      this.toStudioMenu := toStudioMenu;
      cache := None;
    }

    /** `menus`: computed once after each reset, then reused. */
    method Menus() returns (menus: seq<CustomMenu>)
      modifies this`cache
      ensures cache == Some(menus) && menus == old(Current())
      ensures Valid() == old(Valid())
    {
      match cache {
        case Some(computed) =>
          menus := computed;
        case None =>
          menus := View(menusValue);
          cache := Some(menus);
      }
    }

    /**
     * `saveCustomMenus`: the stream becomes the conversion of `list`. With a
     * faithful conversion, a list whose ids are its names reads back as is.
     */
    method SaveCustomMenus(list: seq<CustomMenu>)
      modifies this`menusValue, this`cache
      ensures Valid() && cache == None
      ensures menusValue == Flatten(toStudioMenu, list)
      ensures Faithful(toStudioMenu) && (forall m <- list :: m.id == m.name) ==> View(menusValue) == list
    {
      menusValue := Flatten(toStudioMenu, list);
      cache := None;
      if Faithful(toStudioMenu) && (forall m <- list :: m.id == m.name) {
        SaveThenView(toStudioMenu, list);
      }
    }

    /**
     * `addCustomMenu`: the current list and the menu are saved. With a
     * faithful conversion and a computed list that is the view of the stream,
     * a menu whose id is its name reads back last.
     */
    method AddCustomMenu(menu: CustomMenu)
      modifies this`menusValue, this`cache
      ensures Valid() && cache == None
      ensures menusValue == Flatten(toStudioMenu, old(Current()) + [menu])
      ensures old(Valid()) && Faithful(toStudioMenu) && menu.id == menu.name ==>
        View(menusValue) == old(View(menusValue)) + [menu]
    {
      var menus := Menus();
      ViewLayout(old(menusValue));
      SaveCustomMenus(menus + [menu]);
    }

    /** `removeMenuById`: with a faithful conversion, the menus without the id read back, in order. */
    method RemoveMenuById(id: string)
      modifies this`menusValue, this`cache
      ensures Valid() && cache == None
      ensures menusValue == Flatten(toStudioMenu, RemoveById(old(Current()), id))
      ensures old(Valid()) && Faithful(toStudioMenu) ==> View(menusValue) == RemoveById(old(View(menusValue)), id)
      ensures old(Valid()) && Faithful(toStudioMenu) && (forall m <- old(View(menusValue)) :: m.id != id) ==>
        View(menusValue) == old(View(menusValue))
    {
      var menus := Menus();
      ViewLayout(old(menusValue));
      SaveCustomMenus(RemoveById(menus, id));
    }

    /**
     * `editMenu(id, menu)`: the first menu with the id is replaced by `menu`;
     * the id must be present. With a faithful conversion and a menu whose id
     * is its name, exactly that position changes on reading back.
     */
    method EditMenu(id: string, menu: CustomMenu)
      requires FirstWithId(Current(), id) != -1
      modifies this`menusValue, this`cache
      ensures Valid() && cache == None
      ensures menusValue == Flatten(toStudioMenu, ReplaceFirst(old(Current()), id, menu))
      ensures old(Valid()) && Faithful(toStudioMenu) && menu.id == menu.name ==>
        var v, k := old(View(menusValue)), FirstWithId(old(View(menusValue)), id);
        && |View(menusValue)| == |v| && View(menusValue)[k] == menu
        && forall j :: 0 <= j < |v| && j != k ==> View(menusValue)[j] == v[j]
    {
      var menus := Menus();
      ViewLayout(old(menusValue));
      SaveCustomMenus(ReplaceFirst(menus, id, menu));
    }

    /**
     * `editMenu(id, builder)`, as intended: the first menu with the id is
     * replaced by what `builder` makes of it (see `EditWithBuilderAsWritten`
     * for the code as written).
     */
    method EditMenuWith(id: string, builder: CustomMenu -> CustomMenu)
      requires FirstWithId(Current(), id) != -1
      modifies this`menusValue, this`cache
      ensures Valid() && cache == None
      ensures menusValue == Flatten(toStudioMenu, EditWithBuilder(old(Current()), id, builder))
    {
      var menus := Menus();
      var edited := builder(menus[FirstWithId(menus, id)]);
      EditMenu(id, edited);
    }

    /**
     * `editMenu(id, builder)` as written. The builder edits the menu object
     * that the computed list itself holds, so the list is changed before
     * `editMenu(id, menu)` searches it again. When that search finds no menu
     * with the id, `first` throws (`thrown`): the stream is untouched, but the
     * computed list keeps the edited menu, so it is no longer the view of the
     * stream and later reads, exports and saves see the edit.
     */
    method EditMenuWithAsWritten(id: string, builder: CustomMenu -> CustomMenu) returns (thrown: bool)
      requires FirstWithId(Current(), id) != -1
      modifies this`menusValue, this`cache
      ensures var v := old(Current()); var k := FirstWithId(v, id);
        && (thrown <==> EditWithBuilderAsWritten(v, id, builder) == None)
        && (thrown ==> menusValue == old(menusValue) && cache == Some(v[k := builder(v[k])]))
        && (!thrown ==> Valid() && cache == None
                        && menusValue == Flatten(toStudioMenu, EditWithBuilderAsWritten(v, id, builder).value))
    {
      var menus := Menus();
      var k := FirstWithId(menus, id);
      var edited := builder(menus[k]);
      cache := Some(menus[k := edited]);
      if FirstWithId(menus[k := edited], id) == -1 {
        thrown := true;
      } else {
        thrown := false;
        EditMenu(id, edited);
      }
    }

    /**
     * The body of the `forEach` for the incoming `menu`: the first current
     * menu with its id takes its new id, or is removed when that is its old one.
     */
    static method ImportOne(allMenus: seq<CustomMenu>, menu: CustomMenu, provider: Option<string -> string>)
      returns (kept: seq<CustomMenu>)
      ensures kept == ImportStep(allMenus, menu, provider)
    {
      kept := allMenus;
      var k := FirstWithId(allMenus, menu.id);
      if k != -1 {
        var currentId := allMenus[k].id;
        var renamed := allMenus[k].(id := NewId(provider, currentId));
        kept := allMenus[k := renamed];
        if currentId == renamed.id {
          IndexOfFirstWithId(allMenus, menu.id);
          kept := RemoveFirst(allMenus, allMenus[k]);
        }
      }
    }

    /**
     * `import`: the menus of `file` are saved after the current menus that
     * survive `ImportAll`. With distinct current ids and renames to ids no
     * incoming menu has, each clashing current menu is renamed, or removed
     * when it keeps its id.
     */
    method Import(file: StoredFile<seq<CustomMenu>>, provider: Option<string -> string>)
      modifies this`menusValue, this`cache
      ensures Valid() && cache == None
      ensures menusValue == Flatten(toStudioMenu, Imported(old(Current()), file.contents, provider))
      ensures UniqueIds(old(Current())) && FreshRenames(old(Current()), Ids(file.contents), provider) ==>
        menusValue == Flatten(toStudioMenu, RenameOrDrop(old(Current()), Ids(file.contents), provider) + file.contents)
    {
      var newMenus := file.contents;
      var allMenus := Menus();
      ghost var existing := allMenus;
      assert existing == old(Current());
      var i := 0;
      while i < |newMenus|
        invariant 0 <= i <= |newMenus|
        invariant ImportAll(existing, newMenus[..i], provider) == allMenus
      {
        ImportAllNext(existing, newMenus, i, provider);
        allMenus := ImportOne(allMenus, newMenus[i], provider);
        i := i + 1;
      }
      assert newMenus[..|newMenus|] == newMenus;
      assert allMenus + newMenus == Imported(existing, file.contents, provider);
      cache := None;
      SaveCustomMenus(allMenus + newMenus);
      if UniqueIds(existing) && FreshRenames(existing, Ids(newMenus), provider) {
        ImportClosedForm(existing, newMenus, provider);
      }
    }

    /** `fetch`: the stream is read again from its file. */
    method Fetch()
      modifies this`menusValue, this`cache
      ensures Valid() && cache == None
      ensures menusValue == menusFile.contents
    {
      menusValue := menusFile.contents;
      cache := None;
    }

    /** `save`: writes the stream to its file. */
    method Save()
      modifies menusFile
      ensures menusFile.contents == menusValue
    {
      menusFile.contents := menusValue;
    }

    /** `export`: the current list of menus is written to `destination`. */
    method Export(destination: StoredFile<seq<CustomMenu>>)
      modifies this`cache, destination
      ensures Valid() == old(Valid())
      ensures destination.contents == old(Current()) && cache == Some(destination.contents)
    {
      var menus := Menus();
      destination.contents := menus;
    }
  }

  /**
   * A builder rename that throws, followed by `addCustomMenu`: the renamed
   * menu the computed list kept is saved along with the new one, although the
   * edit failed.
   */
  method RenameThrownThenAdd(manager: CustomMenusManager, id: string, builder: CustomMenu -> CustomMenu, menu: CustomMenu)
    requires FirstWithId(manager.Current(), id) != -1 && UniqueIds(manager.Current())
    requires builder(manager.Current()[FirstWithId(manager.Current(), id)]).id != id
    modifies manager
    ensures var v := old(manager.Current()); var k := FirstWithId(v, id);
      manager.menusValue == Flatten(manager.toStudioMenu, v[k := builder(v[k])] + [menu])
  {
    var thrown := manager.EditMenuWithAsWritten(id, builder);
    manager.AddCustomMenu(menu);
  }
}
