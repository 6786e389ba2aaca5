# Sketchware custom definitions stores, in Dafny

This project models the core of SketchwareManager, a Kotlin library that edits the
files of the Sketchware Android app builder. The core has three parts.

- **`SketchwareCustomListenersManager`** stores custom listener groups in two flat
  record streams: listener records and event records.
  - Reading joins every listener record to the event records that name it as their
    listener. It then appends one synthetic "activity" group with the empty name.
  - Every change reads the list, changes it, and re-flattens the whole list into both
    streams. A group with the empty name is not stored as a listener, but its events are.
  - It also covers import, with its name-conflict rule, export, fetch from the files and
    save to the files.
- **`SketchwareStudioCustomMenusManager`** stores custom menus in one flat record stream.
  - A menu read from the stream takes both its id and its name from the stored name.
  - Add, remove, the two edits and import are full read-modify-write cycles over the list.
  - On import, the rule on an id clash renames or removes the *existing* menu.
- **`ProjectDestination`** derives a project's six locations from the Sketchware root
  folder and the numeric project id.

Each manager is a `class`. It has these fields:

- the in-memory streams (`eventsValue`, `listenersValue`, `menusValue`);
- the lazily computed list, as an `Option` cache (`None` after every reset);
- the files, as `Storage.StoredFile` objects.

Every method states its whole new state in terms of specification functions. The view
is `View`, re-flattening is `ListenerRecords` / `EventRecords` / `Flatten`, and the
import merge is `ImportAll`. `Valid()` says that a computed list is the view of the
current streams. Every save, fetch and reset restores it. Only the menu builder edit as
written can break it (see Findings), so the menu methods work from the list `menus`
would return (`Current()`). The properties of those functions are proved as lemmas:

- what the next read returns after a save, add, remove or edit;
- the round trip of the listener streams;
- the closed forms of both import rules;
- the layout and distinctness of the project paths.

Both imports are `while` loops matched to a snoc-recursive specification function by a
loop invariant.

Modules, one per file:

- `Wrappers`, `Lists` (`indexOf` / `remove` by equality), `Decimal` (`Int.toString`) and
  `Storage`: supporting modules.
- `ListenerModel` and `ListenerImport`: the listeners.
- `ListenersManager`: the listener manager class.
- `MenuModel`: the menus.
- `MenusManager`: the menu manager class.
- `ProjectDestination`: the project paths.

Two behaviours of the code are kept as written:

- An edit of an absent name or id is a precondition. The code does not report a
  not-found error; `get(-1)` or `first` throws.
- The listener `save` writes only the events file (SketchwareCustomListenersManager.kt:147-149).

## Model

| member | source | states |
|---|---|---|
| ListenerModel.ViewLayout | src/main/kotlin/io/sketchware/manager/customs/listeners/SketchwareCustomListenersManager.kt:34-56 | The materialised list is one group per stored listener record, in stored order: same name, independence, imports and code, and the events whose listener is that name. Then comes exactly one activity group: empty name, independent, no imports or code, holding the events addressed to the empty name. |
| ListenerModel.View | src/main/kotlin/io/sketchware/manager/customs/listeners/SketchwareCustomListenersManager.kt:40-56 | One group per stored listener record, then one more for the activity record. ViewLayout gives the contents of each. |
| ListenerModel.EventsOf | src/main/kotlin/io/sketchware/manager/customs/listeners/SketchwareCustomListenersManager.kt:46-47 | The events of one listener come from the event records, at most one per record. |
| ListenerModel.ListenerRecords | src/main/kotlin/io/sketchware/manager/customs/listeners/SketchwareCustomListenersManager.kt:92-101 | One listener record per group with a non-empty name, so no record written has the empty name and there are no more records than groups. |
| ListenerModel.NamedOnly | src/main/kotlin/io/sketchware/manager/customs/listeners/SketchwareCustomListenersManager.kt:92-93 | The filter keeps exactly the groups with a non-empty name and is no longer than its input. |
| ListenerModel.TagEvents | src/main/kotlin/io/sketchware/manager/customs/listeners/SketchwareCustomListenersManager.kt:103-113 | One event record per event of the group, each tagged with the group's name as its listener. |
| ListenerModel.EventRecords | src/main/kotlin/io/sketchware/manager/customs/listeners/SketchwareCustomListenersManager.kt:102-115 | Every event record written names one of the saved groups (unnamed ones included) as its listener. |
| ListenerModel.EventsOfEventRecords | src/main/kotlin/io/sketchware/manager/customs/listeners/SketchwareCustomListenersManager.kt:46-54 | After re-flattening, the events read back for a name are the events of all groups with that name, in list order. |
| ListenerModel.SaveThenView | src/main/kotlin/io/sketchware/manager/customs/listeners/SketchwareCustomListenersManager.kt:40-56 | The next read after saving any list: each named group in order, holding the events of all groups of its name, then the activity group holding the events of all unnamed groups. |
| ListenerModel.ViewAfterSaveUnique | src/main/kotlin/io/sketchware/manager/customs/listeners/SketchwareCustomListenersManager.kt:91-117 | With distinct names, saving and reading gives the named groups unchanged, then the activity group. |
| ListenerModel.EventsNamedSole | src/main/kotlin/io/sketchware/manager/customs/listeners/SketchwareCustomListenersManager.kt:46-47 | A group whose name no other group shares gets back exactly its own events. |
| ListenerModel.ReloadStoredPlus | src/main/kotlin/io/sketchware/manager/customs/listeners/SketchwareCustomListenersManager.kt:91-117 | Saving stored groups followed by groups with other names reads back the stored groups unchanged, then the named extra groups, then the activity group with the unnamed extras' events. |
| ListenerModel.RoundTrip | src/main/kotlin/io/sketchware/manager/customs/listeners/SketchwareCustomListenersManager.kt:40-56 | Saving groups with distinct non-empty names followed by an activity group reads back exactly that list. |
| ListenerModel.WellFormedView | src/main/kotlin/io/sketchware/manager/customs/listeners/SketchwareCustomListenersManager.kt:42-45 | The view of a stream with distinct non-empty names is those groups, with the stored names, followed by the activity group. |
| ListenerModel.ResaveView | src/main/kotlin/io/sketchware/manager/customs/listeners/SketchwareCustomListenersManager.kt:91-117 | Saving the view of such a stream and reading again gives the same view. |
| ListenerModel.ResaveDropsOrphans | src/main/kotlin/io/sketchware/manager/customs/listeners/SketchwareCustomListenersManager.kt:46-47 | Re-saving the view keeps only event records addressed to a stored listener or to the empty name. |
| ListenerModel.AddThenView | src/main/kotlin/io/sketchware/manager/customs/listeners/SketchwareCustomListenersManager.kt:67-69 | After adding a group with a new name, a named group reads back just before the activity group. An unnamed group is not stored; its events join the activity group. |
| ListenerModel.RemoveNamed | src/main/kotlin/io/sketchware/manager/customs/listeners/SketchwareCustomListenersManager.kt:76 | A group survives exactly when its name differs; an absent name changes nothing. |
| ListenerModel.RemoveThenView | src/main/kotlin/io/sketchware/manager/customs/listeners/SketchwareCustomListenersManager.kt:74-78 | After a remove, the other stored groups read back, then the activity group (emptied when the name is empty). No event record names the removed name. Removing an absent non-empty name changes nothing a read shows. |
| ListenerModel.FirstNamed | src/main/kotlin/io/sketchware/manager/customs/listeners/SketchwareCustomListenersManager.kt:87 | -1 exactly when no group has the name, otherwise the first index of a group with it. |
| ListenerModel.EditThenView | src/main/kotlin/io/sketchware/manager/customs/listeners/SketchwareCustomListenersManager.kt:83-89 | For a stream with distinct non-empty names, an edited group that is a stored listener (a non-empty name), an edited name that is non-empty, and an edited name no other stored listener has: the edited group takes the index of the first group with the name and the others are unchanged on reading back. Its events are stored under its new name, and the old name keeps none. |
| ListenerImport.ImportStep | src/main/kotlin/io/sketchware/manager/customs/listeners/SketchwareCustomListenersManager.kt:176-184 | For an incoming group that differs from the first current group of its name: a provider renames the incoming group to provider(existing name); without one, that current group is removed. Otherwise nothing changes. |
| ListenerImport.ImportAll | src/main/kotlin/io/sketchware/manager/customs/listeners/SketchwareCustomListenersManager.kt:176-184 | The loop adds one group per incoming group, so the added part is as long as the incoming list. |
| ListenerImport.Imported | src/main/kotlin/io/sketchware/manager/customs/listeners/SketchwareCustomListenersManager.kt:173-187 | With a provider, the saved list is every current group in order, followed by each incoming group, renamed exactly when the first current group with its name differs from it. Without a provider and with distinct current names, it is the current groups without conflicts, followed by the incoming groups as they are. |
| ListenerImport.ImportWithProvider | src/main/kotlin/io/sketchware/manager/customs/listeners/SketchwareCustomListenersManager.kt:173-187 | With a provider, every current group survives in order. Each incoming group is renamed exactly when the first current group with its name differs from it. |
| ListenerImport.DropConflicts | src/main/kotlin/io/sketchware/manager/customs/listeners/SketchwareCustomListenersManager.kt:177-181 | A current group is kept exactly when no differing incoming group has its name. |
| ListenerImport.ImportWithoutProvider | src/main/kotlin/io/sketchware/manager/customs/listeners/SketchwareCustomListenersManager.kt:173-187 | Without a provider and with distinct current names, incoming groups keep their names. A current group survives exactly when no differing incoming group has its name, so equal groups are saved twice. |
| ListenersManager.CustomListenersManager.constructor | src/main/kotlin/io/sketchware/manager/customs/listeners/SketchwareCustomListenersManager.kt:16-21 | The manager holds the given streams and files, with nothing computed yet. |
| ListenersManager.CustomListenersManager.Open | src/main/kotlin/io/sketchware/manager/customs/listeners/SketchwareCustomListenersManager.kt:24-32 | The streams are what the two files hold. |
| ListenersManager.CustomListenersManager.Listeners | src/main/kotlin/io/sketchware/manager/customs/listeners/SketchwareCustomListenersManager.kt:40-61 | Returns the view of the current streams, and caches it. A cached list is returned as is. |
| ListenersManager.CustomListenersManager.SaveLocally | src/main/kotlin/io/sketchware/manager/customs/listeners/SketchwareCustomListenersManager.kt:91-117 | Both streams are replaced by the flattening of the list and the cache is reset. The next read is as SaveThenView states. |
| ListenersManager.CustomListenersManager.AddListenerGroup | src/main/kotlin/io/sketchware/manager/customs/listeners/SketchwareCustomListenersManager.kt:67-69 | Saves the view followed by the group; what reads back is as AddThenView states. |
| ListenersManager.CustomListenersManager.RemoveListenerGroup | src/main/kotlin/io/sketchware/manager/customs/listeners/SketchwareCustomListenersManager.kt:74-78 | Saves the view without the groups of that name, and no event record keeps the name. The read-back is as RemoveThenView states. |
| ListenersManager.CustomListenersManager.EditListenerGroup | src/main/kotlin/io/sketchware/manager/customs/listeners/SketchwareCustomListenersManager.kt:83-89 | Requires the name to be present. Saves the view with the first group of that name replaced by the editor's result; the read-back is as EditThenView states. |
| ListenersManager.CustomListenersManager.Fetch | src/main/kotlin/io/sketchware/manager/customs/listeners/SketchwareCustomListenersManager.kt:130-134 | Both streams are re-read from their files and the cache is reset. |
| ListenersManager.CustomListenersManager.Save | src/main/kotlin/io/sketchware/manager/customs/listeners/SketchwareCustomListenersManager.kt:147-149 | Writes the events stream to the events file and leaves the listeners file as it was. |
| ListenersManager.CustomListenersManager.ImportOne | src/main/kotlin/io/sketchware/manager/customs/listeners/SketchwareCustomListenersManager.kt:176-184 | One turn of the loop performs exactly the step that ImportStep specifies. |
| ListenersManager.CustomListenersManager.Import | src/main/kotlin/io/sketchware/manager/customs/listeners/SketchwareCustomListenersManager.kt:173-187 | Saves the surviving current groups followed by all incoming groups, as ImportAll merges them, and resets the cache. |
| ListenersManager.CustomListenersManager.Export | src/main/kotlin/io/sketchware/manager/customs/listeners/SketchwareCustomListenersManager.kt:193-195 | The destination receives the current view, which stays computed. |
| ListenersManager.AddSaveFetch | src/main/kotlin/io/sketchware/manager/customs/listeners/SketchwareCustomListenersManager.kt:147-149 | Add a group with a new name, then save, then fetch. The group's events come back from the events file but the group does not, because the listeners file was never written: no group of the next read has its name. |
| MenuModel.View | src/main/kotlin/io/sketchware/manager/customs/menus/SketchwareStudioCustomMenusManager.kt:25-29 | One menu per stored record, and every menu read has its id equal to its name. |
| MenuModel.Flatten | src/main/kotlin/io/sketchware/manager/customs/menus/SketchwareStudioCustomMenusManager.kt:132-135 | One record per menu, and every menu's record is written. |
| MenuModel.ViewLayout | src/main/kotlin/io/sketchware/manager/customs/menus/SketchwareStudioCustomMenusManager.kt:25-29 | One menu per stored record, in order. Id and name are both the record's name; title and data are copied. |
| MenuModel.SaveThenView | src/main/kotlin/io/sketchware/manager/customs/menus/SketchwareStudioCustomMenusManager.kt:132-137 | With a conversion that loses nothing for menus whose id is their name, saving such menus reads back the same list. |
| MenuModel.IdChangeNotReadBack | src/main/kotlin/io/sketchware/manager/customs/menus/SketchwareStudioCustomMenusManager.kt:25-29 | Whatever the conversion, a menu whose id differs from its name never reads back as itself. |
| MenuModel.RemoveById | src/main/kotlin/io/sketchware/manager/customs/menus/SketchwareStudioCustomMenusManager.kt:48-52 | A menu survives exactly when its id differs; an absent id changes nothing. |
| MenuModel.FirstWithId | src/main/kotlin/io/sketchware/manager/customs/menus/SketchwareStudioCustomMenusManager.kt:70 | -1 exactly when no menu has the id, otherwise the first index of a menu with it. |
| MenuModel.ReplaceFirst | src/main/kotlin/io/sketchware/manager/customs/menus/SketchwareStudioCustomMenusManager.kt:68-73 | indexOf of the first menu with the id finds that same menu. The new menu takes that index; every other position is unchanged. |
| MenuModel.EditWithBuilder | src/main/kotlin/io/sketchware/manager/customs/menus/SketchwareStudioCustomMenusManager.kt:59-61 | The first menu with the id is replaced by what the builder makes of it; every other position is unchanged. |
| MenuModel.EditWithBuilderAsWritten | src/main/kotlin/io/sketchware/manager/customs/menus/SketchwareStudioCustomMenusManager.kt:59-61 | As written, it agrees with EditWithBuilder when the builder keeps the id. When the builder changes the id and ids are distinct, it always fails. |
| MenuModel.BuilderRenameFails | src/main/kotlin/io/sketchware/manager/customs/menus/SketchwareStudioCustomMenusManager.kt:59-61 | Renaming the only menu through the builder fails as written; the intended edit gives the renamed menu. |
| MenuModel.ImportStep | src/main/kotlin/io/sketchware/manager/customs/menus/SketchwareStudioCustomMenusManager.kt:86-91 | The first current menu with the incoming id takes provider(id). It is removed exactly when that equals its old id, which is always the case without a provider. Without a match nothing changes. |
| MenuModel.ImportAll | src/main/kotlin/io/sketchware/manager/customs/menus/SketchwareStudioCustomMenusManager.kt:85-92 | The loop never adds a current menu: the survivors are no more than the current menus. |
| MenuModel.Imported | src/main/kotlin/io/sketchware/manager/customs/menus/SketchwareStudioCustomMenusManager.kt:94 | The saved list ends with every incoming menu unchanged, after at most the current menus. With distinct current ids and fresh renames, those survivors are RenameOrDrop. |
| MenuModel.ImportClosedForm | src/main/kotlin/io/sketchware/manager/customs/menus/SketchwareStudioCustomMenusManager.kt:82-95 | Assumes distinct current ids, and renames to ids that no incoming menu has. Then every current menu whose id an incoming menu has is renamed, or removed when it keeps its id, and the others stay in order. |
| MenusManager.CustomMenusManager.constructor | src/main/kotlin/io/sketchware/manager/customs/menus/SketchwareStudioCustomMenusManager.kt:15-18 | The manager holds the given stream and file, with nothing computed yet. |
| MenusManager.CustomMenusManager.Open | src/main/kotlin/io/sketchware/manager/customs/menus/SketchwareStudioCustomMenusManager.kt:20-23 | The stream is what the file holds. |
| MenusManager.CustomMenusManager.Current | src/main/kotlin/io/sketchware/manager/customs/menus/SketchwareStudioCustomMenusManager.kt:25-34 | What `menus` returns: the computed list if there is one, otherwise the view of the stream. It is the view whenever `Valid()` holds. |
| MenusManager.CustomMenusManager.Menus | src/main/kotlin/io/sketchware/manager/customs/menus/SketchwareStudioCustomMenusManager.kt:25-34 | Returns the computed list, or computes the view of the stream and keeps it. Either way `Valid()` is as before. |
| MenusManager.CustomMenusManager.SaveCustomMenus | src/main/kotlin/io/sketchware/manager/customs/menus/SketchwareStudioCustomMenusManager.kt:132-137 | The stream becomes the conversion of the list and the cache is reset. With a lossless conversion, a list whose ids are its names reads back as is. |
| MenusManager.CustomMenusManager.AddCustomMenu | src/main/kotlin/io/sketchware/manager/customs/menus/SketchwareStudioCustomMenusManager.kt:40-42 | Saves the current list followed by the menu. With a lossless conversion and a computed list that is the view, a menu whose id is its name reads back last. |
| MenusManager.CustomMenusManager.RemoveMenuById | src/main/kotlin/io/sketchware/manager/customs/menus/SketchwareStudioCustomMenusManager.kt:48-52 | Saves the current list without the menus with that id. With a lossless conversion and a computed list that is the view, exactly those read back, and an absent id changes nothing. |
| MenusManager.CustomMenusManager.EditMenu | src/main/kotlin/io/sketchware/manager/customs/menus/SketchwareStudioCustomMenusManager.kt:68-73 | Requires the id to be present. Saves the current list with the first menu of that id replaced. With a lossless conversion and a computed list that is the view, only that position changes on reading back. |
| MenusManager.CustomMenusManager.EditMenuWith | src/main/kotlin/io/sketchware/manager/customs/menus/SketchwareStudioCustomMenusManager.kt:59-61 | The corrected edit. Requires the id to be present, and saves the current list as EditWithBuilder edits it. |
| MenusManager.CustomMenusManager.EditMenuWithAsWritten | src/main/kotlin/io/sketchware/manager/customs/menus/SketchwareStudioCustomMenusManager.kt:59-61 | As written, it throws exactly when EditWithBuilderAsWritten fails. The stream is then unchanged, but the computed list keeps the builder's edit in place of the menu, so it is no longer the view. Otherwise it saves what EditWithBuilderAsWritten gives. |
| MenusManager.RenameThrownThenAdd | src/main/kotlin/io/sketchware/manager/customs/menus/SketchwareStudioCustomMenusManager.kt:40-42 | After a builder rename that throws, addCustomMenu saves the renamed menu along with the new one: the failed edit is persisted. |
| MenusManager.CustomMenusManager.ImportOne | src/main/kotlin/io/sketchware/manager/customs/menus/SketchwareStudioCustomMenusManager.kt:86-91 | One turn of the loop performs exactly the step that ImportStep specifies. |
| MenusManager.CustomMenusManager.Import | src/main/kotlin/io/sketchware/manager/customs/menus/SketchwareStudioCustomMenusManager.kt:82-95 | Resets the cache and saves the surviving current menus followed by every incoming menu unchanged. Under ImportClosedForm's conditions, the survivors are the renamed-or-dropped current menus. |
| MenusManager.CustomMenusManager.Fetch | src/main/kotlin/io/sketchware/manager/customs/menus/SketchwareStudioCustomMenusManager.kt:150-153 | The stream is re-read from the file and the cache is reset. |
| MenusManager.CustomMenusManager.Save | src/main/kotlin/io/sketchware/manager/customs/menus/SketchwareStudioCustomMenusManager.kt:166-168 | Writes the stream to the file and leaves the cache as it is. |
| MenusManager.CustomMenusManager.Export | src/main/kotlin/io/sketchware/manager/customs/menus/SketchwareStudioCustomMenusManager.kt:118-120 | The destination receives the current list, which stays computed. |
| Lists.IndexOf | src/main/kotlin/io/sketchware/manager/customs/menus/SketchwareStudioCustomMenusManager.kt:71 | -1 exactly when no element is equal, otherwise the first index of an equal element. |
| Lists.RemoveFirst | src/main/kotlin/io/sketchware/manager/customs/menus/SketchwareStudioCustomMenusManager.kt:90 | Removes the element at IndexOf and nothing else; no change when there is no equal element. |
| Decimal.IntToString | src/main/kotlin/io/sketchware/project/models/ProjectDestination.kt:16-22 | The decimal text of an id is non-empty and starts with '-' exactly for negative ids. The rest is digits, and it holds no '/'. |
| Decimal.IntToStringInjective | src/main/kotlin/io/sketchware/project/models/ProjectDestination.kt:16-22 | Different ids render to different texts. |
| ProjectDestination.Split | src/main/kotlin/io/sketchware/project/models/ProjectDestination.kt:11 | Path text splits into non-empty names without '/'. |
| ProjectDestination.SplitJoin | src/main/kotlin/io/sketchware/project/models/ProjectDestination.kt:11 | Splitting names joined by '/' gives the names back. |
| ProjectDestination.Child | src/main/kotlin/io/sketchware/project/models/ProjectDestination.kt:14-22 | A child path adds the child's names under the parent. It is absolute when the parent is, or when the parent is the empty path. |
| ProjectDestination.ParsePath | src/main/kotlin/io/sketchware/project/models/ProjectDestination.kt:11 | `File(path)` gives names that are non-empty and hold no '/'. The path is absolute exactly when its text starts with '/', and has no names exactly when the text is all slashes. |
| ProjectDestination.ParsePathText | src/main/kotlin/io/sketchware/project/models/ProjectDestination.kt:11 | Reading back the text of a normalised path gives the same path. |
| ProjectDestination.FromFolder | src/main/kotlin/io/sketchware/project/models/ProjectDestination.kt:13-25 | The project file is folder/mysc/list/id and the data folder is folder/data/id. Images, icons, fonts and sounds are folder/kind/id, directly under the folder. All six are absolute exactly when the folder is, or are rooted when the folder is the empty path. |
| ProjectDestination.From | src/main/kotlin/io/sketchware/project/models/ProjectDestination.kt:11 | The same six locations under the names of the root path text. They are absolute when the text starts with '/' or has no names. |
| ProjectDestination.PathsDistinct | src/main/kotlin/io/sketchware/project/models/ProjectDestination.kt:16-22 | For one folder and id, the six locations are pairwise distinct and each ends in the decimal id. |
| ProjectDestination.IdsSeparateDestinations | src/main/kotlin/io/sketchware/project/models/ProjectDestination.kt:16-22 | Two different ids share none of the six locations. |

## Left out

- The text codec (`serialize` / `deserialize`), `toSpecFields`, `toBoolean` and `toInt`
  are not modelled. Their sources are not part of this model. A stream is its decoded
  record sequence, and every conversion is taken as an exact round trip.
- `toSWStudioMenu` is not part of this model. It is the constructor parameter
  `toStudioMenu`, and read-back properties assume it is lossless for menus whose id
  equals their name (`Faithful`).
- `getValue` on a record without a key, and an unparsable icon number, are not modelled.
  Records are typed, so those failures cannot arise.
- A file read or write failure is not modelled. Files are `Storage.StoredFile` objects
  whose contents are read and written whole.
- The coroutine wrappers, `Dispatchers.IO` and the callback overloads are not modelled.
  `synchronized` in `saveLocally` is treated as making it atomic.
- `lazyInit` is the `cache` field: `None` after a reset, filled on the first read.
- Aliasing is modelled only as updates of sequence elements. The list returned by the
  view and the entities in it are values. The in-place `apply(editor)`, `newGroup.name =`
  and `it.id =` become updates of sequence elements.
  - This changes the outcome in one place, `editMenu(id, builder)`; see Findings. There,
    the computed list is changed in place: it keeps the builder's edit after `first`
    throws, and later reads, exports and saves see it.
- The `resourcesFolder` value in `fromFolder` is computed but never used, so it is not
  modelled.
- SketchwareProManager, ActivityTheme and Image are outside this model: wiring, an enum
  and a plain data class.
- `java.io.File` is modelled as a Unix path: absolute or not, plus its non-empty names.
  - The path text is not kept, only its names. "." and ".." stay as names; they are not
    resolved.
  - Other platforms' separators are not modelled.
- ListenerImport.Imported: the closed form without a provider assumes distinct names
  in the current list. That holds for the view of a well-formed stream.
- ListenersManager.CustomListenersManager.AddListenerGroup, RemoveListenerGroup and
  EditListenerGroup state what reads back only for a stream with distinct non-empty names
  (`WellFormed`).
  - For other streams they state only the streams written.
  - Duplicate names make a read attach all events of the name to each group, so a re-save
    duplicates events.
  - EditListenerGroup also states what reads back only when the edited group is a stored
    listener (a non-empty name), its edited name is non-empty, and no other stored listener
    has that name. An edit of the activity group, an edit to the empty name, or a rename onto
    another stored name states only the streams written. A rename onto another stored name
    saves two groups with that name, and on reading back each of them carries the events of
    both.

## Findings

| source | as written | input that shows it | evidently intended | confidence | as-written member | corrected member |
|---|---|---|---|---|---|---|
| src/main/kotlin/io/sketchware/manager/customs/menus/SketchwareStudioCustomMenusManager.kt:59-61 | The builder edits the menu object held by the cached list, then `editMenu(id, menu)` searches that list again for the old id. When that search fails, `first` throws. By then the cached list already holds the edited menu, and `saveCustomMenus` never ran to reset it. So `menus` and `export` show the rename while the stream still has the old menu. The next add, remove, edit or import (lines 40-52, 84-94) saves that list, which persists the "failed" rename. | One menu with id "a" and a builder that sets id and name to "b": the second search finds no menu with id "a", and `first` throws. A following `addCustomMenu` saves the menu "b". This assumes `lazyInit` returns the same cached list until reset. | The first menu with the id is replaced by the builder's result, whatever id it now has, and the cache is reset. | medium, not executed | MenuModel.EditWithBuilderAsWritten, MenuModel.BuilderRenameFails, MenusManager.CustomMenusManager.EditMenuWithAsWritten, MenusManager.RenameThrownThenAdd | MenuModel.EditWithBuilder, MenusManager.CustomMenusManager.EditMenuWith |
