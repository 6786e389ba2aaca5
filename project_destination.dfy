/**
 * Where a Sketchware project keeps its files: `ProjectDestination.from` and
 * `ProjectDestination.fromFolder` derive six locations from the Sketchware
 * root folder and the numeric project id.
 *
 * A `java.io.File` is modelled by its normalised path on a Unix file system:
 * whether it is absolute and the sequence of its non-empty names. Building
 * `File(String)` splits the text at '/' and drops empty names (repeated and
 * trailing slashes vanish, "." and ".." are kept as names, as `java.io.File`
 * does); `File(parent, child)` appends the child's names, and resolves a child
 * of the empty path against "/".
 */
module ProjectDestination {
  import opened Decimal

  datatype File = File(absolute: bool, names: seq<string>)

  /** The index of the first '/' in `s`, or `|s|` when there is none. */
  function FirstSlash(s: string): (k: nat)
    ensures k <= |s| && '/' !in s[..k]
    ensures k < |s| ==> s[k] == '/'
  {
    if s == [] || s[0] == '/' then 0 else 1 + FirstSlash(s[1..])
  }

  /** The non-empty '/'-separated names of `s`, in order. */
  function Split(s: string): (names: seq<string>)
    ensures forall k :: 0 <= k < |names| ==> names[k] != "" && '/' !in names[k]
    decreases |s|
  {
    if s == [] then []
    else if s[0] == '/' then Split(s[1..])
    else
      var k := FirstSlash(s);
      [s[..k]] + Split(s[k..])
  }

  /** `names` joined with '/' between them: the inverse of `Split`. */
  function Join(names: seq<string>): string {
    if names == [] then ""
    else if |names| == 1 then names[0]
    else names[0] + "/" + Join(names[1..])
  }

  /** `File(path)`: the normalised form of the path text: absolute when it starts with '/', and its non-empty names. */
  function ParsePath(path: string): (f: File)
    ensures Normal(f)
    ensures f.absolute <==> path != [] && path[0] == '/'
    ensures f.names == [] <==> forall k :: 0 <= k < |path| ==> path[k] == '/'
  {
    SplitNothing(path);
    File(|path| > 0 && path[0] == '/', Split(path))
  }

  /** No name of `f` is empty or holds a '/'. */
  predicate Normal(f: File) {
    forall k :: 0 <= k < |f.names| ==> f.names[k] != "" && '/' !in f.names[k]
  }

  /** `getPath()` on a Unix file system: the names joined by '/', after a leading '/' when absolute. */
  function PathText(f: File): string {
    (if f.absolute then "/" else "") + Join(f.names)
  }

  /** `File(parent, child)`: the child's names under the parent; the empty path stands for "/". */
  function Child(parent: File, child: string): (f: File)
    ensures f.names == parent.names + Split(child)
    ensures f.absolute <==> parent.absolute || parent.names == []
  {
    if !parent.absolute && parent.names == [] then File(true, Split(child))
    else File(parent.absolute, parent.names + Split(child))
  }

  /** The resource folders of one project (`SketchwareProjectResources`). */
  datatype ProjectResources = ProjectResources(images: File, icons: File, fonts: File, sounds: File)

  datatype Destination = Destination(projectFile: File, projectDataFolder: File, projectResources: ProjectResources)
  {
    /** The six locations, in declaration order. */
    function Paths(): seq<File> {
      [projectFile, projectDataFolder,
       projectResources.images, projectResources.icons, projectResources.fonts, projectResources.sounds]
    }
  }

  /**
   * `fromFolder(folder, projectId)`: the project file under "mysc/list", the
   * data folder under "data", the four resource folders directly under the
   * root folder, each ending in the decimal id; all six sit under the root
   * folder (rooted at "/" when the root folder is the empty path).
   */
  function FromFolder(folder: File, projectId: Int32): (d: Destination)
    ensures var id := IntToString(projectId);
      && d.projectFile.names == folder.names + ["mysc", "list", id]
      && d.projectDataFolder.names == folder.names + ["data", id]
      && d.projectResources.images.names == folder.names + ["images", id]
      && d.projectResources.icons.names == folder.names + ["icons", id]
      && d.projectResources.fonts.names == folder.names + ["fonts", id]
      && d.projectResources.sounds.names == folder.names + ["sounds", id]
      && forall p <- d.Paths() :: p.absolute <==> folder.absolute || folder.names == []
  {
    var id := IntToString(projectId);
    SplitName(id);
    ProjectFileLayout(folder, "mysc/list/", "mysc/list", "mysc", "list", id);
    FolderLayout(folder, "data/", "data", id);
    FolderLayout(folder, "images/", "images", id);
    FolderLayout(folder, "icons/", "icons", id);
    FolderLayout(folder, "fonts/", "fonts", id);
    FolderLayout(folder, "sounds/", "sounds", id);
    Destination(
      Child(folder, "mysc/list/" + id),
      Child(folder, "data/" + id),
      ProjectResources(
        Child(folder, "images/" + id),
        Child(folder, "icons/" + id),
        Child(folder, "fonts/" + id),
        Child(folder, "sounds/" + id)))
  }

  /**
   * `from(sketchwarePath, projectId)`: the root path text is read as
   * `File(path)` reads it, then the same six locations are laid out; they are
   * absolute when the text starts with '/' or has no names at all.
   */
  function From(sketchwarePath: string, projectId: Int32): (d: Destination)
    ensures var root, id := Split(sketchwarePath), IntToString(projectId);
      && d.projectFile.names == root + ["mysc", "list", id]
      && d.projectDataFolder.names == root + ["data", id]
      && d.projectResources.images.names == root + ["images", id]
      && d.projectResources.icons.names == root + ["icons", id]
      && d.projectResources.fonts.names == root + ["fonts", id]
      && d.projectResources.sounds.names == root + ["sounds", id]
      && forall p <- d.Paths() :: p.absolute <==> root == [] || sketchwarePath[0] == '/'
  {
    FromFolder(ParsePath(sketchwarePath), projectId)
  }

  // ---------------------------------------------------------------------------
  // Path text

  lemma {:induction false} SplitName(w: string)
    requires w != [] && '/' !in w
    ensures Split(w) == [w]
  {
    FirstSlashAbsent(w);
    assert w[..|w|] == w;
    assert w[|w|..] == [];
  }

  /** Text splits into no names exactly when it is all slashes. */
  lemma {:induction false} SplitNothing(s: string)
    ensures Split(s) == [] <==> forall k :: 0 <= k < |s| ==> s[k] == '/'
    decreases |s|
  {
    if s != [] && s[0] == '/' {
      SplitNothing(s[1..]);
      assert forall k :: 0 <= k < |s| - 1 ==> s[1..][k] == s[k + 1];
    }
  }

  lemma {:induction false} FirstSlashAbsent(w: string)
    requires '/' !in w
    ensures FirstSlash(w) == |w|
  {
    if w != [] {
      FirstSlashAbsent(w[1..]);
    }
  }

  /** A '/' separates names: splitting "a/b" splits a and b apart. */
  lemma {:induction false} SplitSeparator(a: string, b: string)
    ensures Split(a + "/" + b) == Split(a) + Split(b)
    decreases |a|
  {
    var s := a + "/" + b;
    if a == [] {
      assert s[1..] == b;
    } else if a[0] == '/' {
      assert s[1..] == a[1..] + "/" + b;
      SplitSeparator(a[1..], b);
    } else {
      var k := FirstSlash(a);
      FirstSlashPrefix(a, "/" + b);
      assert s == a + ("/" + b);
      assert s[..k] == a[..k];
      if k == |a| {
        assert s[k..] == "/" + b;
        assert Split(s[k..]) == Split(b) by { assert s[k..][1..] == b; }
        assert a[k..] == [];
      } else {
        assert s[k..] == a[k..] + "/" + b;
        SplitSeparator(a[k..], b);
      }
    }
  }

  lemma {:induction false} FirstSlashPrefix(a: string, b: string)
    requires b != [] && b[0] == '/'
    ensures FirstSlash(a + b) == FirstSlash(a)
  {
    if a != [] {
      assert (a + b)[1..] == a[1..] + b;
      FirstSlashPrefix(a[1..], b);
    } else {
      assert a + b == b;
    }
  }

  /** Splitting the joined names gives the names back. */
  lemma {:induction false} SplitJoin(names: seq<string>)
    requires forall k :: 0 <= k < |names| ==> names[k] != "" && '/' !in names[k]
    ensures Split(Join(names)) == names
  {
    if names == [] {
    } else if |names| == 1 {
      SplitName(names[0]);
    } else {
      SplitSeparator(names[0], Join(names[1..]));
      SplitName(names[0]);
      SplitJoin(names[1..]);
    }
  }

  /** Reading back the text of a normalised path gives the same path. */
  lemma {:induction false} ParsePathText(f: File)
    requires Normal(f)
    ensures ParsePath(PathText(f)) == f
  {
    SplitJoin(f.names);
    var t := PathText(f);
    if f.absolute {
      assert t[1..] == Join(f.names);
    } else if f.names != [] {
      JoinStart(f.names);
      assert t == Join(f.names);
      assert f.names[0][0] in f.names[0];
    }
  }

  lemma {:induction false} JoinStart(names: seq<string>)
    requires names != [] && names[0] != ""
    ensures Join(names) != [] && Join(names)[0] == names[0][0]
  {
  }

  // ---------------------------------------------------------------------------
  // Layout of a destination

  /** A single name followed by '/' contributes exactly that name. */
  lemma SplitUnder(dir: string, rest: string)
    requires dir != "" && '/' !in dir
    ensures Split(dir + "/" + rest) == [dir] + Split(rest)
  {
    SplitSeparator(dir, rest);
    SplitName(dir);
  }

  lemma FolderLayout(folder: File, prefix: string, dir: string, id: string)
    requires dir != "" && '/' !in dir && prefix == dir + "/" && Split(id) == [id]
    ensures Child(folder, prefix + id).names == folder.names + [dir, id]
  {
    SplitUnder(dir, id);
  }

  lemma ProjectFileLayout(folder: File, prefix: string, path: string, outer: string, inner: string, id: string)
    requires outer != "" && '/' !in outer && inner != "" && '/' !in inner
    requires path == outer + "/" + inner && prefix == path + "/" && Split(id) == [id]
    ensures Child(folder, prefix + id).names == folder.names + [outer, inner, id]
  {
    SplitSeparator(path, id);
    SplitSeparator(outer, inner);
    SplitName(outer);
    SplitName(inner);
  }

  /** For one folder and id, the six locations are pairwise distinct and each ends in the decimal id. */
  lemma PathsDistinct(folder: File, projectId: Int32)
    ensures var ps := FromFolder(folder, projectId).Paths();
      && (forall i, j :: 0 <= i < j < 6 ==> ps[i] != ps[j])
      && (forall p <- ps :: |p.names| > 0 && p.names[|p.names| - 1] == IntToString(projectId))
  {
    var ps := FromFolder(folder, projectId).Paths();
    var n := |folder.names|;
    forall i, j | 0 <= i < j < 6 ensures ps[i] != ps[j] {
      assert ps[i].names[n] != ps[j].names[n] || ps[i].names[n + 1] != ps[j].names[n + 1];
    }
  }

  /** Two different project ids never share any of the six locations. */
  lemma IdsSeparateDestinations(folder: File, id1: Int32, id2: Int32)
    requires id1 != id2
    ensures var ps1, ps2 := FromFolder(folder, id1).Paths(), FromFolder(folder, id2).Paths();
      forall i, j :: 0 <= i < 6 && 0 <= j < 6 ==> ps1[i] != ps2[j]
  {
    PathsDistinct(folder, id1);
    PathsDistinct(folder, id2);
    IntToStringInjective(id1, id2);
    var ps1, ps2 := FromFolder(folder, id1).Paths(), FromFolder(folder, id2).Paths();
    forall i, j | 0 <= i < 6 && 0 <= j < 6 ensures ps1[i] != ps2[j] {
      assert ps1[i].names[|ps1[i].names| - 1] != ps2[j].names[|ps2[j].names| - 1];
    }
  }
}
