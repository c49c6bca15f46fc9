/**
 * The tree operations of the virtual file system as they run
 * (kernel/src/fs/vfs.rs): lookup, adding files, mounting and rebuilding a
 * file's path.
 */
module VirtualFiles {
  import opened Basics
  import opened Paths
  import opened FileTree
  import opened FileTreeEdits

  datatype Error = NoSuchFileOrDirectory | NotDirectory | FileOrDirectoryAlreadyExists | InvalidFileName

  lemma {:induction false} JoinConcat(a: seq<Name>, b: seq<Name>)
    requires a != [] && b != []
    ensures Join(a + b) == Join(a) + "/" + Join(b)
  {
    if |a| == 1 {
      assert (a + b)[1..] == b;
    } else {
      assert (a + b)[1..] == a[1..] + b;
      JoinConcat(a[1..], b);
      assert a[0] + "/" + (Join(a[1..]) + "/" + Join(b)) == a[0] + "/" + Join(a[1..]) + "/" + Join(b);
    }
  }

  lemma ResolveAtMount(t: Tree, id: nat, names: seq<Name>)
    requires id in t.files && t.files[id].mounted
    ensures Resolve(t, id, names) == Some(Fs(id, "/" + Join(names)))
  {
  }

  lemma ResolveNoChild(t: Tree, id: nat, names: seq<Name>)
    requires id in t.files && !t.files[id].mounted && names != [] && ChildNamed(t, t.files[id].children, names[0]).None?
    ensures Resolve(t, id, names).None?
  {
  }

  /** Every name of a path is a non-empty part without a separator. */
  lemma {:induction false} NonEmptyGood(parts: seq<Name>)
    requires forall i :: 0 <= i < |parts| ==> Plain(parts[i])
    ensures GoodParts(NonEmpty(parts))
  {
    if parts != [] {
      NonEmptyGood(parts[1..]);
    }
  }

  lemma LastNameProper(path: string)
    requires Names(path) != []
    ensures Proper(NameOf(path)) <==> NameOf(path) != Here && NameOf(path) != Up
  {
    SplitPlain(path);
    NonEmptyGood(Split(path));
  }

  lemma NameCases(path: string)
    ensures Names(path) != [] ==> (Proper(NameOf(path)) <==> NameOf(path) != Here && NameOf(path) != Up)
    ensures Names(path) == [] ==> !Plain(NameOf(path)) && NameOf(path) != Here && NameOf(path) != Up
  {
    if Names(path) != [] {
      LastNameProper(path);
    } else {
      assert NameOf(path)[0] == '/';
    }
  }

  lemma LostEverywhere(t: Tree, ty: Kind, name: Name, parent: nat)
    requires TreeInv(t) && HasRoom(t, name, parent) && ty != Pipe && !Plain(name)
    ensures !TreeInv(Added(t, ty, name, parent))
    ensures forall dir: string, p: string :: Find(Added(t, ty, name, parent), dir, p) == Find(t, dir, p)
  {
    hide TreeInv, ChildNamed, Plain, Find, Added;
    SeparatorIsLost(t, ty, name, parent, "", "");
    forall dir: string, p: string
      ensures Find(Added(t, ty, name, parent), dir, p) == Find(t, dir, p)
    {
      SeparatorIsLost(t, ty, name, parent, dir, p);
    }
  }

  /** The name added under the parent is the name the path looks up. */
  lemma PathIsParentThenName(cwd: string, path: string)
    requires IsAbs(cwd) && Names(path) != [] && Proper(NameOf(path))
    ensures Names(Absolutize(cwd, path)) == Names(Absolutize(cwd, Parent(path))) + [NameOf(path)]
  {
    hide *;
    AbsolutizeMeans(cwd, path);
    AbsolutizeMeans(cwd, Parent(path));
    ParentThenName(path, Eval(cwd, []));
  }

  lemma AddedIsFound(t: Tree, cwd: string, path: string, ty: Kind, parent: nat)
    requires TreeInv(t) && IsAbs(cwd) && Names(path) != [] && ty != Pipe && CanAdd(t, NameOf(path), parent)
    requires Find(t, cwd, Parent(path)) == Some(Vfs(parent))
    ensures Find(Added(t, ty, NameOf(path), parent), cwd, path) == Some(Vfs(t.nextId))
  {
    RootFacts(t);
    PathIsParentThenName(cwd, path);
    var names, front := Names(Absolutize(cwd, path)), Names(Absolutize(cwd, Parent(path)));
    AddedResolves(t, ty, NameOf(path), parent, t.root, names);
    hide *;
    assert names[..|names| - 1] == front;
  }

  /** The path of a directory that is mounted on now leads to the root of what is mounted there. */
  lemma MountedIsFound(t: Tree, cwd: string, path: string, id: nat)
    requires TreeInv(t) && id in t.files && Find(t, cwd, path) == Some(Vfs(id))
    ensures Find(Mounted(t, id), cwd, path) == Some(Fs(id, "/"))
  {
    RootFacts(t);
    var names := Names(Absolutize(cwd, path));
    hide TreeInv, Names, Absolutize;
    assert names[..|names|] == names && names[|names|..] == [];
    MountedResolves(t, id, t.root, names, |names|);
    assert Join([]) == "" && "/" + "" == "/";
  }

  /** A path below a mount resolves only if the mounted file system has it; its root always does. */
  function Known(r: Option<Resolved>, has: (nat, string) -> bool): Option<Resolved> {
    if r.Some? && r.value.Fs? && r.value.relPath != "/" && !has(r.value.mount, r.value.relPath) then None else r
  }

  class VirtualFileSystem {
    var files: map<nat, FileInfo>
    var root: nat
    var nextId: nat
    var cwd: string

    ghost function T(): Tree
      reads this
    {
      Tree(files, root, nextId)
    }

    ghost predicate Valid()
      reads this
    {
      TreeInv(T()) && IsAbs(cwd)
    }

    /** The root directory alone. */
    constructor ()
      ensures Valid() && files == map[root := FileInfo(Directory, "/", false, root, [])] && cwd == "/"
    {
      root, nextId, cwd := 0, 1, "/";
      files := map[0 := FileInfo(Directory, "/", false, 0, [])];
      new;
      assert LinksUp(T(), 0) && LinksDown(T(), 0);
    }

    method FindChild(kids: seq<nat>, name: Name) returns (c: Option<nat>)
      requires forall k :: 0 <= k < |kids| ==> kids[k] in files
      ensures c == ChildNamed(T(), kids, name)
    {
      for k := 0 to |kids|
        invariant ChildNamed(T(), kids, name) == ChildNamed(T(), kids[k..], name)
      {
        if files[kids[k]].name == name {
          return Some(kids[k]);
        }
        assert kids[k..][1..] == kids[k + 1..];
      }
      return None;
    }

    /** Follows the names of the absolute form of a path down from the root; `has` is what mounted file systems know. */
    method FindFileByPath(path: string, has: (nat, string) -> bool) returns (r: Option<Resolved>)
      requires Valid()
      ensures r == Known(Find(T(), cwd, path), has)
      ensures r.Some? ==> r == Find(T(), cwd, path) && (r.value.Fs? ==> r.value.relPath == "/" || has(r.value.mount, r.value.relPath))
      ensures r.None? <==> match Find(T(), cwd, path)
                           case None => true
                           case Some(Vfs(_)) => false
                           case Some(Fs(mount, relPath)) => relPath != "/" && !has(mount, relPath)
    {
      var names := Names(Absolutize(cwd, path));
      var id := root;
      RootFacts(T());
      hide TreeInv, Resolve, ChildNamed, Names, Absolutize, Join;
      assert names[0..] == names;
      for i := 0 to |names|
        invariant id in files && Resolve(T(), root, names) == Resolve(T(), id, names[i..])
      {
        if files[id].mounted {
          ResolveAtMount(T(), id, names[i..]);
          return Known(Some(Fs(id, "/" + Join(names[i..]))), has);
        }
        KidsExist(T(), id);
        var c := FindChild(files[id].children, names[i]);
        if c.None? {
          ResolveNoChild(T(), id, names[i..]);
          return None;
        }
        ChildFacts(T(), id, names[i]);
        ResolveStep(T(), id, names[i..], c.value);
        assert names[i..][1..] == names[i + 1..];
        id := c.value;
      }
      assert names[|names|..] == [];
      if files[id].mounted {
        ResolveAtMount(T(), id, []);
        JoinNothing();
        assert "/" + "" == "/";
        return Some(Fs(id, "/"));
      }
      ResolveEnd(T(), id);
      return Some(Vfs(id));
    }

    /**
     * Adds a file under an existing directory; nothing but the new file and its
     * parent's list changes. A path without a name makes a file named after the
     * root, which is no longer a tree and which no path finds.
     */
    method AddFile(path: string, ty: Kind, has: (nat, string) -> bool) returns (r: Result<(), Error>)
      requires Valid() && ty != Pipe
      modifies this`files, this`nextId
      ensures Valid() <==> r.Err? || Names(path) != []
      ensures var t, name, at := old(T()), NameOf(path), Find(old(T()), cwd, Parent(path));
              if at.None? || at.value.Fs? then r == Err(NoSuchFileOrDirectory) && T() == t
              else
                var parent := at.value.id;
                && parent in t.files
                && (if t.files[parent].ty != Directory then r == Err(NotDirectory) && T() == t
                    else if ChildNamed(t, t.files[parent].children, name).Some? then r == Err(FileOrDirectoryAlreadyExists) && T() == t
                    else if name == Here || name == Up then r == Err(InvalidFileName) && T() == t.(nextId := t.nextId + 1)
                    else r == Ok(()) && T() == Added(t, ty, name, parent)
                         && if Names(path) != [] then Find(T(), cwd, path) == Some(Vfs(t.nextId))
                            else forall dir: string, p: string :: Find(T(), dir, p) == Find(t, dir, p))
    {
      hide TreeInv, Names, NameOf, Find, ChildNamed, Parent;
      ghost var t := T();
      var at := FindFileByPath(Parent(path), has);
      if at.None? || at.value.Fs? {
        return Err(NoSuchFileOrDirectory);
      }
      var parent := at.value.id;
      FoundExists(t, cwd, Parent(path), parent);
      if files[parent].ty != Directory {
        return Err(NotDirectory);
      }
      var name := NameOf(path);
      KidsExist(t, parent);
      var twin := FindChild(files[parent].children, name);
      if twin.Some? {
        return Err(FileOrDirectoryAlreadyExists);
      }
      var id := nextId;
      nextId := nextId + 1;
      NameCases(path);
      if name == Here || name == Up {
        SpendKeepsInv(t);
        return Err(InvalidFileName);
      }
      InsertAndLink(t, path, ty, name, parent, id);
      return Ok(());
    }

    /** The record first, then, after looking the parent up again, the link. */
    method InsertAndLink(ghost t: Tree, path: string, ty: Kind, name: Name, parent: nat, id: nat)
      requires TreeInv(t) && IsAbs(cwd) && T() == t.(nextId := t.nextId + 1) && id == t.nextId
      requires name == NameOf(path) && ty != Pipe && HasRoom(t, name, parent)
      requires if Names(path) != [] then Proper(name) else !Plain(name)
      requires Find(t, cwd, Parent(path)) == Some(Vfs(parent))
      modifies this`files
      ensures T() == Added(t, ty, name, parent) && (Valid() <==> Names(path) != [])
      ensures if Names(path) != [] then Find(T(), cwd, path) == Some(Vfs(t.nextId))
              else forall dir: string, p: string :: Find(T(), dir, p) == Find(t, dir, p)
    {
      files := files[id := NewFile(ty, name, parent)];
      RootFacts(t);
      InsertedSame(t, NewFile(ty, name, parent));
      assert T() == Inserted(t, NewFile(ty, name, parent));
      hide TreeInv, Names, NameOf, ChildNamed, SameTree, Resolve, Proper, Plain;
      ResolveSame(t, T(), root, Names(Absolutize(cwd, Parent(path))));
      assert Find(T(), cwd, Parent(path)) == Some(Vfs(parent));
      files := files[parent := files[parent].(children := files[parent].children + [id])];
      if Names(path) != [] {
        AddedKeepsInv(t, ty, name, parent);
        AddedIsFound(t, cwd, path, ty, parent);
      } else {
        LostEverywhere(t, ty, name, parent);
      }
    }

    method MountFs(path: string, has: (nat, string) -> bool) returns (r: Result<(), Error>)
      requires Valid()
      modifies this`files
      ensures Valid()
      ensures var t, at := old(T()), Find(old(T()), cwd, path);
              if at.None? || at.value.Fs? then r == Err(NoSuchFileOrDirectory) && T() == t
              else
                var id := at.value.id;
                && id in t.files
                && (if t.files[id].ty != Directory then r == Err(NotDirectory) && T() == t
                    else r == Ok(()) && T() == Mounted(t, id) && Find(T(), cwd, path) == Some(Fs(id, "/")))
    {
      var at := FindFileByPath(path, has);
      if at.None? || at.value.Fs? {
        return Err(NoSuchFileOrDirectory);
      }
      var id := at.value.id;
      FoundExists(T(), cwd, path, id);
      hide TreeInv, Find;
      if files[id].ty != Directory {
        return Err(NotDirectory);
      }
      MountedKeepsInv(T(), id);
      MountedIsFound(T(), cwd, path, id);
      files := files[id := files[id].(mounted := true)];
      return Ok(());
    }

    /** The path of a file, from its name and its parents' names. */
    method AbsPathByFile(id: nat) returns (path: string)
      requires Valid() && id in files
      ensures path == PathOf(T(), id)
    {
      var s := files[id].name;
      var parent := files[id].parent;
      ghost var names := [files[id].name];
      RootFacts(T());
      if id != root { ParentFacts(T(), id); } else { assert LinksUp(T(), id); }
      hide TreeInv, Chain, Join;
      JoinOne(s);
      while parent != root
        invariant parent in files && names != [] && s == Join(names)
        invariant id == root ==> parent == root && names == ["/"]
        invariant id != root ==> Chain(T(), id) == Chain(T(), parent) + names
        decreases parent
      {
        ParentFacts(T(), parent);
        JoinOne(files[parent].name);
        JoinConcat([files[parent].name], names);
        assert Chain(T(), files[parent].parent) + [files[parent].name] + names == Chain(T(), files[parent].parent) + ([files[parent].name] + names);
        s := files[parent].name + "/" + s;
        names := [files[parent].name] + names;
        parent := files[parent].parent;
      }
      assert id != root ==> Chain(T(), id) == names;
      return Normalize("/" + s);
    }
  }

  lemma JoinOne(n: Name)
    ensures Join([n]) == n
  {
  }

  lemma KidsExist(t: Tree, id: nat)
    requires TreeInv(t) && id in t.files
    ensures forall k :: 0 <= k < |t.files[id].children| ==> t.files[id].children[k] in t.files
  {
    assert LinksDown(t, id);
  }

  lemma FoundExists(t: Tree, cwd: string, path: string, id: nat)
    requires TreeInv(t) && Find(t, cwd, path) == Some(Vfs(id))
    ensures id in t.files && t.files[id].ty != Pipe && !t.files[id].mounted
  {
    RootFacts(t);
    ResolveIsChain(t, t.root, Names(Absolutize(cwd, path)), id);
  }
}
