/**
 * The directory tree of the virtual file system (kernel/src/fs/vfs.rs): files by
 * id, each with a parent and children, looked up by names from the root and
 * named by walking back up.
 */
module FileTree {
  import opened Basics
  import opened Paths

  datatype Kind = VirtualFile | DeviceFile | Pipe | Directory

  datatype FileInfo = FileInfo(ty: Kind, name: Name, mounted: bool, parent: nat, children: seq<nat>)

  /** Files by id; ids are handed out in order. */
  datatype Tree = Tree(files: map<nat, FileInfo>, root: nat, nextId: nat)

  datatype Resolved = Vfs(id: nat) | Fs(mount: nat, relPath: string)

  // ----- shape

  ghost predicate LinksUp(t: Tree, id: nat)
    requires id in t.files
  {
    var f := t.files[id];
    && t.root <= id < t.nextId
    && f.parent in t.files
    && (id != t.root ==> f.parent < id && t.files[f.parent].ty == Directory)
    && (id != t.root && f.ty != Pipe ==> Proper(f.name) && id in t.files[f.parent].children)
    && (f.ty != Directory ==> f.children == [] && !f.mounted)
  }

  ghost predicate LinksDown(t: Tree, id: nat)
    requires id in t.files
  {
    var kids := t.files[id].children;
    && (forall k :: 0 <= k < |kids| ==> kids[k] in t.files && kids[k] != t.root && t.files[kids[k]].parent == id && t.files[kids[k]].ty != Pipe)
    && (forall k, l :: 0 <= k < l < |kids| ==> t.files[kids[k]].name != t.files[kids[l]].name)
  }

  /** A tree rooted at a directory, sibling names distinct, every file but a pipe listed by its parent. */
  ghost predicate TreeInv(t: Tree) {
    && t.root in t.files && t.files[t.root].ty == Directory && t.files[t.root].parent == t.root && t.files[t.root].name == "/"
    && (forall id {:trigger LinksUp(t, id)} :: id in t.files ==> LinksUp(t, id))
    && (forall id {:trigger LinksDown(t, id)} :: id in t.files ==> LinksDown(t, id))
  }

  // ----- lookup

  /** The first child with this name. */
  function ChildNamed(t: Tree, kids: seq<nat>, name: Name): Option<nat> {
    if kids == [] then None
    else if kids[0] in t.files && t.files[kids[0]].name == name then Some(kids[0])
    else ChildNamed(t, kids[1..], name)
  }

  /** Names followed from `id` down; a mount point hands the rest to the mounted file system. */
  function Resolve(t: Tree, id: nat, names: seq<Name>): Option<Resolved>
    decreases |names|
  {
    if id !in t.files then None
    else if t.files[id].mounted then Some(Fs(id, "/" + Join(names)))
    else if names == [] then Some(Vfs(id))
    else match ChildNamed(t, t.files[id].children, names[0])
         case None => None
         case Some(c) => Resolve(t, c, names[1..])
  }

  function Find(t: Tree, cwd: string, path: string): Option<Resolved> {
    Resolve(t, t.root, Names(Absolutize(cwd, path)))
  }

  /** The names on the way from the root to a file. */
  ghost function Chain(t: Tree, id: nat): seq<Name>
    requires TreeInv(t) && id in t.files
    decreases id
  {
    if id == t.root then [] else
      assert LinksUp(t, id);
      Chain(t, t.files[id].parent) + [t.files[id].name]
  }

  ghost predicate ClearAbove(t: Tree, id: nat)
    requires TreeInv(t) && id in t.files
    decreases id
  {
    id == t.root || (assert LinksUp(t, id); !t.files[t.files[id].parent].mounted && ClearAbove(t, t.files[id].parent))
  }

  /** No mount at the file or above it. */
  ghost predicate Clear(t: Tree, id: nat)
    requires TreeInv(t) && id in t.files
  {
    !t.files[id].mounted && ClearAbove(t, id)
  }

  /** The path rebuilt from a file's parents. */
  ghost function PathOf(t: Tree, id: nat): string
    requires TreeInv(t) && id in t.files
  {
    Normalize("/" + if id == t.root then "/" else Join(Chain(t, id)))
  }

  // ----- names are found again

  lemma {:induction false} ChildIsFirst(t: Tree, kids: seq<nat>, k: nat)
    requires k < |kids| && forall l :: 0 <= l < |kids| ==> kids[l] in t.files
    requires forall l :: 0 <= l < k ==> t.files[kids[l]].name != t.files[kids[k]].name
    ensures ChildNamed(t, kids, t.files[kids[k]].name) == Some(kids[k])
  {
    if k > 0 {
      ChildIsFirst(t, kids[1..], k - 1);
    }
  }

  lemma {:induction false} ChildFound(t: Tree, kids: seq<nat>, name: Name)
    ensures var c := ChildNamed(t, kids, name);
            && (c.Some? ==> c.value in kids && c.value in t.files && t.files[c.value].name == name)
            && (c.None? ==> forall k :: 0 <= k < |kids| && kids[k] in t.files ==> t.files[kids[k]].name != name)
  {
    if kids != [] {
      ChildFound(t, kids[1..], name);
    }
  }

  lemma ChildOfParent(t: Tree, id: nat)
    requires TreeInv(t) && id in t.files && id != t.root && t.files[id].ty != Pipe
    ensures t.files[id].parent in t.files && t.files[id].parent < id
    ensures ChildNamed(t, t.files[t.files[id].parent].children, t.files[id].name) == Some(id)
  {
    assert LinksUp(t, id);
    var p := t.files[id].parent;
    assert LinksDown(t, p);
    var kids := t.files[p].children;
    var k :| 0 <= k < |kids| && kids[k] == id;
    ChildIsFirst(t, kids, k);
  }

  lemma ParentFacts(t: Tree, id: nat)
    requires TreeInv(t) && id in t.files && id != t.root
    ensures var p := t.files[id].parent;
            && p in t.files && p < id && t.files[p].ty == Directory
            && Chain(t, id) == Chain(t, p) + [t.files[id].name]
            && (ClearAbove(t, id) <==> !t.files[p].mounted && ClearAbove(t, p))
  {
    assert LinksUp(t, id);
  }

  lemma RootFacts(t: Tree)
    requires TreeInv(t)
    ensures t.root in t.files && t.files[t.root].ty == Directory && Chain(t, t.root) == [] && ClearAbove(t, t.root)
  {
  }

  lemma ResolveEnd(t: Tree, id: nat)
    requires id in t.files
    ensures !t.files[id].mounted ==> Resolve(t, id, []) == Some(Vfs(id))
  {
  }

  lemma ResolveStep(t: Tree, id: nat, names: seq<Name>, c: nat)
    requires id in t.files && !t.files[id].mounted && names != [] && ChildNamed(t, t.files[id].children, names[0]) == Some(c)
    ensures Resolve(t, id, names) == Resolve(t, c, names[1..])
  {
  }

  /** Walking down the chain of a file reaches it and goes on from there. */
  lemma {:induction false} ResolveChain(t: Tree, id: nat, rest: seq<Name>)
    requires TreeInv(t) && id in t.files && t.files[id].ty != Pipe && ClearAbove(t, id)
    ensures Resolve(t, t.root, Chain(t, id) + rest) == Resolve(t, id, rest)
    decreases id
  {
    hide TreeInv, Chain, ClearAbove, Resolve, ChildNamed;
    RootFacts(t);
    if id == t.root {
      assert Chain(t, id) + rest == rest;
    } else {
      ParentFacts(t, id);
      ChildOfParent(t, id);
      var p, n := t.files[id].parent, t.files[id].name;
      assert Chain(t, id) + rest == Chain(t, p) + ([n] + rest);
      ResolveChain(t, p, [n] + rest);
      ResolveStep(t, p, [n] + rest, id);
      assert ([n] + rest)[1..] == rest;
    }
  }

  lemma NameProper(t: Tree, id: nat)
    requires TreeInv(t) && id in t.files && id != t.root && t.files[id].ty != Pipe
    ensures Proper(t.files[id].name)
  {
    assert LinksUp(t, id);
  }

  lemma {:induction false} ChainProper(t: Tree, id: nat)
    requires TreeInv(t) && id in t.files && t.files[id].ty != Pipe
    ensures forall i :: 0 <= i < |Chain(t, id)| ==> Proper(Chain(t, id)[i])
    decreases id
  {
    hide TreeInv, Chain, Proper;
    RootFacts(t);
    if id != t.root {
      ParentFacts(t, id);
      NameProper(t, id);
      ChainProper(t, t.files[id].parent);
    }
  }

  lemma ProperParts(names: seq<Name>)
    requires forall i :: 0 <= i < |names| ==> Proper(names[i])
    ensures Normal([] + names, true) && GoodParts(names)
  {
  }

  /** A path of proper names is its own normal form. */
  lemma ProperIsNormal(names: seq<Name>)
    requires forall i :: 0 <= i < |names| ==> Proper(names[i])
    ensures Normalize("/" + Join(names)) == "/" + Join(names) && Names("/" + Join(names)) == names
    ensures IsAbs("/" + Join(names))
  {
    hide Proper, Normal, Split, Join, Fold, GoodParts, Names, IsAbs;
    var j := Join(names);
    ProperParts(names);
    NamesOfJoin(names);
    FoldOfNormal([], names, true);
    assert [] + names == names;
    RootedNormal(j, names);
  }

  lemma RootedNormal(j: string, names: seq<Name>)
    requires j == Join(names) && Fold([], names, true) == names
    requires Split("/" + j) == [""] + if names == [] then [""] else names
    ensures IsAbs("/" + j) && Normalize("/" + j) == "/" + j
  {
    hide Split, Join, Fold;
    FoldEmpty(Split("/" + j), names, true);
  }

  lemma JoinNothing()
    ensures Join([]) == ""
  {
  }

  lemma RootPath()
    ensures Normalize("//") == "/"
  {
  }

  lemma PathOfShape(t: Tree, id: nat)
    requires TreeInv(t) && id in t.files && t.files[id].ty != Pipe
    ensures PathOf(t, id) == "/" + Join(Chain(t, id)) && Names(PathOf(t, id)) == Chain(t, id)
    ensures IsAbs(PathOf(t, id)) && Normalize(PathOf(t, id)) == PathOf(t, id)
  {
    hide TreeInv, Chain, Proper, Normalize, Names, Join;
    ChainProper(t, id);
    ProperIsNormal(Chain(t, id));
    if id == t.root {
      RootFacts(t);
      RootPath();
      JoinNothing();
      assert "/" + "/" == "//" && "/" + Join([]) == "/";
    }
  }

  /** Looking up the rebuilt path of a file gives the file back. */
  lemma LookupOfPath(t: Tree, cwd: string, id: nat)
    requires TreeInv(t) && id in t.files && t.files[id].ty != Pipe && Clear(t, id)
    ensures Find(t, cwd, PathOf(t, id)) == Some(Vfs(id))
  {
    hide PathOf, Chain, Names, TreeInv, Resolve, ClearAbove, IsAbs, Normalize, JoinPath;
    PathOfShape(t, id);
    ResolveEnd(t, id);
    ResolveChain(t, id, []);
    assert Chain(t, id) + [] == Chain(t, id);
  }

  lemma ChildFacts(t: Tree, at: nat, name: Name)
    requires TreeInv(t) && at in t.files && ChildNamed(t, t.files[at].children, name).Some?
    ensures var c := ChildNamed(t, t.files[at].children, name).value;
            c in t.files && c != t.root && t.files[c].name == name && t.files[c].parent == at && t.files[c].ty != Pipe
  {
    ChildFound(t, t.files[at].children, name);
    assert LinksDown(t, at);
  }

  /** Names that lead to a file are exactly its chain. */
  lemma {:induction false} ResolveIsChain(t: Tree, at: nat, names: seq<Name>, id: nat)
    requires TreeInv(t) && at in t.files && t.files[at].ty != Pipe && ClearAbove(t, at) && Resolve(t, at, names) == Some(Vfs(id))
    ensures id in t.files && t.files[id].ty != Pipe && Clear(t, id) && Chain(t, id) == Chain(t, at) + names
    decreases |names|
  {
    hide TreeInv, Chain, ClearAbove, ChildNamed, Resolve;
    ResolveCases(t, at, names, id);
    if names == [] {
      assert Chain(t, at) + names == Chain(t, at);
    } else {
      var c := ChildNamed(t, t.files[at].children, names[0]).value;
      ChildFacts(t, at, names[0]);
      ParentFacts(t, c);
      ResolveStep(t, at, names, c);
      ResolveIsChain(t, c, names[1..], id);
      assert Chain(t, at) + [names[0]] + names[1..] == Chain(t, at) + names;
    }
  }

  lemma ResolveCases(t: Tree, at: nat, names: seq<Name>, id: nat)
    requires at in t.files && Resolve(t, at, names) == Some(Vfs(id))
    ensures !t.files[at].mounted && if names == [] then id == at else ChildNamed(t, t.files[at].children, names[0]).Some?
  {
  }

  /** And the path rebuilt from what a lookup found is the path looked up, made absolute. */
  lemma PathOfLookup(t: Tree, cwd: string, path: string, id: nat)
    requires TreeInv(t) && IsAbs(cwd) && Find(t, cwd, path) == Some(Vfs(id))
    ensures id in t.files && t.files[id].ty != Pipe && Clear(t, id) && PathOf(t, id) == Absolutize(cwd, path)
  {
    var a := Absolutize(cwd, path);
    AbsolutizeMeans(cwd, path);
    hide TreeInv, Chain, Names, Absolutize, Resolve, PathOf, Join, Eval;
    RootFacts(t);
    ResolveIsChain(t, t.root, Names(a), id);
    assert [] + Names(a) == Names(a);
    PathOfShape(t, id);
    RootedForm(a);
  }

  lemma RootedForm(a: string)
    requires IsAbs(a) && Normalize(a) == a
    ensures a == "/" + Join(Names(a))
  {
    NormalizeShape(a);
  }
}
