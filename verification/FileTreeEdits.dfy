/**
 * Changes to the directory tree (kernel/src/fs/vfs.rs): adding a file, mounting,
 * and the records of pipes, which the tree never lists. Each keeps the tree
 * invariant, and each changes lookups exactly where it should.
 */
module FileTreeEdits {
  import opened Basics
  import opened Paths
  import opened FileTree

  function Inserted(t: Tree, f: FileInfo): Tree { t.(files := t.files[t.nextId := f], nextId := t.nextId + 1) }

  function NewFile(ty: Kind, name: Name, parent: nat): FileInfo { FileInfo(ty, name, false, parent, []) }

  function Linked(t: Tree, parent: nat, id: nat): Tree
    requires parent in t.files
  {
    t.(files := t.files[parent := t.files[parent].(children := t.files[parent].children + [id])])
  }

  /** A new file, listed last by its parent. */
  function Added(t: Tree, ty: Kind, name: Name, parent: nat): Tree
    requires parent in t.files
  {
    Linked(Inserted(t, NewFile(ty, name, parent)), parent, t.nextId)
  }

  function Mounted(t: Tree, id: nat): Tree
    requires id in t.files
  {
    t.(files := t.files[id := t.files[id].(mounted := true)])
  }

  function WithoutFile(t: Tree, id: nat): Tree { t.(files := t.files - {id}) }

  /** The parent is a directory without a child of that name. */
  ghost predicate HasRoom(t: Tree, name: Name, parent: nat) {
    parent in t.files && t.files[parent].ty == Directory && ChildNamed(t, t.files[parent].children, name).None?
  }

  ghost predicate CanAdd(t: Tree, name: Name, parent: nat) { HasRoom(t, name, parent) && Proper(name) }

  // ----- the invariant is kept

  lemma FreshId(t: Tree)
    requires TreeInv(t)
    ensures t.nextId !in t.files && t.root < t.nextId
  {
    assert t.nextId in t.files ==> LinksUp(t, t.nextId);
    assert LinksUp(t, t.root);
  }

  lemma AddedUp(t: Tree, ty: Kind, name: Name, parent: nat, id: nat)
    requires TreeInv(t) && CanAdd(t, name, parent) && ty != Pipe && id in Added(t, ty, name, parent).files
    ensures LinksUp(Added(t, ty, name, parent), id)
  {
    FreshId(t);
    assert id in t.files ==> LinksUp(t, id);
    assert LinksUp(t, parent);
    hide TreeInv, Proper, ChildNamed;
  }

  lemma AddedDown(t: Tree, ty: Kind, name: Name, parent: nat, id: nat)
    requires TreeInv(t) && CanAdd(t, name, parent) && ty != Pipe && id in Added(t, ty, name, parent).files
    ensures LinksDown(Added(t, ty, name, parent), id)
  {
    FreshId(t);
    if id != t.nextId {
      assert LinksDown(t, id);
      ChildFound(t, t.files[parent].children, name);
      hide TreeInv, Proper, ChildNamed;
      var t', kids := Added(t, ty, name, parent), t.files[id].children;
      forall k | 0 <= k < |kids|
        ensures kids[k] in t'.files && t'.files[kids[k]].name == t.files[kids[k]].name
        ensures t'.files[kids[k]].parent == id && t'.files[kids[k]].ty != Pipe && kids[k] != t.nextId
      {
      }
      assert t'.files[t.nextId] == NewFile(ty, name, parent);
      assert t'.files[id].children == if id == parent then kids + [t.nextId] else kids;
      hide Added;
    }
  }

  /** Adding a file under a directory keeps the tree a tree with distinct sibling names. */
  lemma AddedKeepsInv(t: Tree, ty: Kind, name: Name, parent: nat)
    requires TreeInv(t) && CanAdd(t, name, parent) && ty != Pipe
    ensures TreeInv(Added(t, ty, name, parent))
  {
    var t' := Added(t, ty, name, parent);
    FreshId(t);
    forall id | id in t'.files
      ensures LinksUp(t', id) && LinksDown(t', id)
    {
      AddedUp(t, ty, name, parent, id);
      AddedDown(t, ty, name, parent, id);
    }
    hide LinksUp, LinksDown;
  }

  lemma MountedKeepsInv(t: Tree, id: nat)
    requires TreeInv(t) && id in t.files && t.files[id].ty == Directory
    ensures TreeInv(Mounted(t, id))
  {
    var t' := Mounted(t, id);
    forall x | x in t'.files
      ensures LinksUp(t', x) && LinksDown(t', x)
    {
      assert LinksUp(t, x) && LinksDown(t, x);
    }
    hide LinksUp, LinksDown;
  }

  /** A pipe is recorded under the root but not listed by it. */
  lemma PipeKeepsInv(t: Tree, name: Name)
    requires TreeInv(t)
    ensures TreeInv(Inserted(t, NewFile(Pipe, name, t.root)))
  {
    var t' := Inserted(t, NewFile(Pipe, name, t.root));
    FreshId(t);
    forall x | x in t'.files
      ensures LinksUp(t', x) && LinksDown(t', x)
    {
      if x != t.nextId {
        assert LinksUp(t, x) && LinksDown(t, x);
      }
    }
    hide LinksUp, LinksDown;
  }

  /** Closing a pipe leaves the records that were there before it was opened. */
  lemma PipeClosedAgain(t: Tree, name: Name)
    requires TreeInv(t)
    ensures var t' := Inserted(t, NewFile(Pipe, name, t.root));
            t'.files.Keys == t.files.Keys + {t.nextId} && WithoutFile(t', t.nextId).files == t.files
  {
    FreshId(t);
    hide TreeInv;
  }

  /** The record goes, and all others stay as they were. */
  lemma PipeGoneKeepsInv(t: Tree, id: nat)
    requires TreeInv(t) && id in t.files && t.files[id].ty == Pipe
    ensures var t' := WithoutFile(t, id);
            TreeInv(t') && t'.files.Keys == t.files.Keys - {id} && forall x :: x in t'.files ==> t'.files[x] == t.files[x]
  {
    var t' := WithoutFile(t, id);
    forall x | x in t'.files
      ensures LinksUp(t', x) && LinksDown(t', x)
    {
      assert LinksUp(t, x) && LinksDown(t, x);
    }
    hide LinksUp, LinksDown;
  }

  // ----- lookups change only where they should

  lemma {:induction false} ChildSame(t: Tree, t': Tree, kids: seq<nat>, name: Name)
    requires forall k :: 0 <= k < |kids| ==> kids[k] in t.files && kids[k] in t'.files && t.files[kids[k]].name == t'.files[kids[k]].name
    ensures ChildNamed(t', kids, name) == ChildNamed(t, kids, name)
  {
    if kids != [] {
      ChildSame(t, t', kids[1..], name);
    }
  }

  lemma {:induction false} ChildAppended(t: Tree, kids: seq<nat>, id: nat, name: Name)
    requires id in t.files
    ensures ChildNamed(t, kids + [id], name) ==
            if ChildNamed(t, kids, name).Some? then ChildNamed(t, kids, name)
            else if t.files[id].name == name then Some(id) else None
  {
    if kids == [] {
      assert kids + [id] == [id] && [id][1..] == [];
    } else {
      assert (kids + [id])[1..] == kids[1..] + [id];
      ChildAppended(t, kids[1..], id, name);
    }
  }

  /** The two trees agree on what a lookup can see. */
  ghost predicate SameTree(t: Tree, t': Tree) {
    && t.root == t'.root
    && forall id :: id in t.files && t.files[id].ty != Pipe ==>
         && id in t'.files && t'.files[id].name == t.files[id].name && t'.files[id].mounted == t.files[id].mounted
         && t'.files[id].children == t.files[id].children
  }

  lemma SameChild(t: Tree, t': Tree, id: nat, name: Name)
    requires TreeInv(t) && SameTree(t, t') && id in t.files && t.files[id].ty != Pipe
    ensures ChildNamed(t', t.files[id].children, name) == ChildNamed(t, t.files[id].children, name)
  {
    assert LinksDown(t, id);
    ChildSame(t, t', t.files[id].children, name);
  }

  /** So pipes come and go, and unlinked records appear, without any lookup noticing. */
  lemma {:induction false} ResolveSame(t: Tree, t': Tree, id: nat, names: seq<Name>)
    requires TreeInv(t) && SameTree(t, t') && id in t.files && t.files[id].ty != Pipe
    ensures Resolve(t', id, names) == Resolve(t, id, names)
    decreases |names|
  {
    if !t.files[id].mounted && names != [] {
      SameChild(t, t', id, names[0]);
      if ChildNamed(t, t.files[id].children, names[0]).Some? {
        ChildFacts(t, id, names[0]);
        hide TreeInv, ChildNamed, SameTree;
        ResolveSame(t, t', ChildNamed(t, t.files[id].children, names[0]).value, names[1..]);
      }
    }
    hide TreeInv, ChildNamed;
  }

  lemma InsertedSame(t: Tree, f: FileInfo)
    requires TreeInv(t)
    ensures SameTree(t, Inserted(t, f))
  {
    FreshId(t);
  }

  /** The children of one directory before and after an addition. */
  lemma AddedChild(t: Tree, ty: Kind, name: Name, parent: nat, at: nat, n: Name)
    requires TreeInv(t) && HasRoom(t, name, parent) && ty != Pipe && at in t.files
    ensures var t' := Added(t, ty, name, parent);
            && at in t'.files && t'.files[at].mounted == t.files[at].mounted
            && ChildNamed(t', t'.files[at].children, n) ==
               if at == parent && n == name then Some(t.nextId) else ChildNamed(t, t.files[at].children, n)
  {
    var t', kids := Added(t, ty, name, parent), t.files[at].children;
    FreshId(t);
    assert LinksDown(t, at);
    ChildSame(t, t', kids, n);
    if at == parent {
      ChildAppended(t', kids, t.nextId, n);
    }
  }

  lemma NewResolves(t: Tree, ty: Kind, name: Name, parent: nat, rest: seq<Name>)
    requires TreeInv(t) && HasRoom(t, name, parent)
    ensures Resolve(Added(t, ty, name, parent), t.nextId, rest) == if rest == [] then Some(Vfs(t.nextId)) else None
  {
    FreshId(t);
  }

  /** After an addition, the new name leads to the new file and every other sequence of names leads where it did. */
  lemma {:induction false} AddedResolves(t: Tree, ty: Kind, name: Name, parent: nat, at: nat, names: seq<Name>)
    requires TreeInv(t) && HasRoom(t, name, parent) && ty != Pipe && at in t.files
    ensures Resolve(Added(t, ty, name, parent), at, names) ==
            if names != [] && names[|names| - 1] == name && Resolve(t, at, names[..|names| - 1]) == Some(Vfs(parent))
            then Some(Vfs(t.nextId)) else Resolve(t, at, names)
    decreases |names|
  {
    var t' := Added(t, ty, name, parent);
    FreshId(t);
    if names != [] {
      AddedChild(t, ty, name, parent, at, names[0]);
      NewResolves(t, ty, name, parent, names[1..]);
      var c := ChildNamed(t, t.files[at].children, names[0]);
      if c.Some? {
        ChildFacts(t, at, names[0]);
        AddedResolves(t, ty, name, parent, c.value, names[1..]);
      }
      hide TreeInv, ChildNamed, Added;
      if !t.files[at].mounted {
        AddedCases(t, t', name, parent, at, names, c);
      }
    }
  }

  /** A file whose name holds a separator is never found, and every path leads where it did. */
  lemma SeparatorIsLost(t: Tree, ty: Kind, name: Name, parent: nat, cwd: string, path: string)
    requires TreeInv(t) && HasRoom(t, name, parent) && ty != Pipe && !Plain(name)
    ensures Find(Added(t, ty, name, parent), cwd, path) == Find(t, cwd, path)
    ensures !TreeInv(Added(t, ty, name, parent))
  {
    var names := Names(Absolutize(cwd, path));
    PlainNames(Absolutize(cwd, path));
    RootListed(t);
    NotProper(t, ty, name, parent);
    hide TreeInv, Names, Absolutize, HasRoom, Plain;
    AddedResolves(t, ty, name, parent, t.root, names);
    assert Added(t, ty, name, parent).root == t.root;
  }

  lemma RootListed(t: Tree)
    requires TreeInv(t)
    ensures t.root in t.files
  {
  }

  lemma NotProper(t: Tree, ty: Kind, name: Name, parent: nat)
    requires TreeInv(t) && parent in t.files && ty != Pipe && !Plain(name)
    ensures !TreeInv(Added(t, ty, name, parent))
  {
    FreshId(t);
    assert !LinksUp(Added(t, ty, name, parent), t.nextId);
  }

  /** The names end in the new file's name, and what comes before leads to its parent. */
  ghost predicate LeadsToNew(t: Tree, name: Name, parent: nat, at: nat, names: seq<Name>) {
    names != [] && names[|names| - 1] == name && Resolve(t, at, names[..|names| - 1]) == Some(Vfs(parent))
  }

  lemma LeadsThrough(t: Tree, name: Name, parent: nat, at: nat, names: seq<Name>)
    requires names != [] && at in t.files && !t.files[at].mounted
    ensures var c := ChildNamed(t, t.files[at].children, names[0]);
            LeadsToNew(t, name, parent, at, names) <==>
            if |names| == 1 then names[0] == name && at == parent else c.Some? && LeadsToNew(t, name, parent, c.value, names[1..])
  {
    hide Resolve, ChildNamed;
    var front := names[..|names| - 1];
    if |names| == 1 {
      NothingToResolve(t, at, front);
    } else {
      assert front[0] == names[0] && front[1..] == names[1..][..|names| - 2];
      StepResolve(t, at, front);
    }
  }

  lemma AddedCases(t: Tree, t': Tree, name: Name, parent: nat, at: nat, names: seq<Name>, c: Option<nat>)
    requires names != [] && at in t.files && at in t'.files && !t.files[at].mounted && !t'.files[at].mounted
    requires parent in t.files && ChildNamed(t, t.files[parent].children, name).None?
    requires c == ChildNamed(t, t.files[at].children, names[0])
    requires ChildNamed(t', t'.files[at].children, names[0]) == if at == parent && names[0] == name then Some(t.nextId) else c
    requires Resolve(t', t.nextId, names[1..]) == if names[1..] == [] then Some(Vfs(t.nextId)) else None
    requires c.Some? ==>
      Resolve(t', c.value, names[1..]) ==
      if LeadsToNew(t, name, parent, c.value, names[1..]) then Some(Vfs(t.nextId)) else Resolve(t, c.value, names[1..])
    ensures Resolve(t', at, names) == if LeadsToNew(t, name, parent, at, names) then Some(Vfs(t.nextId)) else Resolve(t, at, names)
  {
    hide ChildNamed, Resolve, LeadsToNew;
    StepResolve(t, at, names);
    StepResolve(t', at, names);
    LeadsThrough(t, name, parent, at, names);
    NeverNothing(t, name, parent, names[1..]);
  }

  lemma NeverNothing(t: Tree, name: Name, parent: nat, names: seq<Name>)
    ensures names == [] ==> forall c :: !LeadsToNew(t, name, parent, c, names)
  {
  }

  lemma NothingToResolve(t: Tree, at: nat, names: seq<Name>)
    requires names == [] && at in t.files && !t.files[at].mounted
    ensures Resolve(t, at, names) == Some(Vfs(at))
  {
  }

  lemma StepResolve(t: Tree, at: nat, names: seq<Name>)
    requires names != [] && at in t.files && !t.files[at].mounted
    ensures var c := ChildNamed(t, t.files[at].children, names[0]);
            Resolve(t, at, names) == if c.None? then None else Resolve(t, c.value, names[1..])
  {
    hide Join, ChildNamed;
  }

  /** The record of an added file, and what becomes of the others: only the parent's list grows, by the new id at its end. */
  lemma AddedRecords(t: Tree, ty: Kind, name: Name, parent: nat, id: nat)
    requires TreeInv(t) && HasRoom(t, name, parent)
    ensures var t' := Added(t, ty, name, parent);
            && t'.root == t.root && t'.nextId == t.nextId + 1 && t'.files.Keys == t.files.Keys + {t.nextId}
            && (var f := t'.files[t.nextId]; f.ty == ty && f.name == name && f.parent == parent && !f.mounted && f.children == [])
            && (id in t.files ==>
                  var was, now := t.files[id], t'.files[id];
                  && now.ty == was.ty && now.name == was.name && now.parent == was.parent && now.mounted == was.mounted
                  && now.children == if id == parent then was.children + [t.nextId] else was.children)
  {
    FreshId(t);
    hide ChildNamed;
  }

  // ----- what a mount hides

  /** Names lead downwards, to files with higher ids. */
  lemma {:induction false} ResolveDescends(t: Tree, at: nat, names: seq<Name>, id: nat)
    requires TreeInv(t) && at in t.files && names != [] && Resolve(t, at, names) == Some(Vfs(id))
    ensures at < id
    decreases |names|
  {
    var c := ChildNamed(t, t.files[at].children, names[0]);
    ChildFacts(t, at, names[0]);
    ChildIsAbove(t, at, names[0]);
    if names[1..] != [] {
      ResolveDescends(t, c.value, names[1..], id);
    }
  }

  lemma ChildIsAbove(t: Tree, at: nat, name: Name)
    requires TreeInv(t) && at in t.files && ChildNamed(t, t.files[at].children, name).Some?
    ensures at < ChildNamed(t, t.files[at].children, name).value
  {
    var c := ChildNamed(t, t.files[at].children, name).value;
    ChildFound(t, t.files[at].children, name);
    assert LinksDown(t, at);
    assert LinksUp(t, c);
  }

  lemma MountedChild(t: Tree, id: nat, at: nat, name: Name)
    requires TreeInv(t) && id in t.files && at in t.files
    ensures var t' := Mounted(t, id);
            && at in t'.files && t'.files[at].mounted == (t.files[at].mounted || at == id)
            && ChildNamed(t', t'.files[at].children, name) == ChildNamed(t, t.files[at].children, name)
  {
    assert LinksDown(t, at);
    ChildSame(t, Mounted(t, id), t.files[at].children, name);
  }

  /** After a mount, what lies below the directory is looked up in the mounted file system, under the rest of the names. */
  lemma {:induction false} MountedResolves(t: Tree, id: nat, at: nat, names: seq<Name>, i: nat)
    requires TreeInv(t) && id in t.files && at in t.files && i <= |names| && Resolve(t, at, names[..i]) == Some(Vfs(id))
    ensures Resolve(Mounted(t, id), at, names) == Some(Fs(id, "/" + Join(names[i..])))
    decreases |names|
  {
    var t' := Mounted(t, id);
    if i == 0 {
      assert names[..0] == [] && names[0..] == names;
    } else {
      ResolveDescends(t, at, names[..i], id);
      var c := ChildNamed(t, t.files[at].children, names[0]);
      MountedChild(t, id, at, names[0]);
      ChildFacts(t, at, names[0]);
      assert names[..i][0] == names[0] && names[..i][1..] == names[1..][..i - 1];
      assert names[1..][i - 1..] == names[i..];
      hide TreeInv, ChildNamed, Mounted;
      StepResolve(t, at, names[..i]);
      StepResolve(t', at, names);
      MountedResolves(t, id, c.value, names[1..], i - 1);
    }
  }

  /** Lookups that do not pass through the directory lead where they did. */
  lemma {:induction false} UnmountedResolves(t: Tree, id: nat, at: nat, names: seq<Name>)
    requires TreeInv(t) && id in t.files && at in t.files
    requires forall i :: 0 <= i <= |names| ==> Resolve(t, at, names[..i]) != Some(Vfs(id))
    ensures Resolve(Mounted(t, id), at, names) == Resolve(t, at, names)
    decreases |names|
  {
    assert names[..0] == [];
    assert at == id ==> t.files[at].mounted by { assert Resolve(t, at, names[..0]) != Some(Vfs(id)); }
    if !t.files[at].mounted && names != [] {
      var c := ChildNamed(t, t.files[at].children, names[0]);
      MountedChild(t, id, at, names[0]);
      StepResolve(t, at, names);
      StepResolve(Mounted(t, id), at, names);
      if c.Some? {
        ChildFacts(t, at, names[0]);
        hide TreeInv, ChildNamed, Mounted;
        forall i | 0 <= i <= |names| - 1
          ensures Resolve(t, c.value, names[1..][..i]) != Some(Vfs(id))
        {
          assert names[..i + 1][0] == names[0] && names[..i + 1][1..] == names[1..][..i];
          StepResolve(t, at, names[..i + 1]);
        }
        UnmountedResolves(t, id, c.value, names[1..]);
      }
    }
  }

  // ----- runs

  datatype Edit = Add(ty: Kind, name: Name, parent: nat) | Mount(id: nat) | OpenPipe(name: Name) | ClosePipe(id: nat) | SpendId

  ghost predicate Enabled(t: Tree, e: Edit) {
    match e
    case Add(ty, name, parent) => CanAdd(t, name, parent) && ty != Pipe
    case Mount(id) => id in t.files && t.files[id].ty == Directory
    case OpenPipe(_) => true
    case ClosePipe(id) => id in t.files && t.files[id].ty == Pipe
    case SpendId => true
  }

  ghost function Apply(t: Tree, e: Edit): Tree
    requires Enabled(t, e)
  {
    match e
    case Add(ty, name, parent) => Added(t, ty, name, parent)
    case Mount(id) => Mounted(t, id)
    case OpenPipe(name) => Inserted(t, NewFile(Pipe, name, t.root))
    case ClosePipe(id) => WithoutFile(t, id)
    case SpendId => t.(nextId := t.nextId + 1)
  }

  lemma SpendKeepsInv(t: Tree)
    requires TreeInv(t)
    ensures TreeInv(t.(nextId := t.nextId + 1))
  {
    var t' := t.(nextId := t.nextId + 1);
    forall x | x in t'.files
      ensures LinksUp(t', x) && LinksDown(t', x)
    {
      assert LinksUp(t, x) && LinksDown(t, x);
    }
    hide LinksUp, LinksDown;
  }

  lemma ApplyKeepsInv(t: Tree, e: Edit)
    requires TreeInv(t) && Enabled(t, e)
    ensures TreeInv(Apply(t, e))
  {
    hide TreeInv, CanAdd;
    match e
    case Add(ty, name, parent) => AddedKeepsInv(t, ty, name, parent);
    case Mount(id) => MountedKeepsInv(t, id);
    case OpenPipe(name) => PipeKeepsInv(t, name);
    case ClosePipe(id) => PipeGoneKeepsInv(t, id);
    case SpendId => SpendKeepsInv(t);
  }

  ghost predicate Run(ts: seq<Tree>, es: seq<Edit>) {
    && |ts| == |es| + 1 && TreeInv(ts[0])
    && forall i :: 0 <= i < |es| ==> Enabled(ts[i], es[i]) && ts[i + 1] == Apply(ts[i], es[i])
  }

  /** In every reachable tree, lookup and path reconstruction are inverse. */
  lemma {:induction false} EveryRunInverse(ts: seq<Tree>, es: seq<Edit>, n: nat)
    requires Run(ts, es) && n <= |es|
    ensures TreeInv(ts[n])
    ensures forall id, cwd :: id in ts[n].files && ts[n].files[id].ty != Pipe && Clear(ts[n], id) ==>
              Find(ts[n], cwd, PathOf(ts[n], id)) == Some(Vfs(id))
  {
    if n > 0 {
      EveryRunInverse(ts, es, n - 1);
      hide TreeInv, Enabled, Apply;
      ApplyKeepsInv(ts[n - 1], es[n - 1]);
    }
    hide TreeInv, Find, PathOf, Clear;
    forall id, cwd | id in ts[n].files && ts[n].files[id].ty != Pipe && Clear(ts[n], id)
      ensures Find(ts[n], cwd, PathOf(ts[n], id)) == Some(Vfs(id))
    {
      LookupOfPath(ts[n], cwd, id);
    }
  }
}
