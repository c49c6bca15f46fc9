/**
 * Paths (kernel/src/fs/path.rs) and what they mean: a path is a walk over
 * stacks of directory names, outermost first.
 */
module Paths {
  type Name = string

  const Here: Name := "."
  const Up: Name := ".."

  /** The parts between separators; n separators give n + 1 parts. */
  function Split(s: string): (r: seq<Name>)
    ensures |r| >= 1
  {
    if s == "" then [""]
    else if s[0] == '/' then [""] + Split(s[1..])
    else var rest := Split(s[1..]); [[s[0]] + rest[0]] + rest[1..]
  }

  function Join(parts: seq<Name>): string {
    if parts == [] then "" else if |parts| == 1 then parts[0] else parts[0] + "/" + Join(parts[1..])
  }

  function NonEmpty(parts: seq<Name>): seq<Name> {
    if parts == [] then [] else (if parts[0] == "" then [] else [parts[0]]) + NonEmpty(parts[1..])
  }

  function Names(s: string): seq<Name> { NonEmpty(Split(s)) }

  predicate IsAbs(s: string) { s != "" && s[0] == '/' }

  /** One step of the normalising fold. */
  function Push(acc: seq<Name>, part: Name, abs: bool): seq<Name> {
    if part == "" || part == Here then acc
    else if part == Up then
      if acc != [] && acc[|acc| - 1] != Up then acc[..|acc| - 1]
      else if abs then acc
      else acc + [part]
    else acc + [part]
  }

  function Fold(acc: seq<Name>, parts: seq<Name>, abs: bool): seq<Name>
    decreases parts
  {
    if parts == [] then acc else Fold(Push(acc, parts[0], abs), parts[1..], abs)
  }

  function Parts(s: string): seq<Name> { Fold([], Split(s), IsAbs(s)) }

  function Normalize(s: string): string { if IsAbs(s) then "/" + Join(Parts(s)) else Join(Parts(s)) }

  /** The last name, or the root's name when there is none. */
  function NameOf(s: string): Name { if Names(s) == [] then "/" else Names(s)[|Names(s)| - 1] }

  function JoinPath(s: string, name: string): string {
    Normalize((if s != "" && s[|s| - 1] == '/' then s else s + "/") + name)
  }

  function Parent(s: string): string {
    var n := Normalize(s);
    if n == "/" then n
    else
      var parts := Names(n);
      var rest := if parts == [] then [] else parts[..|parts| - 1];
      if IsAbs(s) then "/" + Join(rest) else if Join(rest) == "" then Here else Join(rest)
  }

  function Absolutize(cwd: string, s: string): string { if IsAbs(s) then Normalize(s) else JoinPath(cwd, s) }

  // ----- meaning

  function Step(dir: seq<Name>, part: Name): seq<Name> {
    if part == "" || part == Here then dir
    else if part == Up then (if dir == [] then [] else dir[..|dir| - 1])
    else dir + [part]
  }

  function Walk(dir: seq<Name>, parts: seq<Name>): seq<Name>
    decreases parts
  {
    if parts == [] then dir else Walk(Step(dir, parts[0]), parts[1..])
  }

  /** The directory a path leads to from `dir`; the root is the empty stack. */
  function Eval(s: string, dir: seq<Name>): seq<Name> { Walk(if IsAbs(s) then [] else dir, Split(s)) }

  // ----- splitting and joining

  /** A part as splitting yields it: it holds no separator. */
  predicate Plain(n: Name) { '/' !in n }

  /** A name a file may have. */
  predicate Proper(n: Name) { n != "" && n != Here && n != Up && Plain(n) }

  lemma {:induction false} SplitPlain(s: string)
    ensures forall i :: 0 <= i < |Split(s)| ==> Plain(Split(s)[i])
  {
    if s != "" { SplitPlain(s[1..]); }
  }

  lemma PlainNames(s: string)
    ensures forall i :: 0 <= i < |Names(s)| ==> Plain(Names(s)[i])
  {
    SplitPlain(s);
    hide Plain, Split;
    NonEmptyKeeps(Split(s));
  }

  lemma {:induction false} NonEmptyKeeps(parts: seq<Name>)
    requires forall i :: 0 <= i < |parts| ==> Plain(parts[i])
    ensures forall i :: 0 <= i < |NonEmpty(parts)| ==> Plain(NonEmpty(parts)[i])
  {
    hide Plain;
    if parts != [] {
      NonEmptyKeeps(parts[1..]);
    }
  }

  /** Splitting a path with a separator in it splits each side. */
  lemma {:induction false} SplitConcat(a: string, b: string)
    ensures Split(a + "/" + b) == Split(a) + Split(b)
  {
    var s := a + "/" + b;
    if a == "" {
      assert s[1..] == b;
    } else {
      assert s[1..] == a[1..] + "/" + b;
      SplitConcat(a[1..], b);
    }
  }

  lemma {:induction false} SplitOne(n: Name)
    requires Plain(n)
    ensures Split(n) == [n]
  {
    if n != "" {
      assert Plain(n[1..]);
      SplitOne(n[1..]);
      assert [n[0]] + n[1..] == n;
    }
  }

  /** Joining plain parts and splitting again gives them back. */
  lemma {:induction false} SplitJoin(parts: seq<Name>)
    requires parts != [] && forall i :: 0 <= i < |parts| ==> Plain(parts[i])
    ensures Split(Join(parts)) == parts
  {
    SplitOne(parts[0]);
    if |parts| > 1 {
      SplitJoin(parts[1..]);
      SplitConcat(parts[0], Join(parts[1..]));
      assert [parts[0]] + parts[1..] == parts;
    } else {
      assert parts == [parts[0]];
    }
  }

  lemma {:induction false} NonEmptyAll(parts: seq<Name>)
    requires forall i :: 0 <= i < |parts| ==> parts[i] != ""
    ensures NonEmpty(parts) == parts
  {
    if parts != [] {
      NonEmptyAll(parts[1..]);
      assert [parts[0]] + parts[1..] == parts;
    }
  }

  lemma SplitSlash(s: string)
    ensures Split("/" + s) == [""] + Split(s)
  {
  }

  predicate GoodParts(parts: seq<Name>) { forall i :: 0 <= i < |parts| ==> Plain(parts[i]) && parts[i] != "" }

  /** The names of a joined path are the parts it was joined from, rooted or not. */
  lemma NamesOfJoin(parts: seq<Name>)
    requires GoodParts(parts)
    ensures Names(Join(parts)) == parts && Names("/" + Join(parts)) == parts
    ensures !IsAbs(Join(parts)) && (Join(parts) == "" <==> parts == [])
    ensures Split("/" + Join(parts)) == [""] + (if parts == [] then [""] else parts)
    ensures Split(Join(parts)) == if parts == [] then [""] else parts
  {
    SplitSlash(Join(parts));
    if parts != [] {
      SplitJoin(parts);
      NonEmptyAll(parts);
      assert NonEmpty([""] + parts) == NonEmpty(parts) by { assert ([""] + parts)[1..] == parts; }
      assert Plain(parts[0]) && parts[0][0] in parts[0];
      assert Join(parts)[0] == parts[0][0];
    } else {
      assert [""][1..] == [] && ["", ""][1..] == [""];
      assert [""] + [""] == ["", ""];
    }
  }

  // ----- normal form

  /** Leading up-steps, only in a relative path, then proper names. */
  predicate Normal(parts: seq<Name>, abs: bool) {
    && (forall i :: 0 <= i < |parts| ==> parts[i] == Up || Proper(parts[i]))
    && (abs ==> forall i :: 0 <= i < |parts| ==> parts[i] != Up)
    && (forall i :: 0 < i < |parts| && parts[i] == Up ==> parts[i - 1] == Up)
  }

  lemma PushNormal(acc: seq<Name>, part: Name, abs: bool)
    requires Normal(acc, abs) && Plain(part)
    ensures Normal(Push(acc, part, abs), abs)
  {
  }

  lemma {:induction false} FoldNormal(acc: seq<Name>, parts: seq<Name>, abs: bool)
    requires Normal(acc, abs) && forall i :: 0 <= i < |parts| ==> Plain(parts[i])
    ensures Normal(Fold(acc, parts, abs), abs)
    decreases parts
  {
    if parts != [] {
      PushNormal(acc, parts[0], abs);
      hide Normal, Push;
      FoldNormal(Push(acc, parts[0], abs), parts[1..], abs);
    }
  }

  lemma PartsNormal(s: string)
    ensures Normal(Parts(s), IsAbs(s)) && GoodParts(Parts(s))
  {
    SplitPlain(s);
    assert Normal([], IsAbs(s));
    FoldNormal([], Split(s), IsAbs(s));
  }

  /** Folding a normal form changes nothing. */
  lemma {:induction false} FoldOfNormal(done: seq<Name>, rest: seq<Name>, abs: bool)
    requires Normal(done + rest, abs)
    ensures Fold(done, rest, abs) == done + rest
    decreases rest
  {
    if rest == [] {
      assert done + rest == done;
    } else {
      var all := done + rest;
      assert all[|done|] == rest[0];
      assert rest[0] == Up && done != [] ==> all[|done| - 1] == Up;
      assert Push(done, rest[0], abs) == done + [rest[0]];
      assert done + [rest[0]] + rest[1..] == all;
      FoldOfNormal(done + [rest[0]], rest[1..], abs);
    }
  }

  /** The names of a normalised path are its folded parts, and it stays absolute or relative. */
  lemma NormalizeShape(s: string)
    ensures Names(Normalize(s)) == Parts(s) && IsAbs(Normalize(s)) == IsAbs(s) && Parts(Normalize(s)) == Parts(s)
    ensures Normal(Names(Normalize(s)), IsAbs(s))
  {
    var p, abs := Parts(s), IsAbs(s);
    PartsNormal(s);
    NamesOfJoin(p);
    FoldOfNormal([], p, abs);
    assert [] + p == p;
    var split := Split(Normalize(s));
    hide Split, Names, Join, Normal;
    FoldEmpty(split, p, abs);
  }

  lemma FoldEmpty(split: seq<Name>, p: seq<Name>, abs: bool)
    requires Fold([], p, abs) == p
    requires split == (if abs then [""] else []) + (if p == [] then [""] else p)
    ensures Fold([], split, abs) == p
  {
    var tail := if p == [] then [""] else p;
    if abs {
      assert split[1..] == tail;
      assert Fold([], split, abs) == Fold([], tail, abs);
    } else {
      assert split == tail;
    }
    if p == [] {
      assert [""][1..] == [];
    }
  }

  lemma NormalizeIdempotent(s: string)
    ensures Normalize(Normalize(s)) == Normalize(s)
  {
    NormalizeShape(s);
    hide Parts, Join;
  }

  // ----- normalising keeps the meaning

  lemma {:induction false} WalkConcat(dir: seq<Name>, a: seq<Name>, b: seq<Name>)
    ensures Walk(dir, a + b) == Walk(Walk(dir, a), b)
    decreases a
  {
    if a == [] {
      assert a + b == b;
    } else {
      assert (a + b)[1..] == a[1..] + b;
      WalkConcat(Step(dir, a[0]), a[1..], b);
    }
  }

  lemma WalkLast(dir: seq<Name>, a: seq<Name>, n: Name)
    ensures Walk(dir, a + [n]) == Step(Walk(dir, a), n)
  {
    WalkConcat(dir, a, [n]);
    assert [n][1..] == [];
  }

  lemma {:induction false} WalkProper(dir: seq<Name>, parts: seq<Name>)
    requires forall i :: 0 <= i < |parts| ==> Proper(parts[i])
    ensures Walk(dir, parts) == dir + parts
    decreases parts
  {
    if parts != [] {
      WalkProper(dir + [parts[0]], parts[1..]);
      assert dir + [parts[0]] + parts[1..] == dir + parts;
    }
  }

  /** A folding step keeps the meaning of what has been folded; from the root that includes dropping an up-step. */
  lemma PushMeans(dir: seq<Name>, acc: seq<Name>, part: Name, abs: bool)
    requires Normal(acc, abs) && (abs ==> dir == [])
    ensures Walk(dir, Push(acc, part, abs)) == Step(Walk(dir, acc), part)
  {
    WalkLast(dir, acc, part);
    if part == Up && acc != [] && acc[|acc| - 1] != Up {
      var front, last := acc[..|acc| - 1], acc[|acc| - 1];
      assert acc == front + [last];
      WalkLast(dir, front, last);
    } else if part == Up && abs {
      assert acc == [];
    }
  }

  lemma {:induction false} FoldMeans(dir: seq<Name>, acc: seq<Name>, parts: seq<Name>, abs: bool)
    requires Normal(acc, abs) && (abs ==> dir == []) && forall i :: 0 <= i < |parts| ==> Plain(parts[i])
    ensures Walk(dir, Fold(acc, parts, abs)) == Walk(Walk(dir, acc), parts)
    decreases parts
  {
    if parts != [] {
      PushMeans(dir, acc, parts[0], abs);
      PushNormal(acc, parts[0], abs);
      hide Normal, Push, Step;
      FoldMeans(dir, Push(acc, parts[0], abs), parts[1..], abs);
    }
  }

  lemma {:induction false} WalkNames(dir: seq<Name>, parts: seq<Name>)
    ensures Walk(dir, NonEmpty(parts)) == Walk(dir, parts)
    decreases parts
  {
    if parts != [] {
      WalkNames(Step(dir, parts[0]), parts[1..]);
      if parts[0] != "" {
        assert NonEmpty(parts)[1..] == NonEmpty(parts[1..]);
      } else {
        assert NonEmpty(parts) == NonEmpty(parts[1..]);
      }
    }
  }

  /** A path and its normal form lead to the same directory from everywhere. */
  lemma NormalizeMeans(s: string, dir: seq<Name>)
    ensures Eval(Normalize(s), dir) == Eval(s, dir)
    ensures IsAbs(s) ==> Eval(s, dir) == Parts(s)
  {
    var start := if IsAbs(s) then [] else dir;
    SplitPlain(s);
    FoldMeans(start, [], Split(s), IsAbs(s));
    assert Walk(start, Parts(s)) == Walk(start, Split(s));
    NormalizeShape(s);
    WalkNames(start, Split(Normalize(s)));
    assert Walk(start, Split(Normalize(s))) == Walk(start, Parts(s));
    if IsAbs(s) {
      PartsNormal(s);
      WalkProper([], Parts(s));
      assert [] + Parts(s) == Parts(s);
    }
  }

  /** Making a path absolute gives the directory reached by walking it from the working directory. */
  lemma AbsolutizeMeans(cwd: string, s: string)
    requires IsAbs(cwd)
    ensures IsAbs(Absolutize(cwd, s))
    ensures Names(Absolutize(cwd, s)) == Eval(s, Eval(cwd, []))
    ensures forall dir :: Eval(Absolutize(cwd, s), dir) == Eval(s, Eval(cwd, []))
    ensures Normalize(Absolutize(cwd, s)) == Absolutize(cwd, s)
  {
    var raw := if IsAbs(s) then s else (if cwd[|cwd| - 1] == '/' then cwd else cwd + "/") + s;
    assert Absolutize(cwd, s) == Normalize(raw) && IsAbs(raw);
    NormalizeIdempotent(raw);
    NormalizeShape(raw);
    RawMeans(cwd, s, raw);
    hide Normalize, Split, Parts, Names;
    forall dir
      ensures Eval(Normalize(raw), dir) == Eval(s, Eval(cwd, [])) && Parts(raw) == Eval(s, Eval(cwd, []))
    {
      NormalizeMeans(raw, dir);
      AbsIgnores(raw, dir);
    }
    NormalizeMeans(raw, []);
  }

  lemma AbsIgnores(s: string, dir: seq<Name>)
    requires IsAbs(s)
    ensures Eval(s, dir) == Eval(s, [])
  {
  }

  lemma RawMeans(cwd: string, s: string, raw: string)
    requires IsAbs(cwd) && raw == if IsAbs(s) then s else (if cwd[|cwd| - 1] == '/' then cwd else cwd + "/") + s
    ensures Eval(raw, []) == Eval(s, Eval(cwd, []))
  {
    if !IsAbs(s) {
      var front := if cwd[|cwd| - 1] == '/' then cwd[..|cwd| - 1] else cwd;
      assert raw == front + "/" + s;
      SplitConcat(front, s);
      WalkConcat([], Split(front), Split(s));
      assert Walk([], Split(cwd)) == Walk([], Split(front)) by {
        if cwd[|cwd| - 1] == '/' {
          assert cwd == front + "/" + "";
          SplitConcat(front, "");
          WalkLast([], Split(front), "");
        }
      }
    }
  }

  // ----- the parent of a path

  function Pop(dir: seq<Name>): seq<Name> { if dir == [] then [] else dir[..|dir| - 1] }

  lemma StepProper(dir: seq<Name>, n: Name)
    requires Proper(n)
    ensures Step(dir, n) == dir + [n] && Pop(dir + [n]) == dir
  {
  }

  lemma EvalOfParts(s: string, dir: seq<Name>)
    ensures Eval(s, dir) == Walk(if IsAbs(s) then [] else dir, Parts(s))
  {
    NormalizeShape(s);
    NormalizeMeans(s, dir);
    WalkNames(if IsAbs(s) then [] else dir, Split(Normalize(s)));
  }

  /** The parent drops the last part of the normal form. */
  lemma ParentOfParts(s: string, dir: seq<Name>)
    requires Parts(s) != []
    ensures var p, start := Parts(s), if IsAbs(s) then [] else dir;
            && Eval(Parent(s), dir) == Walk(start, p[..|p| - 1]) && IsAbs(Parent(s)) == IsAbs(s)
            && Eval(s, dir) == Step(Walk(start, p[..|p| - 1]), p[|p| - 1])
            && (p[|p| - 1] == Up || Proper(p[|p| - 1])) && (IsAbs(s) ==> Proper(p[|p| - 1]))
  {
    var p, start := Parts(s), if IsAbs(s) then [] else dir;
    var rest := p[..|p| - 1];
    EvalOfParts(s, dir);
    assert p == rest + [p[|p| - 1]];
    WalkLast(start, rest, p[|p| - 1]);
    PartsNormal(s);
    hide Normalize, Split, Join, Parent, Eval, Parts, Walk, Step;
    assert Names(Normalize(s)) == Parts(s) by { NormalizeShape(s); }
    hide Names;
    ParentEval(s, rest, dir, start);
  }

  /** When a path's own last name is proper, its parent followed by that name is the path. */
  lemma ParentThenName(s: string, dir: seq<Name>)
    requires Names(s) != [] && Proper(NameOf(s))
    ensures Eval(Parent(s), dir) + [NameOf(s)] == Eval(s, dir)
    ensures IsAbs(Parent(s)) == IsAbs(s)
  {
    hide *;
    LastPart(s);
    ParentOfParts(s, dir);
    var p := Parts(s);
    StepProper(Walk(if IsAbs(s) then [] else dir, p[..|p| - 1]), p[|p| - 1]);
  }

  lemma ParentEval(s: string, rest: seq<Name>, dir: seq<Name>, start: seq<Name>)
    requires Names(Normalize(s)) == Parts(s) && Parts(s) != [] && rest == Parts(s)[..|Parts(s)| - 1] && GoodParts(Parts(s))
    requires start == if IsAbs(s) then [] else dir
    ensures Eval(Parent(s), dir) == Walk(start, rest) && IsAbs(Parent(s)) == IsAbs(s)
  {
    hide Split, Join, Normalize, Parts, NonEmpty, Walk;
    NamesOfJoin(rest);
    NormalRoot();
    var p := Parent(s);
    assert p == if IsAbs(s) then "/" + Join(rest) else if Join(rest) == "" then Here else Join(rest);
    WalkNames(start, Split(p));
    if !IsAbs(s) && rest == [] {
      SplitOne(Here);
      WalkHere(start);
      NoWalk(start, rest);
    }
  }

  lemma WalkHere(dir: seq<Name>)
    ensures Walk(dir, [Here]) == dir
  {
    assert [Here][1..] == [];
  }

  lemma NoWalk(dir: seq<Name>, parts: seq<Name>)
    requires parts == []
    ensures Walk(dir, parts) == dir
  {
  }

  lemma NormalRoot()
    ensures Names("/") == [] && Parts("/") == []
  {
  }

  lemma NoNames()
    ensures Names("") == []
  {
  }

  lemma {:induction false} FoldLast(acc: seq<Name>, parts: seq<Name>, abs: bool)
    requires NonEmpty(parts) != [] && Proper(NonEmpty(parts)[|NonEmpty(parts)| - 1])
    ensures Fold(acc, parts, abs) != [] && Fold(acc, parts, abs)[|Fold(acc, parts, abs)| - 1] == NonEmpty(parts)[|NonEmpty(parts)| - 1]
    decreases parts
  {
    var more := NonEmpty(parts[1..]);
    if more != [] {
      FoldLast(Push(acc, parts[0], abs), parts[1..], abs);
    } else {
      FoldNothing(Push(acc, parts[0], abs), parts[1..], abs);
    }
  }

  lemma {:induction false} FoldNothing(acc: seq<Name>, parts: seq<Name>, abs: bool)
    requires NonEmpty(parts) == []
    ensures Fold(acc, parts, abs) == acc
  {
    if parts != [] {
      FoldNothing(acc, parts[1..], abs);
    }
  }

  lemma LastPart(s: string)
    requires Names(s) != [] && Proper(NameOf(s))
    ensures Parts(s) != [] && Parts(s)[|Parts(s)| - 1] == NameOf(s)
  {
    FoldLast([], Split(s), IsAbs(s));
  }

  lemma ParentOfNothing(s: string, dir: seq<Name>)
    requires Parts(s) == []
    ensures Eval(Parent(s), dir) == if IsAbs(s) then [] else dir
  {
    hide Split, Parts, NonEmpty, Walk;
    NormalRoot();
    NoNames();
    assert Join([]) == "" && "/" + "" == "/";
    hide Join;
    if IsAbs(s) {
      assert Parent(s) == "/";
      WalkNames([], Split("/"));
      NoWalk([], Names("/"));
    } else {
      assert Parent(s) == Here;
      SplitOne(Here);
      WalkHere(dir);
    }
  }

  lemma {:induction false} WalkUps(dir: seq<Name>, parts: seq<Name>)
    requires (forall i :: 0 <= i < |parts| ==> parts[i] == Up) && |parts| <= |dir|
    ensures Walk(dir, parts) == dir[..|dir| - |parts|]
    decreases parts
  {
    if parts != [] {
      WalkUps(dir[..|dir| - 1], parts[1..]);
    }
  }

  lemma {:induction false} AllUps(parts: seq<Name>, i: nat)
    requires Normal(parts, false) && i < |parts| && parts[|parts| - 1] == Up
    ensures parts[i] == Up
    decreases |parts| - i
  {
    if i < |parts| - 1 {
      AllUps(parts, i + 1);
    }
  }

  /** Whether taking the parent goes one directory up: never wrong for absolute paths, wrong for relative ones that end in up-steps or nowhere. */
  predicate ParentGoesUp(s: string) { IsAbs(s) || (Parts(s) != [] && Parts(s)[|Parts(s)| - 1] != Up) }

  lemma ParentUp(s: string, dir: seq<Name>)
    requires ParentGoesUp(s)
    ensures Eval(Parent(s), dir) == Pop(Eval(s, dir))
  {
    hide Eval, Parent, Parts, Walk, Step, Proper;
    var p := Parts(s);
    if p == [] {
      ParentOfNothing(s, dir);
      EvalOfParts(s, dir);
      WalkNothing();
    } else {
      ParentOfParts(s, dir);
      StepProper(Walk(if IsAbs(s) then [] else dir, p[..|p| - 1]), p[|p| - 1]);
    }
  }

  lemma WalkNothing()
    ensures forall dir :: Walk(dir, []) == dir
  {
  }

  lemma ParentNotUp(s: string) returns (dir: seq<Name>)
    requires !ParentGoesUp(s)
    ensures Eval(Parent(s), dir) != Pop(Eval(s, dir))
  {
    var p := Parts(s);
    dir := seq(|p| + 1, _ => "x");
    PartsNormal(s);
    EvalOfParts(s, dir);
    WalkNothing();
    hide Eval, Parts, Parent, Walk, Step, Proper;
    if p == [] {
      ParentOfNothing(s, dir);
    } else {
      forall i | 0 <= i < |p|
        ensures p[i] == Up
      {
        AllUps(p, i);
      }
      var rest := p[..|p| - 1];
      ParentOfParts(s, dir);
      WalkUps(dir, p);
      WalkUps(dir, rest);
      assert |Walk(dir, rest)| == 2 && |Walk(dir, p)| == 1;
    }
  }

  /** Exactly when `parent` means the directory above. */
  lemma ParentIsAbove(s: string)
    ensures (forall dir :: Eval(Parent(s), dir) == Pop(Eval(s, dir))) <==> ParentGoesUp(s)
  {
    hide Parent, Eval, ParentGoesUp;
    if ParentGoesUp(s) {
      forall dir
        ensures Eval(Parent(s), dir) == Pop(Eval(s, dir))
      {
        ParentUp(s, dir);
      }
    } else {
      var dir := ParentNotUp(s);
    }
  }
}
