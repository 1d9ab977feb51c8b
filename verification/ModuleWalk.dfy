// The walk of a crate's `mod` declarations from its roots: exactly the files the
// compiler reads, and so the ones under src/ it never does.

module ModuleWalk {
  import opened Sequences
  import opened Wrappers

  // A declaration: a file of its own choosing, or the places the name may be, in order.
  datatype Decl<File> = Override(target: File) | Named(candidates: seq<File>)

  // The files there are, and what each declares; None is one that cannot be read.
  datatype Tree<!File> = Tree(files: set<File>, decls: File -> Option<seq<Decl<File>>>)

  // The first candidate that exists.
  function FirstFile<File(==)>(files: set<File>, candidates: seq<File>): (f: Option<File>)
    ensures f.None? <==> forall k :: 0 <= k < |candidates| ==> candidates[k] !in files
    ensures f.Some? ==> exists k :: 0 <= k < |candidates| && candidates[k] == f.value && f.value in files
                                    && forall j :: 0 <= j < k ==> candidates[j] !in files
  {
    if candidates == [] then None
    else if candidates[0] in files then Some(candidates[0])
    else FirstFile(files, candidates[1..])
  }

  // Where a declaration leads.
  function Target<File(==)>(files: set<File>, d: Decl<File>): Option<File> {
    match d
    case Override(target) => Some(target)
    case Named(candidates) => FirstFile(files, candidates)
  }

  // Some declaration leads to g.
  ghost predicate Declared<File>(files: set<File>, decls: seq<Decl<File>>, g: File) {
    exists k :: 0 <= k < |decls| && Target(files, decls[k]) == Some(g)
  }

  // f declares g, which exists.
  ghost predicate Edge<File>(t: Tree<File>, f: File, g: File) {
    && g in t.files && t.decls(f).Some?
    && Declared(t.files, t.decls(f).value, g)
  }

  // Files that exist, each declaring the next.
  ghost predicate IsPath<File>(t: Tree<File>, path: seq<File>) {
    && path != []
    && path[0] in t.files
    && forall k :: 0 < k < |path| ==> Edge(t, path[k - 1], path[k])
  }

  ghost predicate Leads<File>(t: Tree<File>, roots: set<File>, path: seq<File>, f: File) {
    IsPath(t, path) && path[0] in roots && path[|path| - 1] == f
  }

  ghost predicate Reachable<File(!new)>(t: Tree<File>, roots: set<File>, f: File) {
    exists path :: Leads(t, roots, path, f)
  }

  // What the compiler reads: the existing files reachable from the roots.
  ghost function Reached<File(!new)>(t: Tree<File>, roots: set<File>): set<File> {
    set f | f in t.files && Reachable(t, roots, f)
  }

  lemma RootIsReached<File(!new)>(t: Tree<File>, roots: set<File>, f: File)
    requires f in roots && f in t.files
    ensures f in Reached(t, roots)
  {
    assert Leads(t, roots, [f], f);
  }

  lemma NextIsReached<File(!new)>(t: Tree<File>, roots: set<File>, f: File, g: File)
    requires f in Reached(t, roots) && Edge(t, f, g)
    ensures g in Reached(t, roots)
  {
    var path :| Leads(t, roots, path, f);
    var longer := path + [g];
    forall k | 0 < k < |longer| ensures Edge(t, longer[k - 1], longer[k]) {
      if k < |path| {
        assert Edge(t, path[k - 1], path[k]);
      }
    }
    assert Leads(t, roots, longer, g);
  }

  // A set that holds the roots there are, and what its own files declare, holds all
  // that is reachable.
  ghost predicate Closed<File(!new)>(t: Tree<File>, seen: set<File>) {
    forall f, g :: f in seen && Edge(t, f, g) ==> g in seen
  }

  lemma {:induction false} PathStaysIn<File(!new)>(t: Tree<File>, seen: set<File>, path: seq<File>)
    requires Closed(t, seen) && IsPath(t, path) && path[0] in seen
    ensures path[|path| - 1] in seen
  {
    if |path| > 1 {
      var n := |path| - 1;
      forall k | 0 < k < n ensures Edge(t, path[..n][k - 1], path[..n][k]) {
        assert Edge(t, path[k - 1], path[k]);
      }
      PathStaysIn(t, seen, path[..n]);
      assert Edge(t, path[n - 1], path[n]);
    }
  }

  lemma ClosedHoldsReached<File(!new)>(t: Tree<File>, seen: set<File>, roots: set<File>)
    requires Closed(t, seen) && forall r :: r in roots && r in t.files ==> r in seen
    ensures Reached(t, roots) <= seen
  {
    forall f | f in Reached(t, roots) ensures f in seen {
      var path :| Leads(t, roots, path, f);
      PathStaysIn(t, seen, path);
    }
  }

  // ------------------------------------------------------------------------ the walk

  // What a file's declarations push, in order.
  function Targets<File(==)>(files: set<File>, decls: seq<Decl<File>>): seq<File> {
    if decls == [] then []
    else
      var last := Target(files, decls[|decls| - 1]);
      Targets(files, decls[..|decls| - 1]) + if last.Some? then [last.value] else []
  }

  lemma OneMoreDecl<File>(files: set<File>, decls: seq<Decl<File>>, d: Decl<File>, g: File)
    ensures Declared(files, decls + [d], g) <==> Declared(files, decls, g) || Target(files, d) == Some(g)
  {
    var now := decls + [d];
    if Declared(files, decls, g) {
      var k :| 0 <= k < |decls| && Target(files, decls[k]) == Some(g);
      assert Target(files, now[k]) == Some(g);
    }
    if Target(files, d) == Some(g) {
      assert Target(files, now[|decls|]) == Some(g);
    }
  }

  lemma {:induction false} TargetsAre<File>(files: set<File>, decls: seq<Decl<File>>, g: File)
    ensures g in Targets(files, decls) <==> Declared(files, decls, g)
  {
    if decls != [] {
      hide Target;
      var n := |decls| - 1;
      TargetsAre(files, decls[..n], g);
      OneMoreDecl(files, decls[..n], decls[n], g);
      assert decls == decls[..n] + [decls[n]];
      hide Declared;
    }
  }

  lemma TargetsAppend<File>(files: set<File>, decls: seq<Decl<File>>, d: Decl<File>)
    ensures Targets(files, decls + [d]) == Targets(files, decls)
                                           + if Target(files, d).Some? then [Target(files, d).value] else []
  {
    assert (decls + [d])[..|decls|] == decls;
  }

  // What is marked is reachable, and so is what waits on the stack; what the marked
  // files declare is marked or waits.
  ghost predicate Between<File(!new)>(t: Tree<File>, roots: set<File>, seen: set<File>, stack: seq<File>) {
    && seen <= Reached(t, roots)
    && (forall f :: f in stack && f in t.files ==> f in Reached(t, roots))
    && (forall f, g :: f in seen && Edge(t, f, g) ==> g in seen || g in stack)
    && (forall r :: r in roots && r in t.files ==> r in seen || r in stack)
  }

  lemma Begin<File(!new)>(t: Tree<File>, roots: set<File>, root: File)
    ensures Between(t, roots + {root}, Reached(t, roots), [root])
  {
    forall f | f in Reached(t, roots) ensures f in Reached(t, roots + {root}) {
      var path :| Leads(t, roots, path, f);
      assert Leads(t, roots + {root}, path, f);
    }
    forall f, g | f in Reached(t, roots) && Edge(t, f, g) ensures g in Reached(t, roots) {
      NextIsReached(t, roots, f, g);
    }
    forall r | r in roots && r in t.files ensures r in Reached(t, roots) {
      RootIsReached(t, roots, r);
    }
    if root in t.files {
      RootIsReached(t, roots + {root}, root);
    }
  }

  // The popped file is marked already, or is none.
  lemma Drop<File(!new)>(t: Tree<File>, roots: set<File>, seen: set<File>, stack: seq<File>, f: File)
    requires Between(t, roots, seen, stack + [f]) && (f in seen || f !in t.files)
    ensures Between(t, roots, seen, stack)
  {
    hide Reached;
  }

  // It is marked now, and what it declares waits.
  lemma Mark<File(!new)>(t: Tree<File>, roots: set<File>, seen: set<File>, stack: seq<File>, f: File)
    requires Between(t, roots, seen, stack + [f]) && f in t.files
    ensures var pushed := if t.decls(f).Some? then Targets(t.files, t.decls(f).value) else [];
            Between(t, roots, seen + {f}, stack + pushed)
  {
    hide Reached, Targets, Edge;
    var pushed := if t.decls(f).Some? then Targets(t.files, t.decls(f).value) else [];
    forall g | g in t.files ensures g in pushed <==> Edge(t, f, g) {
      PushedAreEdges(t, f, g);
    }
    assert f in stack + [f];
    forall g | g in pushed && g in t.files ensures g in Reached(t, roots) {
      NextIsReached(t, roots, f, g);
    }
    forall f', g | f' in seen + {f} && Edge(t, f', g) ensures g in seen + {f} || g in stack + pushed {
      EdgeExists(t, f', g);
    }
  }

  lemma PushedAreEdges<File(!new)>(t: Tree<File>, f: File, g: File)
    requires g in t.files
    ensures Edge(t, f, g) <==> t.decls(f).Some? && g in Targets(t.files, t.decls(f).value)
  {
    if t.decls(f).Some? {
      TargetsAre(t.files, t.decls(f).value, g);
    }
  }

  lemma EdgeExists<File>(t: Tree<File>, f: File, g: File)
    requires Edge(t, f, g)
    ensures g in t.files
  {
  }

  lemma End<File(!new)>(t: Tree<File>, roots: set<File>, seen: set<File>)
    requires Between(t, roots, seen, [])
    ensures seen == Reached(t, roots)
  {
    ClosedHoldsReached(t, seen, roots);
  }

  // What the walks of one crate share: the files they have marked.
  class Marks<!File(==, !new)> {
    var seen: set<File>

    constructor ()
      ensures seen == {}
    {
      seen := {};
    }

    // `walk`: follow the declarations from `root`. After the walks of some roots, one
    // more leaves exactly what is reachable from them all.
    method Walk(t: Tree<File>, root: File, ghost roots: set<File>)
      requires seen == Reached(t, roots)
      modifies this
      ensures seen == Reached(t, roots + {root})
    {
      hide *;
      var stack := [root];
      Begin(t, roots, root);
      while |stack| > 0
        invariant Between(t, roots + {root}, seen, stack)
        decreases t.files - seen, |stack|
      {
        var f, rest := stack[|stack| - 1], stack[..|stack| - 1];
        assert stack == rest + [f];
        if f in seen || f !in t.files {
          Drop(t, roots + {root}, seen, rest, f);
          stack := rest;
          continue;
        }
        Mark(t, roots + {root}, seen, rest, f);
        assert f in t.files - seen && f !in t.files - (seen + {f});
        seen := seen + {f};
        stack := rest;
        var decls := t.decls(f);
        if decls.None? {
          assert rest + [] == rest;
          continue;
        }
        var pushed := Resolve(t, decls.value);
        stack := stack + pushed;
      }
      assert stack == [];
      End(t, roots + {root}, seen);
    }
  }

  // The inner loop: each declaration's file, the first candidate that is one.
  method Resolve<File(==)>(t: Tree<File>, decls: seq<Decl<File>>) returns (pushed: seq<File>)
    ensures pushed == Targets(t.files, decls)
  {
    pushed := [];
    for i := 0 to |decls|
      invariant pushed == Targets(t.files, decls[..i])
    {
      assert decls[..i + 1] == decls[..i] + [decls[i]];
      TargetsAppend(t.files, decls[..i], decls[i]);
      match decls[i]
      case Override(target) => pushed := pushed + [target];
      case Named(candidates) =>
        var found := FirstExisting(t.files, candidates);
        if found.Some? {
          pushed := pushed + [found.value];
        }
    }
    assert decls[..|decls|] == decls;
  }

  method FirstExisting<File(==)>(files: set<File>, candidates: seq<File>) returns (f: Option<File>)
    ensures f == FirstFile(files, candidates)
  {
    for c := 0 to |candidates|
      invariant FirstFile(files, candidates) == FirstFile(files, candidates[c..])
    {
      if candidates[c] in files {
        return Some(candidates[c]);
      }
      assert candidates[c..][1..] == candidates[c + 1..];
    }
    return None;
  }

  // ------------------------------------------------------------------------ the audit

  // A crate's roots, and the files under its src/.
  datatype Crate<File> = Crate(roots: seq<File>, src: seq<File>)

  datatype Report<File> = Report(walked: nat, orphans: seq<File>) {
    function ExitCode(): nat {
      if walked < 400 then 2 else if orphans != [] then 1 else 0
    }
  }

  // A source file that no root's declarations lead to.
  ghost predicate Orphan<File(!new)>(t: Tree<File>, c: Crate<File>, f: File) {
    f in c.src && f !in Reached(t, Elements(c.roots))
  }

  lemma OneMoreElement<T>(s: seq<T>, x: T)
    ensures Elements(s + [x]) == Elements(s) + {x} && Elements<T>([]) == {}
  {
  }

  // The files not in a set, in order.
  function Unseen<File(==)>(src: seq<File>, seen: set<File>): seq<File> {
    if src == [] then []
    else Unseen(src[..|src| - 1], seen) + if src[|src| - 1] in seen then [] else [src[|src| - 1]]
  }

  // Files reached, and orphans, crate by crate.
  ghost function ReachedIn<File(!new)>(t: Tree<File>, crates: seq<Crate<File>>): nat {
    if crates == [] then 0
    else ReachedIn(t, crates[..|crates| - 1]) + |Reached(t, Elements(crates[|crates| - 1].roots))|
  }

  ghost function OrphansIn<File(!new)>(t: Tree<File>, crates: seq<Crate<File>>): seq<File> {
    if crates == [] then []
    else
      var last := crates[|crates| - 1];
      OrphansIn(t, crates[..|crates| - 1]) + Unseen(last.src, Reached(t, Elements(last.roots)))
  }

  // Some crate's source has this file, and none of its roots leads to it.
  ghost predicate OrphanOf<File(!new)>(t: Tree<File>, crates: seq<Crate<File>>, f: File) {
    exists k :: 0 <= k < |crates| && Orphan(t, crates[k], f)
  }

  lemma {:induction false} UnseenAre<File>(src: seq<File>, seen: set<File>, f: File)
    ensures f in Unseen(src, seen) <==> f in src && f !in seen
  {
    if src != [] {
      UnseenAre(src[..|src| - 1], seen, f);
      assert src == src[..|src| - 1] + [src[|src| - 1]];
    }
  }

  lemma OneMoreCrate<File(!new)>(t: Tree<File>, crates: seq<Crate<File>>, c: Crate<File>, f: File)
    ensures OrphanOf(t, crates + [c], f) <==> OrphanOf(t, crates, f) || Orphan(t, c, f)
  {
    hide Reached, Orphan;
    var now := crates + [c];
    if OrphanOf(t, crates, f) {
      var j :| 0 <= j < |crates| && Orphan(t, crates[j], f);
      assert Orphan(t, now[j], f);
    }
    if Orphan(t, c, f) {
      assert Orphan(t, now[|crates|], f);
    }
  }

  // The list holds exactly the files no root of their crate leads to.
  lemma {:induction false} OrphansAre<File(!new)>(t: Tree<File>, crates: seq<Crate<File>>, f: File)
    ensures f in OrphansIn(t, crates) <==> OrphanOf(t, crates, f)
  {
    if crates != [] {
      hide Reached, OrphanOf;
      var n := |crates| - 1;
      OrphansAre(t, crates[..n], f);
      UnseenAre(crates[n].src, Reached(t, Elements(crates[n].roots)), f);
      OneMoreCrate(t, crates[..n], crates[n], f);
      assert crates == crates[..n] + [crates[n]];
    }
  }

  method WalkCrate<File(==, !new)>(t: Tree<File>, roots: seq<File>) returns (seen: set<File>)
    ensures seen == Reached(t, Elements(roots))
  {
    var marks := new Marks<File>();
    NoRoots(t);
    assert roots[..0] == [];
    for k := 0 to |roots|
      invariant fresh(marks) && marks.seen == Reached(t, Elements(roots[..k]))
    {
      marks.Walk(t, roots[k], Elements(roots[..k]));
      OneMoreElement(roots[..k], roots[k]);
      assert roots[..k + 1] == roots[..k] + [roots[k]];
    }
    assert roots[..|roots|] == roots;
    seen := marks.seen;
  }

  lemma NoRoots<File(!new)>(t: Tree<File>)
    ensures Reached(t, {}) == {}
  {
  }

  // `main`: which source files nothing declares, and whether that fails the audit.
  method Audit<File(==, !new)>(t: Tree<File>, crates: seq<Crate<File>>) returns (r: Report<File>)
    ensures r == Report(ReachedIn(t, crates), OrphansIn(t, crates))
    ensures r.ExitCode() == 0 <==> ReachedIn(t, crates) >= 400 && forall f :: !OrphanOf(t, crates, f)
    ensures r.ExitCode() == 2 <==> ReachedIn(t, crates) < 400
    ensures r.ExitCode() <= 2
  {
    hide Reached, OrphanOf;
    var walked, orphans := 0, [];
    for k := 0 to |crates|
      invariant walked == ReachedIn(t, crates[..k]) && orphans == OrphansIn(t, crates[..k])
    {
      var seen := WalkCrate(t, crates[k].roots);
      assert crates[..k + 1][..k] == crates[..k];
      var unseen := ListUnseen(crates[k].src, seen);
      walked, orphans := walked + |seen|, orphans + unseen;
    }
    assert crates[..|crates|] == crates;
    r := Report(walked, orphans);
    forall f ensures f in orphans <==> OrphanOf(t, crates, f) {
      OrphansAre(t, crates, f);
    }
    assert orphans == [] || orphans[0] in orphans;
  }

  method ListUnseen<File(==)>(src: seq<File>, seen: set<File>) returns (orphans: seq<File>)
    ensures orphans == Unseen(src, seen)
  {
    orphans := [];
    for k := 0 to |src|
      invariant orphans == Unseen(src[..k], seen)
    {
      assert src[..k + 1][..k] == src[..k];
      if src[k] !in seen {
        orphans := orphans + [src[k]];
      }
    }
    assert src[..|src|] == src;
  }
}
