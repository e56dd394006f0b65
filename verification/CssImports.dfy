/**
 * cssImportsOf of apps/desktop/vite.docs-export.config.ts: a recursive walk over the
 * `@import` edges between stylesheets that shares one set of files already seen.
 */
module CssImports {
  import opened Texts

  /**
   * The disk as the walk sees it: the regular files, the specifiers a file's `@import`s
   * name in order, and path resolution against the importing file's directory.
   */
  datatype Disk = Disk(files: set<string>, imports: string -> seq<string>, resolve: (string, string) -> string)

  /** Bare specifiers belong to packages and are skipped. */
  predicate Relative(specifier: string)
  {
    specifier != "" && (specifier[0] == '.' || specifier[0] == '/')
  }

  /** Import number `i` of file `a` resolves to the existing file `b`. */
  predicate EdgeAt(disk: Disk, a: string, b: string, i: nat)
  {
    && i < |disk.imports(a)| && ("." <= disk.imports(a)[i] || "/" <= disk.imports(a)[i])
    && disk.resolve(a, disk.imports(a)[i]) == b && b in disk.files
  }

  ghost predicate Edge(disk: Disk, a: string, b: string)
  {
    exists i: nat :: EdgeAt(disk, a, b, i)
  }

  /** A walk of one or more edges. */
  ghost predicate Path(disk: Disk, p: seq<string>)
  {
    |p| >= 2 && forall i :: 0 <= i < |p| - 1 ==> Edge(disk, p[i], p[i + 1])
  }

  ghost predicate Reaches(disk: Disk, a: string, b: string)
  {
    exists p :: Path(disk, p) && p[0] == a && p[|p| - 1] == b
  }

  lemma EdgeReaches(disk: Disk, a: string, b: string)
    requires Edge(disk, a, b)
    ensures Reaches(disk, a, b)
  {
    assert Path(disk, [a, b]);
  }

  lemma ReachesFurther(disk: Disk, a: string, b: string, c: string)
    requires Edge(disk, a, b) && Reaches(disk, b, c)
    ensures Reaches(disk, a, c)
  {
    var p :| Path(disk, p) && p[0] == b && p[|p| - 1] == c;
    var q := [a] + p;
    forall i | 0 <= i < |q| - 1 ensures Edge(disk, q[i], q[i + 1]) { if i > 0 { assert Edge(disk, p[i - 1], p[i]); } }
    assert Path(disk, q) && q[0] == a && q[|q| - 1] == c;
  }

  /** All imports of `a` are in `seen`. */
  ghost predicate Covered(disk: Disk, a: string, seen: set<string>)
  {
    forall b :: Edge(disk, a, b) ==> b in seen
  }

  /** The imports of `a` before number `n` are in `seen`. */
  ghost predicate CoveredUpTo(disk: Disk, a: string, seen: set<string>, n: nat)
  {
    forall i: nat, b :: i < n && EdgeAt(disk, a, b, i) ==> b in seen
  }

  /** Files found since `before` are reachable from `file`, and their own imports have been found. */
  ghost predicate Explored(disk: Disk, file: string, before: set<string>, seen: set<string>)
  {
    && before <= seen
    && forall f :: f in seen && f !in before ==> f in disk.files && Reaches(disk, file, f) && Covered(disk, f, seen)
  }

  /** The stylesheets found so far. */
  class Stylesheets {
    var seen: set<string>

    /** cssImportsOf */
    method ImportsOf(disk: Disk, file: string)
      requires seen <= disk.files
      modifies this
      ensures seen <= disk.files
      ensures Explored(disk, file, old(seen), seen) && Covered(disk, file, seen)
      decreases |disk.files - seen|
    {
      var specifiers := disk.imports(file);
      var i := 0;
      while i < |specifiers|
        invariant 0 <= i <= |specifiers|
        invariant old(seen) <= seen <= disk.files
        invariant Explored(disk, file, old(seen), seen) && CoveredUpTo(disk, file, seen, i)
      {
        hide Explored, CoveredUpTo, Covered, Reaches, Edge;
        ghost var before := seen;
        var specifier := specifiers[i];
        if Relative(specifier) {
          var resolved := disk.resolve(file, specifier);
          if resolved !in seen && resolved in disk.files {
            assert EdgeAt(disk, file, resolved, i);
            Smaller(disk.files, old(seen), seen, resolved);
            seen := seen + {resolved};
            ImportsOf(disk, resolved);
            EdgeOf(disk, file, resolved, i);
            ExploredAdds(disk, file, resolved, before, seen);
            ExploredTwice(disk, file, old(seen), before, seen);
          }
        }
        CoveredOneMore(disk, file, before, seen, i);
        i := i + 1;
      }
      CoveredAll(disk, file, seen);
    }
  }

  /** id.split("?")[0] */
  function WithoutQuery(id: string): (r: string)
    ensures r <= id && '?' !in r && (|r| < |id| ==> id[|r|] == '?')
  {
    UpTo(id, '?')
  }

  predicate EndsWith(s: string, suffix: string)
  {
    |suffix| <= |s| && s[|s| - |suffix|..] == suffix
  }

  /** A module of the bundle that is a stylesheet on disk. */
  predicate IsRoot(disk: Disk, id: string)
  {
    EndsWith(WithoutQuery(id), ".css") && WithoutQuery(id) in disk.files
  }

  /** Some stylesheet among the first `n` modules reaches `f`. */
  ghost predicate FoundFrom(disk: Disk, modules: seq<string>, n: nat, f: string)
  {
    exists m :: 0 <= m < n && m < |modules| && IsRoot(disk, modules[m]) && Reaches(disk, WithoutQuery(modules[m]), f)
  }

  /** The files found are closed under imports, and contain the imports of the first `n` stylesheets. */
  ghost predicate Closed(disk: Disk, modules: seq<string>, n: nat, seen: set<string>)
  {
    && (forall f :: f in seen ==> Covered(disk, f, seen) && FoundFrom(disk, modules, n, f))
    && forall m :: 0 <= m < n && m < |modules| && IsRoot(disk, modules[m]) ==>
      Covered(disk, WithoutQuery(modules[m]), seen)
  }

  lemma ClosedStep(disk: Disk, modules: seq<string>, n: nat, before: set<string>, seen: set<string>)
    requires n < |modules| && IsRoot(disk, modules[n]) && Closed(disk, modules, n, before)
    requires Explored(disk, WithoutQuery(modules[n]), before, seen) && Covered(disk, WithoutQuery(modules[n]), seen)
    ensures Closed(disk, modules, n + 1, seen)
  {
    hide Reaches, Edge, IsRoot;
    forall f | f in seen
      ensures Covered(disk, f, seen) && FoundFrom(disk, modules, n + 1, f)
    {
      if f in before { assert FoundFrom(disk, modules, n, f); }
    }
  }

  lemma ClosedSkip(disk: Disk, modules: seq<string>, n: nat, seen: set<string>)
    requires n < |modules| && !IsRoot(disk, modules[n]) && Closed(disk, modules, n, seen)
    ensures Closed(disk, modules, n + 1, seen)
  {
    hide Reaches, Edge, IsRoot, Covered;
    forall f | f in seen
      ensures FoundFrom(disk, modules, n + 1, f)
    {
      assert FoundFrom(disk, modules, n, f);
    }
  }

  lemma {:induction false} PathStaysInside(disk: Disk, p: seq<string>, seen: set<string>)
    requires Path(disk, p) && Covered(disk, p[0], seen) && forall f :: f in seen ==> Covered(disk, f, seen)
    ensures p[|p| - 1] in seen
    decreases |p|
  {
    hide Edge;
    assert Edge(disk, p[0], p[1]);
    if |p| > 2 {
      var q := p[1..];
      forall i | 0 <= i < |q| - 1 ensures Edge(disk, q[i], q[i + 1]) { assert Edge(disk, p[i + 1], p[i + 2]); }
      PathStaysInside(disk, q, seen);
    }
  }

  /** Closed files are exactly the reachable ones. */
  lemma ClosedIsReachable(disk: Disk, modules: seq<string>, seen: set<string>, f: string)
    requires Closed(disk, modules, |modules|, seen)
    ensures f in seen <==> FoundFrom(disk, modules, |modules|, f)
  {
    hide Covered, Edge, IsRoot;
    if FoundFrom(disk, modules, |modules|, f) {
      var m :| 0 <= m < |modules| && IsRoot(disk, modules[m]) && Reaches(disk, WithoutQuery(modules[m]), f);
      var p :| Path(disk, p) && p[0] == WithoutQuery(modules[m]) && p[|p| - 1] == f;
      PathStaysInside(disk, p, seen);
    }
  }

  /**
   * The loop over the bundle's modules: the shared set ends up holding exactly the files
   * that some stylesheet reaches by one or more imports, for any graph and any order.
   */
  method ScanModules(disk: Disk, modules: seq<string>) returns (found: set<string>)
    ensures forall f :: f in found <==> FoundFrom(disk, modules, |modules|, f)
  {
    var stylesheets := new Stylesheets;
    stylesheets.seen := {};
    var n := 0;
    while n < |modules|
      invariant 0 <= n <= |modules|
      invariant stylesheets.seen <= disk.files
      invariant Closed(disk, modules, n, stylesheets.seen)
    {
      hide Closed, Explored, Covered, IsRoot;
      ghost var before := stylesheets.seen;
      var file := WithoutQuery(modules[n]);
      if EndsWith(file, ".css") && file in disk.files {
        stylesheets.ImportsOf(disk, file);
        IsARoot(disk, modules[n]);
        ClosedStep(disk, modules, n, before, stylesheets.seen);
      } else {
        NotARoot(disk, modules[n]);
        ClosedSkip(disk, modules, n, before);
      }
      n := n + 1;
    }
    found := stylesheets.seen;
    forall f
      ensures f in found <==> FoundFrom(disk, modules, |modules|, f)
    {
      ClosedIsReachable(disk, modules, found, f);
    }
  }

  lemma IsARoot(disk: Disk, id: string)
    ensures EndsWith(WithoutQuery(id), ".css") && WithoutQuery(id) in disk.files ==> IsRoot(disk, id)
  {}

  lemma NotARoot(disk: Disk, id: string)
    ensures !(EndsWith(WithoutQuery(id), ".css") && WithoutQuery(id) in disk.files) ==> !IsRoot(disk, id)
  {}

  lemma Smaller(files: set<string>, first: set<string>, seen: set<string>, f: string)
    requires first <= seen && f in files && f !in seen
    ensures |files - (seen + {f})| < |files - first|
  {
    var a, b := files - first, files - (seen + {f});
    assert f in a && f !in b && b <= a - {f};
    Subset(b, a - {f});
  }

  lemma Subset(a: set<string>, b: set<string>)
    requires a <= b
    ensures |a| <= |b|
  {
    assert b == a + (b - a);
  }

  lemma EdgeOf(disk: Disk, a: string, b: string, i: nat)
    requires EdgeAt(disk, a, b, i)
    ensures Edge(disk, a, b)
  {}

  /** Following one edge and exploring its target explores on behalf of the importing file. */
  lemma ExploredAdds(disk: Disk, file: string, target: string, before: set<string>, seen: set<string>)
    requires Edge(disk, file, target) && target in disk.files && before <= seen && target in seen
    requires Explored(disk, target, before + {target}, seen) && Covered(disk, target, seen)
    ensures Explored(disk, file, before, seen)
  {
    hide Reaches, Edge, Covered;
    forall f | f in seen && f !in before
      ensures f in disk.files && Reaches(disk, file, f) && Covered(disk, f, seen)
    {
      if f == target { EdgeReaches(disk, file, f); } else { ReachesFurther(disk, file, target, f); }
    }
  }

  lemma ExploredTwice(disk: Disk, file: string, first: set<string>, before: set<string>, seen: set<string>)
    requires Explored(disk, file, first, before) && Explored(disk, file, before, seen)
    ensures Explored(disk, file, first, seen)
  {
    hide Reaches, Edge;
  }

  lemma CoveredOneMore(disk: Disk, file: string, before: set<string>, seen: set<string>, i: nat)
    requires CoveredUpTo(disk, file, before, i) && before <= seen
    requires forall b :: EdgeAt(disk, file, b, i) ==> b in seen
    ensures CoveredUpTo(disk, file, seen, i + 1)
  {}

  lemma CoveredAll(disk: Disk, file: string, seen: set<string>)
    requires CoveredUpTo(disk, file, seen, |disk.imports(file)|)
    ensures Covered(disk, file, seen)
  {}
}
