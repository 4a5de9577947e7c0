/** The lightweight index of snaps: pkg/lightweight/lightweight.go. */
module Lightweight {
  import opened Options
  import opened Version
  import opened VersionOrder
  import opened VersionSort

  // ---------------------------------------------------------------- paths

  /** One past the last occurrence of `ch`, or 0. */
  function AfterLast(s: string, ch: char): (i: nat)
    ensures i <= |s|
    ensures forall k :: i <= k < |s| ==> s[k] != ch
    ensures i > 0 ==> s[i - 1] == ch
    ensures i > 0 <==> ch in s
  {
    if s == [] then 0 else if s[|s| - 1] == ch then |s| else AfterLast(s[..|s| - 1], ch)
  }

  /** The last component of a path, and the name and extension of the directory before it. */
  datatype Located = Located(name: string, origin: string, file: string)

  function BaseName(path: string): string { path[AfterLast(path, '/')..] }

  function DirName(path: string): string
    requires '/' in path
  {
    path[..AfterLast(path, '/') - 1]
  }

  /** Name and origin of a package directory; without a dot there is no origin. */
  function SplitBase(base: string, file: string): Located {
    var dot := AfterLast(base, '.');
    if dot == 0 then Located(base, "", file) else Located(base[..dot - 1], base[dot..], file)
  }

  function Split(path: string): Located
    requires '/' in path
  {
    SplitBase(BaseName(DirName(path)), BaseName(path))
  }

  lemma LastSegment(a: string, ch: char, b: string)
    requires ch !in b
    ensures var s := a + [ch] + b;
      ch in s && AfterLast(s, ch) == |a| + 1 && s[..|a|] == a && s[|a| + 1..] == b
  {
    var s := a + [ch] + b;
    assert s[|a|] == ch;
    assert forall k :: |a| < k < |s| ==> s[k] == b[k - |a| - 1];
  }

  lemma LastComponent(dir: string, file: string)
    requires '/' !in file
    ensures var path := dir + "/" + file;
      '/' in path && BaseName(path) == file && DirName(path) == dir
  {
    LastSegment(dir, '/', file);
  }

  /** A package directory, below another directory or not, gives its base name. */
  lemma PackageComponent(prefix: string, base: string)
    requires '/' !in base && (prefix == "" || prefix[|prefix| - 1] == '/')
    ensures BaseName(prefix + base) == base
  {
    if prefix == "" {
      assert prefix + base == base;
    } else {
      var dir := prefix[..|prefix| - 1];
      assert prefix + base == dir + "/" + base;
      LastComponent(dir, base);
    }
  }

  /** A path `<prefix><name>.<origin>/<file>` is taken apart into exactly these pieces, and without an origin
      the name must have no dot. */
  lemma SplitOfPath(prefix: string, name: string, origin: string, file: string)
    requires prefix == "" || prefix[|prefix| - 1] == '/'
    requires '/' !in name && '/' !in origin && '.' !in origin && '/' !in file
    ensures var path := prefix + (name + "." + origin) + "/" + file;
      '/' in path && Split(path) == Located(name, origin, file)
    ensures var path := prefix + name + "/" + file;
      '/' in path && (Split(path) == Located(name, "", file) <==> '.' !in name)
  {
    hide BaseName, DirName, AfterLast;
    var base := name + "." + origin;
    LastComponent(prefix + base, file);
    PackageComponent(prefix, base);
    LastSegment(name, '.', origin);
    LastComponent(prefix + name, file);
    PackageComponent(prefix, name);
  }

  // ---------------------------------------------------------------- grouping

  function SplitAll(paths: seq<string>): (located: seq<Located>)
    requires forall p :: p in paths ==> '/' in p
    ensures |located| == |paths| && forall i :: 0 <= i < |paths| ==> located[i] == Split(paths[i])
  {
    seq(|paths|, i requires 0 <= i < |paths| => Split(paths[i]))
  }

  predicate SamePackage(p: Located, q: Located) { p.name == q.name && p.origin == q.origin }

  /** Everything the paths say, in order, without the "current" links. */
  function Listing(paths: seq<Located>): seq<Located> {
    if paths == [] then []
    else (if paths[0].file == "current" then [] else [paths[0]]) + Listing(paths[1..])
  }

  datatype Group = Group(name: string, origin: string, versions: seq<string>)

  function Expand(g: Group): seq<Located> {
    seq(|g.versions|, i requires 0 <= i < |g.versions| => Located(g.name, g.origin, g.versions[i]))
  }

  function ExpandAll(groups: seq<Group>): seq<Located> {
    if groups == [] then [] else Expand(groups[0]) + ExpandAll(groups[1..])
  }

  /** Takes the longest prefix that belongs to one package. */
  method Extract(paths: seq<Located>) returns (g: Group, rest: seq<Located>)
    requires paths != []
    ensures exists n :: 1 <= n <= |paths| && IsPrefixGroup(paths, n, g, rest)
  {
    var first := paths[0];
    var versions: seq<string> := [];
    rest := paths;
    ghost var n := 0;
    while |rest| > 0
      invariant 0 <= n <= |paths| && rest == paths[n..]
      invariant forall i :: 0 <= i < n ==> SamePackage(first, paths[i])
      invariant Expand(Group(first.name, first.origin, versions)) == Listing(paths[..n])
      decreases |rest|
    {
      var l := rest[0];
      if first.name != l.name || first.origin != l.origin { break; }
      ListingStep(paths, n);
      ExpandStep(Group(first.name, first.origin, versions), l.file);
      rest := rest[1..];
      n := n + 1;
      if l.file == "current" { continue; }
      versions := versions + [l.file];
    }
    g := Group(first.name, first.origin, versions);
    assert IsPrefixGroup(paths, n, g, rest);
  }

  /** The group is made of the first `n` paths, which are one package's, and the next path is not. */
  ghost predicate IsPrefixGroup(paths: seq<Located>, n: nat, g: Group, rest: seq<Located>)
    requires 1 <= n <= |paths|
  {
    && rest == paths[n..]
    && g.name == paths[0].name && g.origin == paths[0].origin
    && Expand(g) == Listing(paths[..n])
    && (forall i :: 0 <= i < n ==> SamePackage(paths[0], paths[i]))
    && (n < |paths| ==> !SamePackage(paths[0], paths[n]))
  }

  lemma ExpandStep(g: Group, v: string)
    ensures Expand(g.(versions := g.versions + [v])) == Expand(g) + [Located(g.name, g.origin, v)]
  {}

  lemma ListingStep(paths: seq<Located>, n: nat)
    requires n < |paths|
    ensures Listing(paths[..n + 1]) == Listing(paths[..n]) + if paths[n].file == "current" then [] else [paths[n]]
  {
    assert paths[..n + 1] == paths[..n] + [paths[n]];
    ListingAppend(paths[..n], [paths[n]]);
    assert [paths[n]][1..] == [];
  }

  lemma {:induction false} ListingAppend(a: seq<Located>, b: seq<Located>)
    ensures Listing(a + b) == Listing(a) + Listing(b)
  {
    if a == [] {
      assert a + b == b;
    } else {
      assert (a + b)[1..] == a[1..] + b;
      ListingAppend(a[1..], b);
    }
  }

  lemma {:induction false} ExpandAllAppend(groups: seq<Group>, g: Group)
    ensures ExpandAll(groups + [g]) == ExpandAll(groups) + Expand(g)
  {
    if groups == [] {
      assert groups + [g] == [g] && [g][1..] == [];
    } else {
      assert (groups + [g])[1..] == groups[1..] + [g];
      ExpandAllAppend(groups[1..], g);
    }
  }

  lemma NothingListed()
    ensures ExpandAll([]) == Listing([])
  {}

  predicate DifferentNeighbours(groups: seq<Group>) {
    forall i :: 0 < i < |groups| ==> groups[i - 1].name != groups[i].name || groups[i - 1].origin != groups[i].origin
  }

  /** The next path, if any, does not belong to the last group. */
  ghost predicate Separated(groups: seq<Group>, rest: seq<Located>) {
    groups != [] && rest != [] ==>
      var g := groups[|groups| - 1];
      g.name != rest[0].name || g.origin != rest[0].origin
  }

  lemma GroupAppended(paths: seq<Located>, done: nat, n: nat, groups: seq<Group>, g: Group, rest: seq<Located>)
    requires done <= |paths| && 1 <= n <= |paths[done..]|
    requires IsPrefixGroup(paths[done..], n, g, rest)
    requires ExpandAll(groups) == Listing(paths[..done])
    requires DifferentNeighbours(groups) && Separated(groups, paths[done..])
    ensures ExpandAll(groups + [g]) == Listing(paths[..done + n])
    ensures DifferentNeighbours(groups + [g]) && rest == paths[done + n..] && Separated(groups + [g], rest)
  {
    var before := paths[done..];
    ExpandAllAppend(groups, g);
    assert paths[..done + n] == paths[..done] + before[..n];
    ListingAppend(paths[..done], before[..n]);
  }

  /** The loop of `find`: it terminates, its groups list every path once and in order except for "current"
      links, and neighbouring groups are different packages. */
  method ExtractAll(files: seq<string>) returns (groups: seq<Group>)
    requires forall p :: p in files ==> '/' in p
    ensures ExpandAll(groups) == Listing(SplitAll(files))
    ensures DifferentNeighbours(groups)
  {
    hide Listing, ExpandAll, SplitAll;
    groups := [];
    var paths := SplitAll(files);
    NothingListed();
    var rest := paths;
    ghost var done: nat := 0;
    assert paths[..0] == [];
    while |rest| > 0
      invariant done <= |paths| && rest == paths[done..]
      invariant ExpandAll(groups) == Listing(paths[..done])
      invariant DifferentNeighbours(groups) && Separated(groups, rest)
      decreases |rest|
    {
      var g, next := Extract(rest);
      ghost var n :| 1 <= n <= |rest| && IsPrefixGroup(rest, n, g, next);
      GroupAppended(paths, done, n, groups, g, next);
      groups, rest, done := groups + [g], next, done + n;
    }
    assert paths[..done] == paths;
  }

  // ---------------------------------------------------------------- bags

  /** A package with its versions; `installed` are those with metadata on disk. */
  datatype Bag = Bag(versions: seq<string>, installed: set<string>, current: Option<string>)

  ghost predicate IsIndexed(bag: Bag) {
    (forall v :: v in bag.versions ==> VersionFits(v)) && InOrder(bag.versions, v => v, true)
  }

  /** `versionSort`: newest first. */
  method NewBag(versions: seq<string>, installed: set<string>, current: Option<string>) returns (bag: Bag)
    ensures multiset(bag.versions) == multiset(versions) && bag.installed == installed && bag.current == current
    ensures (forall v :: v in versions ==> VersionFits(v)) ==> IsIndexed(bag)
  {
    hide Compare, VersionFits;
    var sorted := SortByVersion(versions, v => v, true);
    bag := Bag(sorted, installed, current);
    if forall v :: v in versions ==> VersionFits(v) {
      forall v | v in sorted ensures VersionFits(v) { assert v in multiset(versions); }
    }
  }

  method ActiveIndex(bag: Bag) returns (idx: int)
    ensures -1 <= idx < |bag.versions|
    ensures idx >= 0 ==> bag.current == Some(bag.versions[idx])
    ensures idx == -1 <==> bag.current.None? || bag.current.value !in bag.versions
  {
    if bag.current.None? { return -1; }
    for i := 0 to |bag.versions|
      invariant bag.current.value !in bag.versions[..i]
    {
      if bag.versions[i] == bag.current.value { return i; }
    }
    assert bag.versions[..|bag.versions|] == bag.versions;
    return -1;
  }

  /** Version `i` is the first installed one after the active version `a`. */
  ghost predicate IsNextInstalled(bag: Bag, a: nat, i: nat) {
    && a < i < |bag.versions|
    && bag.current == Some(bag.versions[a])
    && bag.versions[i] in bag.installed
    && forall k :: a < k < i ==> bag.versions[k] !in bag.installed
  }

  /** Not newer than the active version, and as new as any installed version sorted after it. */
  ghost predicate IsGreatestAfter(bag: Bag, a: nat, rollback: string) {
    && a < |bag.versions|
    && Compare(rollback, bag.versions[a]) <= 0
    && forall k :: a < k < |bag.versions| && bag.versions[k] in bag.installed ==>
         Compare(bag.versions[k], rollback) <= 0
  }

  ghost predicate NothingAfter(bag: Bag, a: nat) {
    && a < |bag.versions|
    && bag.current == Some(bag.versions[a])
    && forall k :: a < k < |bag.versions| ==> bag.versions[k] !in bag.installed
  }

  /** The rollback candidate of `Map`: with newest first, the first installed version after the active
      one is a greatest one among the installed versions that are sorted after it. */
  method RollbackVersion(bag: Bag) returns (rollback: Option<string>)
    ensures rollback.Some? ==> exists a: nat, i: nat :: IsNextInstalled(bag, a, i) && rollback.value == bag.versions[i]
    ensures rollback.Some? && IsIndexed(bag) ==>
      exists a: nat :: IsGreatestAfter(bag, a, rollback.value) && bag.current == Some(bag.versions[a])
    ensures rollback.None? && bag.current.Some? && bag.current.value in bag.versions ==>
      exists a: nat :: NothingAfter(bag, a)
  {
    hide Compare, VersionFits;
    var a := ActiveIndex(bag);
    if a < 0 { return None; }
    for i := a + 1 to |bag.versions|
      invariant forall k :: a < k < i ==> bag.versions[k] !in bag.installed
    {
      if bag.versions[i] in bag.installed {
        assert IsNextInstalled(bag, a, i);
        if IsIndexed(bag) {
          CandidateIsGreatest(bag, a, i);
          assert IsGreatestAfter(bag, a, bag.versions[i]);
        }
        return Some(bag.versions[i]);
      }
    }
    assert NothingAfter(bag, a);
    return None;
  }

  predicate CurrentLoads(bag: Bag, broken: set<string>) {
    bag.current.Some? && bag.current.value in bag.versions && bag.current.value !in broken
  }

  /** `LoadBest`: the active version if it loads, else a newest installed one that loads, else the newest.
      A version in `broken` has metadata but does not load; one without metadata loads as removed. */
  method LoadBest(bag: Bag, broken: set<string>) returns (best: Option<string>)
    requires forall v :: v in broken ==> v in bag.installed
    ensures best.Some? ==> best.value in bag.versions && best.value !in broken
    ensures CurrentLoads(bag, broken) ==> best == bag.current
    ensures !CurrentLoads(bag, broken) ==>
      forall v :: v in bag.versions && v in bag.installed && v !in broken ==>
        best.Some? && best.value in bag.installed && (IsIndexed(bag) ==> Compare(v, best.value) <= 0)
    ensures !CurrentLoads(bag, broken) && (forall v :: v in bag.versions && v in bag.installed ==> v in broken) ==>
      best == if bag.versions != [] && bag.versions[0] !in broken then Some(bag.versions[0]) else None
    ensures best.None? ==> forall v :: v in bag.versions && v in bag.installed ==> v in broken
  {
    hide Compare, VersionFits;
    if |bag.versions| == 0 { return None; }
    var a := ActiveIndex(bag);
    if a >= 0 && bag.versions[a] !in broken { return Some(bag.versions[a]); }
    for i := 0 to |bag.versions|
      invariant forall k :: 0 <= k < i ==> bag.versions[k] !in bag.installed || bag.versions[k] in broken
    {
      if bag.versions[i] in bag.installed && bag.versions[i] !in broken {
        forall v | IsIndexed(bag) && v in bag.versions && v in bag.installed && v !in broken
          ensures Compare(v, bag.versions[i]) <= 0
        {
          var k :| 0 <= k < |bag.versions| && bag.versions[k] == v;
          CompareIsTotal(bag.versions[i], v);
          assert k > i ==> Ordered(bag.versions[i], bag.versions[k], true);
        }
        return Some(bag.versions[i]);
      }
    }
    if bag.versions[0] !in broken { return Some(bag.versions[0]); }
    return None;
  }

  lemma CandidateIsGreatest(bag: Bag, a: nat, i: nat)
    requires IsIndexed(bag) && a < i < |bag.versions|
    ensures Compare(bag.versions[i], bag.versions[a]) <= 0
    ensures forall k :: i <= k < |bag.versions| ==> Compare(bag.versions[k], bag.versions[i]) <= 0
  {
    hide Compare, VersionFits;
    CompareIsTotal(bag.versions[a], bag.versions[i]);
    forall k | i <= k < |bag.versions| ensures Compare(bag.versions[k], bag.versions[i]) <= 0 {
      CompareIsTotal(bag.versions[i], bag.versions[k]);
    }
  }
}
