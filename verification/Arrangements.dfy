/** Arrangements by version of the installed parts of one name, and what garbage collection and rollback
    make of them: snappy/install.go and snappy/rollback.go. */
module Arrangements {
  import opened Lists
  import opened Options
  import opened Version
  import opened VersionOrder
  import opened VersionSort
  import opened Snaps

  function VersionOf(d: Dir): string { d.version }

  predicate Matches(p: Part, name: string, origin: string) {
    p.yaml.name == name && (origin == "" || p.origin == origin)
  }

  function LinkOf(links: map<string, string>, package: string): Option<string> {
    if package in links then Some(links[package]) else None
  }

  /** The active part is at index `a`, or, for -1, no part is active. */
  ghost predicate IsActiveIndex(order: seq<Dir>, current: map<string, string>, dirs: set<Dir>, a: int) {
    forall k :: 0 <= k < |order| ==> (k == a <==> IsActive(current, dirs, order[k]))
  }

  ghost predicate AtMostOneActive(order: seq<Dir>, current: map<string, string>, dirs: set<Dir>) {
    forall i, j :: 0 <= i < j < |order| ==> !IsActive(current, dirs, order[i]) || !IsActive(current, dirs, order[j])
  }

  /** The link of its package resolves to the part. */
  predicate IsActive(current: map<string, string>, dirs: set<Dir>, d: Dir) {
    Resolve(d.package, current, dirs) == Some(d)
  }

  /** What the link "current" of a package resolves to; a dangling link resolves to nothing. */
  function Resolve(package: string, current: map<string, string>, dirs: set<Dir>): Option<Dir> {
    if package in current && Dir(package, current[package]) in dirs
    then Some(Dir(package, current[package])) else None
  }

  /** How many parts at the front of the arrangement are to be uninstalled. */
  function Doomed(order: seq<Dir>, requested: bool, a: int): (n: nat)
    requires a < |order|
    ensures n <= |order|
  {
    if requested && |order| >= 3 && a >= 1 then a - 1 else 0
  }

  lemma DistinctArrangement(s: seq<Dir>, t: seq<Dir>)
    requires Distinct(s) && multiset(s) == multiset(t)
    ensures Distinct(t)
  {
    forall i, j | 0 <= i < j < |t| ensures t[i] != t[j] {
      if t[i] == t[j] {
        assert t == t[..i] + [t[i]] + t[i + 1..j] + [t[j]] + t[j + 1..];
        assert multiset(t)[t[i]] >= 2;
        OnceInDistinct(s, t[i]);
      }
    }
  }

  // ---------------------------------------------------------------- what garbage collection keeps

  /** Some sorted arrangement of the same parts. */
  ghost predicate Rearranges(again: seq<Dir>, parts: seq<Dir>) {
    && Distinct(again)
    && (forall d :: d in again <==> d in parts)
    && InOrder(again, VersionOf, false)
  }

  ghost predicate IsSortedList(order: seq<Dir>) {
    Distinct(order) && AllVersionsFit(order, VersionOf) && InOrder(order, VersionOf, false)
  }

  /** What is left after a successful collection. */
  function Kept(order: seq<Dir>, a: int): seq<Dir>
    requires a < |order|
  {
    order[Doomed(order, true, a)..]
  }

  /** A version behind the active one, and far enough behind for the purpose, compares equal to it. */
  predicate Tie(order: seq<Dir>, a: int) {
    var next := if a == 0 then 2 else a + 1;
    0 <= a && next < |order| && Compare(order[a].version, order[next].version) == 0
  }

  lemma NewerStaysNewer(order: seq<Dir>, a: nat, next: nat, j: nat)
    requires IsSortedList(order) && a < next <= j < |order| && Compare(order[a].version, order[next].version) != 0
    ensures Compare(order[j].version, order[a].version) > 0
  {
    hide Compare, VersionFits;
    var x, y, z := order[a], order[next], order[j];
    assert Ordered(VersionOf(x), VersionOf(y), false);
    assert j > next ==> Ordered(VersionOf(y), VersionOf(z), false);
    CompareIsTotal(x.version, z.version);
    CompareIsTotal(y.version, z.version);
    CompareIsTransitive(x.version, y.version, z.version);
  }

  /** Of what was kept, only the predecessor can be arranged before the active part without a tie. */
  lemma BeforeActive(order: seq<Dir>, a: nat, d: Dir) returns (k: nat)
    requires IsSortedList(order) && a < |order| && !Tie(order, a)
    requires d in Kept(order, a) && d != order[a] && Compare(d.version, order[a].version) <= 0
    ensures k < |order| && order[k] == d && k != a
    ensures |order| >= 3 ==> k == if a == 0 then 1 else a - 1
  {
    hide Compare, VersionFits, InOrder;
    var n := Doomed(order, true, a);
    var i :| 0 <= i < |Kept(order, a)| && Kept(order, a)[i] == d;
    k := n + i;
    var next := if a == 0 then 2 else a + 1;
    if next <= k { NewerStaysNewer(order, a, next, k); }
  }

  /** A second run: without a tie, no arrangement of what was kept makes the collection remove anything
      more ... */
  lemma SecondRunRemovesNothing(order: seq<Dir>, a: int, again: seq<Dir>, b: int)
    requires IsSortedList(order) && a < |order| && !Tie(order, a)
    requires Rearranges(again, Kept(order, a)) && b < |again|
    requires b >= 0 ==> a >= 0 && again[b] == order[a]
    ensures Doomed(again, true, b) == 0
  {
    hide Compare, VersionFits;
    if b >= 2 {
      assert again[0] in again && again[1] in again && again[0] != again[1];
      assert Ordered(VersionOf(again[0]), VersionOf(again[b]), false);
      assert Ordered(VersionOf(again[1]), VersionOf(again[b]), false);
      var i := BeforeActive(order, a, again[0]);
      var j := BeforeActive(order, a, again[1]);
      assert false;
    }
  }

  /** ... and with a tie, some arrangement makes it remove another part. */
  lemma TieLetsSecondRunRemove(order: seq<Dir>, a: nat) returns (again: seq<Dir>)
    requires IsSortedList(order) && a < |order| && Tie(order, a)
    ensures Rearranges(again, Kept(order, a))
    ensures |again| >= 3 && again[2] == order[a] && Doomed(again, true, 2) == 1
  {
    hide Compare, VersionFits;
    var n := Doomed(order, true, a);
    assert n == if a == 0 then 0 else a - 1;
    var kept := Kept(order, a);
    var p := a - n;
    again := kept[p := kept[2]][2 := kept[p]];
    SwapKeepsMembers(kept, again, p);
    forall i, j | 0 <= i < j < |again| ensures Ordered(VersionOf(again[i]), VersionOf(again[j]), false) {
      SwapKeepsOrder(order, a, n, i, j);
      assert again[i] == order[n + Swap(p, i)] && again[j] == order[n + Swap(p, j)];
    }
  }

  /** Everything between two versions that compare equal compares equal to them. */
  lemma TieIsAClass(order: seq<Dir>, a: nat, b: nat, i: nat, j: nat)
    requires IsSortedList(order) && a <= i <= b < |order| && a <= j <= b
    requires Compare(order[a].version, order[b].version) == 0
    ensures Compare(order[i].version, order[j].version) == 0
  {
    hide Compare, VersionFits;
    forall k | 0 <= k < |order| ensures VersionFits(order[k].version) { assert VersionFits(VersionOf(order[k])); }
    var x, y, u, v := order[a].version, order[b].version, order[i].version, order[j].version;
    CompareIsTotal(x, y);
    CompareIsTotal(x, u);
    CompareIsTotal(u, y);
    CompareIsTotal(x, v);
    CompareIsTotal(v, y);
    assert Compare(x, u) <= 0 by { assert a < i ==> Ordered(VersionOf(order[a]), VersionOf(order[i]), false); }
    assert Compare(u, y) <= 0 by { assert i < b ==> Ordered(VersionOf(order[i]), VersionOf(order[b]), false); }
    assert Compare(x, v) <= 0 by { assert a < j ==> Ordered(VersionOf(order[a]), VersionOf(order[j]), false); }
    assert Compare(v, y) <= 0 by { assert j < b ==> Ordered(VersionOf(order[j]), VersionOf(order[b]), false); }
    CompareIsTransitive(u, y, x);
    CompareIsTransitive(y, x, v);
    CompareIsTransitive(u, x, v);
    CompareIsTransitive(v, y, x);
    CompareIsTransitive(v, x, u);
    CompareIsTotal(u, v);
  }

  lemma SwapKeepsOrder(order: seq<Dir>, a: nat, n: nat, i: nat, j: nat)
    requires IsSortedList(order) && Tie(order, a) && n == (if a == 0 then 0 else a - 1) && i < j < |order| - n
    ensures Ordered(VersionOf(order[n + Swap(a - n, i)]), VersionOf(order[n + Swap(a - n, j)]), false)
  {
    hide Compare, VersionFits;
    var p, q := Swap(a - n, i), Swap(a - n, j);
    if p > q { TieIsAClass(order, a, n + 2, n + p, n + q); }
  }

  lemma SwapKeepsMembers<T>(s: seq<T>, t: seq<T>, p: nat)
    requires |s| == |t| >= 3 && p < 2 && t == s[p := s[2]][2 := s[p]]
    ensures forall d :: d in t <==> d in s
    ensures Distinct(s) ==> Distinct(t)
  {
    forall d ensures d in t <==> d in s {
      if d in s { var k :| 0 <= k < |s| && s[k] == d; assert t[Swap(p, k)] == d; }
      if d in t { var k :| 0 <= k < |t| && t[k] == d; assert s[Swap(p, k)] == d; }
    }
  }

  function Swap(p: nat, i: nat): nat { if i == p then 2 else if i == 2 then p else i }

  lemma ZeroIsLess()
    ensures VersionFits("0") && Compare("0", "1") == -1 && Compare("0", "01") == -1
  {
    ZeroFits();
    ValueOfDigit("1");
    ValueOfTwoDigits("01");
    NumberFits("0");
    CompareNumbers("0", "1");
    CompareNumbers("0", "01");
    DigitRunComparison("0", "1");
    DigitRunComparison("0", "01");
  }

  /** Two distinct versions can compare equal, so there are ties. */
  lemma TieExample()
    ensures var order := [Dir("s", "0"), Dir("s", "1"), Dir("s", "01")];
      IsSortedList(order) && Tie(order, 1)
  {
    hide Compare, VersionFits;
    LeadingZeroIsEqual();
    ZeroIsLess();
    assert "0"[0] != "1"[0] && |"01"| == 2;
  }

  /** What is installed under the name after the first `n` parts are gone. */
  lemma SameParts(order: seq<Dir>, n: nat, again: seq<Dir>, before: map<Dir, Part>, name: string, origin: string)
    requires n <= |order| && Distinct(order)
    requires forall d :: d in order <==> d in before && Matches(before[d], name, origin)
    requires var after := before - Members(order[..n]);
      forall d :: d in again <==> d in after && Matches(after[d], name, origin)
    ensures forall d :: d in again <==> d in order[n..]
  {
    hide Matches;
    forall d | d in again ensures d in order[n..] {
      assert d in order;
      var i :| 0 <= i < |order| && order[i] == d;
      assert order[i] !in order[..n];
    }
    forall d | d in order[n..] ensures d in again {
      var i :| n <= i < |order| && order[i] == d;
      assert d in order && d !in order[..n];
    }
  }

  /** The active part of what was kept is the active part of the first arrangement. */
  lemma ActiveIsSame(
    order: seq<Dir>, a: int, again: seq<Dir>, b: int, current: map<string, string>, dirs: set<Dir>, kept: set<Dir>)
    requires -1 <= a < |order| && -1 <= b < |again|
    requires forall d :: d in again ==> d in order && d in dirs && d in kept
    requires (a >= 0 || b >= 0) ==> IsActiveIndex(order, current, dirs, a)
    requires b >= 0 ==> IsActiveIndex(again, current, kept, b)
    ensures b >= 0 ==> a >= 0 && again[b] == order[a]
  {
    if b >= 0 {
      assert again[b] in again;
      var i :| 0 <= i < |order| && order[i] == again[b];
      assert IsActive(current, kept, again[b]);
    }
  }

  /** At least two versions, the active one strictly above all others. */
  ghost predicate OnTop(order: seq<Dir>, current: map<string, string>, dirs: set<Dir>) {
    && |order| >= 2 && AllVersionsFit(order, VersionOf)
    && IsActiveIndex(order, current, dirs, |order| - 1)
    && Compare(order[|order| - 2].version, order[|order| - 1].version) < 0
  }

  lemma OnTopIsLast(order: seq<Dir>, current: map<string, string>, dirs: set<Dir>, a: int)
    requires OnTop(order, current, dirs)
    ensures |order| >= 2 && AllVersionsFit(order, VersionOf) && AtMostOneActive(order, current, dirs)
    ensures Compare(order[|order| - 2].version, order[|order| - 1].version) < 0
    ensures forall i :: 0 <= i < |order| - 1 ==> !IsActive(current, dirs, order[i])
    ensures IsActiveIndex(order, current, dirs, a) ==> a == |order| - 1
  {
    hide Compare, VersionFits, IsActive;
    assert IsActive(current, dirs, order[|order| - 1]);
  }

  /** A new version above all others of its name is on top, and the one below it is the highest before. */
  lemma NewestIsOnTop(
    p: Part, origin: string, order: seq<Dir>, before: map<Dir, Part>, after: map<Dir, Part>,
    current: map<string, string>, dirs: set<Dir>)
    requires DirOf(p) !in before && after == before[DirOf(p) := p] && IsActive(current, dirs, DirOf(p))
    requires (origin == "" || origin == p.origin) && VersionFits(p.yaml.version)
    requires exists d :: d in before && Matches(before[d], p.yaml.name, origin)
    requires forall d :: d in before && Matches(before[d], p.yaml.name, origin) ==>
      d.package == QualifiedName(p) && VersionFits(d.version) && Compare(d.version, p.yaml.version) < 0
    requires Distinct(order) && forall d :: d in order <==> d in after && Matches(after[d], p.yaml.name, origin)
    requires AllVersionsFit(order, VersionOf) ==> InOrder(order, VersionOf, false)
    ensures |order| >= 2 && OnTop(order, current, dirs)
    ensures var last := order[|order| - 2];
      && last in before && Matches(before[last], p.yaml.name, origin)
      && forall d :: d in before && Matches(before[d], p.yaml.name, origin) ==> Compare(d.version, last.version) <= 0
  {
    hide Compare, VersionFits;
    var top := DirOf(p);
    forall d | d in order ensures VersionFits(VersionOf(d)) { assert d == top || d in before; }
    assert top in order;
    var i :| 0 <= i < |order| && order[i] == top;
    var n := |order|;
    if i < n - 1 {
      assert order[n - 1] in order && order[n - 1] != top;
      assert Ordered(VersionOf(top), VersionOf(order[n - 1]), false);
      CompareIsTotal(top.version, order[n - 1].version);
    }
    var other :| other in before && Matches(before[other], p.yaml.name, origin);
    assert other in order && other != top;
    forall k | 0 <= k < n - 1 ensures !IsActive(current, dirs, order[k]) {
      assert order[k] in order && order[k] != top && order[k].package == top.package;
    }
    assert order[n - 2] in order && order[n - 2] != top;
    forall d | d in before && Matches(before[d], p.yaml.name, origin)
      ensures Compare(d.version, order[n - 2].version) <= 0
    {
      assert d in order && d != top;
      var k :| 0 <= k < n && order[k] == d;
      if k < n - 2 {
        assert Ordered(VersionOf(order[k]), VersionOf(order[n - 2]), false);
      } else {
        CompareIsTotal(d.version, d.version);
      }
    }
  }

  /** With the active version strictly on top, what is kept can be arranged in one way only, and the
      second highest version is the kept predecessor. */
  lemma RollbackFindsPredecessor(order: seq<Dir>, again: seq<Dir>)
    requires IsSortedList(order) && |order| >= 2
    requires Compare(order[|order| - 2].version, order[|order| - 1].version) < 0
    requires Distinct(again) && (forall d :: d in again <==> d in order[|order| - 2..])
    requires AllVersionsFit(again, VersionOf) ==> InOrder(again, VersionOf, false)
    ensures again == [order[|order| - 2], order[|order| - 1]] && again[0].version != again[1].version
  {
    hide Compare, VersionFits;
    var x, y := order[|order| - 2], order[|order| - 1];
    assert order[|order| - 2..] == [x, y];
    TwoElements(again, x, y);
    assert again[0] in again && again[1] in again;
    CompareIsTotal(x.version, y.version);
    CompareIsTotal(x.version, x.version);
    assert Ordered(VersionOf(again[0]), VersionOf(again[1]), false);
  }

  lemma TwoElements<T>(s: seq<T>, x: T, y: T)
    requires x != y && Distinct(s) && forall d :: d in s <==> d == x || d == y
    ensures |s| == 2
  {
    OnceInDistinct(s, x);
    OnceInDistinct(s, y);
    assert x in s && y in s;
    assert forall d :: d in multiset(s) <==> d in s;
    assert multiset(s)[x] == 1 && multiset(s)[y] == 1;
    assert multiset(s) == multiset{x, y};
    assert |s| == |multiset(s)|;
  }
}
