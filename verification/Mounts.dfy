/** The list of mounts made by the partition code and its ordered unwinding: partition/mount.go, and
    `RunWithOther` of partition/partition.go.  Every external command may fail. */
module Mounts {
  import opened Lists
  import opened Strings

  datatype Entry = Entry(source: string, target: string, options: string, bindMount: bool)

  /** The entries whose target is not among the given ones, in order. */
  function Without(mnts: seq<Entry>, targets: set<string>): seq<Entry> {
    if mnts == [] then []
    else (if mnts[0].target in targets then [] else [mnts[0]]) + Without(mnts[1..], targets)
  }

  /** The entries that undoing leaves alone. */
  function Untouched(mnts: seq<Entry>, bindMountsOnly: bool): seq<Entry> {
    if mnts == [] then []
    else (if bindMountsOnly && !mnts[0].bindMount then [mnts[0]] else []) + Untouched(mnts[1..], bindMountsOnly)
  }

  predicate ToUndo(m: Entry, bindMountsOnly: bool) { !bindMountsOnly || m.bindMount }

  function UndoTargets(mnts: seq<Entry>, bindMountsOnly: bool): set<string> {
    set m | m in mnts && ToUndo(m, bindMountsOnly) :: m.target
  }

  predicate DistinctTargets(mnts: seq<Entry>) {
    forall i, j :: 0 <= i < j < |mnts| ==> mnts[i].target != mnts[j].target
  }

  function Targets(mnts: seq<Entry>): set<string> { set m | m in mnts :: m.target }

  /** Path `p` lies strictly below the directory `q`. */
  predicate StrictlyBelow(p: string, q: string) {
    q != [] && q <= p && q != p && (q[|q| - 1] == '/' || p[|q|] == '/')
  }

  /** Spelt out: something follows the directory, behind a slash of its own or one of the path. */
  lemma BelowIs(p: string, q: string)
    requires q != []
    ensures StrictlyBelow(p, q) <==>
      exists rest :: rest != [] && p == q + rest && (q[|q| - 1] == '/' || rest[0] == '/')
  {
    if StrictlyBelow(p, q) {
      assert p == q + p[|q|..];
    }
  }

  lemma BelowExample()
    ensures StrictlyBelow(MOUNT_TARGET + "/proc", MOUNT_TARGET) && !StrictlyBelow(MOUNT_TARGET + "2", MOUNT_TARGET)
    ensures MOUNT_TARGET == "/writable/cache/system"
  {
    var rest := "/proc";
    assert rest[0] == '/' && (MOUNT_TARGET + rest)[|MOUNT_TARGET|] == '/';
    assert (MOUNT_TARGET + "2")[|MOUNT_TARGET|] == '2';
    assert MOUNT_TARGET[|MOUNT_TARGET| - 1] == 'm';
  }

  // ---------------------------------------------------------------- sorting by target, descending

  predicate Descending(mnts: seq<Entry>) {
    forall i, j :: 0 <= i < j < |mnts| ==> Le(mnts[j].target, mnts[i].target)
  }

  predicate NotBefore(m: Entry, n: Entry) { Le(n.target, m.target) }

  lemma TargetsOrder(mnts: seq<Entry>)
    ensures IsOrderOn(NotBefore, mnts)
  {
    hide Le;
    forall m, n | m in mnts && n in mnts ensures NotBefore(m, n) || NotBefore(n, m) {
      LeTotal(m.target, n.target);
    }
    forall l, m, n | l in mnts && m in mnts && n in mnts && NotBefore(l, m) && NotBefore(m, n) ensures NotBefore(l, n) {
      LeTransitive(n.target, m.target, l.target);
    }
  }

  /** `sort.Sort(sort.Reverse(mnts))` on a copy. */
  method SortReverse(mnts: seq<Entry>) returns (sorted: seq<Entry>)
    ensures Descending(sorted)
    ensures forall m :: m in sorted <==> m in mnts
  {
    sorted := SortBy(mnts, NotBefore);
    TargetsOrder(mnts);
    SortBySorts(mnts, NotBefore);
    SameMembers(sorted, mnts);
    forall i, j | 0 <= i < j < |sorted| ensures Le(sorted[j].target, sorted[i].target) {
      assert NotBefore(sorted[i], sorted[j]);
    }
  }

  method RemoveMountByTarget(mnts: seq<Entry>, target: string) returns (results: seq<Entry>)
    ensures results == Without(mnts, {target})
  {
    results := [];
    for i := 0 to |mnts|
      invariant results == Without(mnts[..i], {target})
    {
      assert mnts[..i + 1] == mnts[..i] + [mnts[i]];
      WithoutAppend(mnts[..i], [mnts[i]], {target});
      assert [mnts[i]][1..] == [];
      if mnts[i].target != target {
        results := results + [mnts[i]];
      }
    }
    assert mnts[..|mnts|] == mnts;
  }

  lemma {:induction false} WithoutAppend(a: seq<Entry>, b: seq<Entry>, targets: set<string>)
    ensures Without(a + b, targets) == Without(a, targets) + Without(b, targets)
  {
    if a == [] {
      assert a + b == b;
    } else {
      assert (a + b)[1..] == a[1..] + b;
      WithoutAppend(a[1..], b, targets);
    }
  }

  lemma {:induction false} WithoutTwice(mnts: seq<Entry>, s: set<string>, t: set<string>)
    ensures Without(Without(mnts, s), t) == Without(mnts, s + t)
  {
    if mnts != [] {
      WithoutTwice(mnts[1..], s, t);
      var rest := Without(mnts[1..], s);
      if mnts[0].target !in s {
        assert ([mnts[0]] + rest)[1..] == rest;
      } else {
        assert Without(mnts, s) == rest;
      }
    }
  }

  lemma {:induction false} WithoutNothing(mnts: seq<Entry>)
    ensures Without(mnts, {}) == mnts
  {
    if mnts != [] { WithoutNothing(mnts[1..]); }
  }

  lemma {:induction false} WithoutMembers(mnts: seq<Entry>, targets: set<string>)
    ensures forall m :: m in Without(mnts, targets) <==> m in mnts && m.target !in targets
  {
    if mnts != [] { WithoutMembers(mnts[1..], targets); }
  }

  /** Undoing leaves exactly the untouched entries, in order, if and only if none of them shares its
      target with an undone one; distinct targets are enough. */
  lemma {:induction false} UndoneListIs(mnts: seq<Entry>, bindMountsOnly: bool, targets: set<string>)
    requires forall m :: m in mnts && ToUndo(m, bindMountsOnly) ==> m.target in targets
    ensures Without(mnts, targets) == Untouched(mnts, bindMountsOnly)
       <==> forall m :: m in mnts && !ToUndo(m, bindMountsOnly) ==> m.target !in targets
  {
    if mnts != [] {
      var m, rest := mnts[0], mnts[1..];
      UndoneListIs(rest, bindMountsOnly, targets);
      assert forall x :: x in mnts <==> x == m || x in rest;
      var w, u := Without(rest, targets), Untouched(rest, bindMountsOnly);
      if ToUndo(m, bindMountsOnly) {
        assert Without(mnts, targets) == w && Untouched(mnts, bindMountsOnly) == u;
      } else if m.target in targets {
        WithoutIsShorter(rest, bindMountsOnly, targets);
        assert |Without(mnts, targets)| == |w| < |Untouched(mnts, bindMountsOnly)|;
      } else {
        assert Without(mnts, targets) == [m] + w && Untouched(mnts, bindMountsOnly) == [m] + u;
        assert [m] + w == [m] + u <==> w == u by {
          assert ([m] + w)[1..] == w && ([m] + u)[1..] == u;
        }
      }
    }
  }

  lemma {:induction false} WithoutIsShorter(mnts: seq<Entry>, bindMountsOnly: bool, targets: set<string>)
    requires forall m :: m in mnts && ToUndo(m, bindMountsOnly) ==> m.target in targets
    ensures |Without(mnts, targets)| <= |Untouched(mnts, bindMountsOnly)|
  {
    if mnts != [] { WithoutIsShorter(mnts[1..], bindMountsOnly, targets); }
  }

  lemma DistinctTargetsSuffice(mnts: seq<Entry>, bindMountsOnly: bool)
    requires DistinctTargets(mnts)
    ensures Without(mnts, UndoTargets(mnts, bindMountsOnly)) == Untouched(mnts, bindMountsOnly)
  {
    UndoneListIs(mnts, bindMountsOnly, UndoTargets(mnts, bindMountsOnly));
    forall m | m in mnts && !ToUndo(m, bindMountsOnly)
      ensures m.target !in UndoTargets(mnts, bindMountsOnly)
    {
      var i :| 0 <= i < |mnts| && mnts[i] == m;
      forall u | u in mnts && ToUndo(u, bindMountsOnly) ensures u.target != m.target {
        var j :| 0 <= j < |mnts| && mnts[j] == u;
      }
    }
  }

  lemma {:induction false} UntouchedByFullUndo(mnts: seq<Entry>)
    ensures Untouched(mnts, false) == []
  {
    if mnts != [] { UntouchedByFullUndo(mnts[1..]); }
  }

  // ---------------------------------------------------------------- the global list

  /** Targets unmounted in this order never leave a pending one strictly below: when `order[i]` goes,
      every target of `all` that is still to come is not below it. */
  predicate InnermostFirst(order: seq<string>, all: set<string>) {
    forall i, t :: 0 <= i < |order| && t in all && t !in order[..i] ==> !StrictlyBelow(t, order[i])
  }

  lemma NothingUnmounted(all: set<string>)
    ensures InnermostFirst([], all)
  {}

  lemma UndoTargetsStep(s: seq<Entry>, k: nat, bindMountsOnly: bool)
    requires k < |s|
    ensures UndoTargets(s[..k + 1], bindMountsOnly)
         == UndoTargets(s[..k], bindMountsOnly) + if ToUndo(s[k], bindMountsOnly) then {s[k].target} else {}
    ensures UndoTargets(s[..k], bindMountsOnly) <= UndoTargets(s, bindMountsOnly)
  {
    assert s[..k + 1] == s[..k] + [s[k]];
    assert forall m :: m in s[..k + 1] <==> m in s[..k] || m == s[k];
  }

  lemma UndoTargetsEnds(s: seq<Entry>, t: seq<Entry>, bindMountsOnly: bool)
    requires forall m :: m in s <==> m in t
    ensures UndoTargets(t[..0], bindMountsOnly) == {}
    ensures UndoTargets(t[..|t|], bindMountsOnly) == UndoTargets(t, bindMountsOnly) == UndoTargets(s, bindMountsOnly)
  {
    assert t[..|t|] == t;
  }

  lemma DescendingIsInnermostFirst(q: string, t: string)
    requires Le(t, q)
    ensures !StrictlyBelow(t, q)
  {
    if StrictlyBelow(t, q) { ExtensionIsGreater(q, t); }
  }

  class MountList {
    var mounts: seq<Entry>
    /** Targets that the kernel has mounted on behalf of this package. */
    var kernel: set<string>
    /** All targets unmounted so far, in order. */
    var unmounted: seq<string>
    /** The number of commands that have failed. */
    ghost var faults: nat

    predicate Valid()
      reads this
    {
      DistinctTargets(mounts) && kernel == Targets(mounts)
    }

    constructor ()
      ensures Valid() && mounts == [] && unmounted == [] && faults == 0
    {
      mounts, kernel, unmounted, faults := [], {}, [], 0;
    }

    /** One external command. */
    method Attempt() returns (ok: bool)
      modifies this`faults
      ensures faults == old(faults) + if ok then 0 else 1
    {
      ok := *;
      if !ok { faults := faults + 1; }
    }

    method MountAndAdd(m: Entry) returns (ok: bool)
      modifies this
      ensures mounts == if ok then old(mounts) + [m] else old(mounts)
      ensures unmounted == old(unmounted)
      ensures old(Valid()) && m.target !in old(kernel) ==> Valid()
      ensures kernel == if ok then old(kernel) + {m.target} else old(kernel)
      ensures faults == old(faults) + if ok then 0 else 1
    {
      ok := Attempt();
      if ok {
        mounts := mounts + [m];
        kernel := kernel + {m.target};
        assert forall e :: e in mounts <==> e == m || e in old(mounts);
      }
    }

    method UnmountAndRemove(target: string) returns (ok: bool)
      modifies this
      ensures ok ==> mounts == Without(old(mounts), {target}) && unmounted == old(unmounted) + [target]
      ensures !ok ==> mounts == old(mounts) && unmounted == old(unmounted)
      ensures kernel == if ok then old(kernel) - {target} else old(kernel)
      ensures faults == old(faults) + if ok then 0 else 1
    {
      ok := Attempt();
      if !ok { return; }
      kernel := kernel - {target};
      unmounted := unmounted + [target];
      mounts := RemoveMountByTarget(mounts, target);
    }

    /** On success everything to be undone is gone; on failure exactly what was unmounted is; in both
        cases innermost targets go first, and the list still equals what is mounted. */
    method UndoMounts(bindMountsOnly: bool) returns (ok: bool, ghost order: seq<string>)
      modifies this
      ensures unmounted == old(unmounted) + order
      ensures mounts == Without(old(mounts), Members(order))
      ensures kernel == old(kernel) - Members(order)
      ensures ok ==> Members(order) == UndoTargets(old(mounts), bindMountsOnly)
      ensures Members(order) <= UndoTargets(old(mounts), bindMountsOnly)
      ensures InnermostFirst(order, UndoTargets(old(mounts), bindMountsOnly))
      ensures old(Valid()) ==> Valid()
      ensures faults == old(faults) + if ok then 0 else 1
    {
      hide InnermostFirst, Without, UndoTargets, Descending, DistinctTargets, Targets, Members;
      var mountsCopy := SortReverse(mounts);
      order := [];
      ghost var all := UndoTargets(mounts, bindMountsOnly);
      WithoutNothing(mounts);
      MembersOfNone<string>();
      UndoTargetsEnds(mounts, mountsCopy, bindMountsOnly);
      NothingUnmounted(all);
      for k := 0 to |mountsCopy|
        invariant unmounted == old(unmounted) + order
        invariant mounts == Without(old(mounts), Members(order))
        invariant kernel == old(kernel) - Members(order)
        invariant Members(order) == UndoTargets(mountsCopy[..k], bindMountsOnly)
        invariant InnermostFirst(order, all) && faults == old(faults)
      {
        var m := mountsCopy[k];
        UndoTargetsStep(mountsCopy, k, bindMountsOnly);
        if bindMountsOnly && !m.bindMount { continue; }
        ok := UnmountAndRemove(m.target);
        if !ok {
          PendingIsValid(old(mounts), order);
          return;
        }
        WithoutTwice(old(mounts), Members(order), {m.target});
        StillInnermostFirst(mountsCopy, k, bindMountsOnly, all, order);
        MembersOfMore(order, m.target);
        order := order + [m.target];
      }
      PendingIsValid(old(mounts), order);
      ok := true;
    }

    /** Bind-mount the filesystems that the bootloader needs below the other rootfs, in order. */
    method BindRequired(binds: seq<Entry>) returns (ok: bool)
      modifies this
      ensures unmounted == old(unmounted)
      ensures ok ==> mounts == old(mounts) + binds && kernel == old(kernel) + Targets(binds)
      ensures ok && old(Valid()) && DistinctTargets(old(mounts) + binds) ==> Valid()
      ensures faults == old(faults) + if ok then 0 else 1
    {
      for k := 0 to |binds|
        invariant faults == old(faults)
        invariant unmounted == old(unmounted)
        invariant mounts == old(mounts) + binds[..k]
        invariant kernel == old(kernel) + Targets(binds[..k])
      {
        ok := MountAndAdd(binds[k]);
        if !ok { return; }
        assert binds[..k + 1] == binds[..k] + [binds[k]];
      }
      assert binds[..|binds|] == binds;
      ok := true;
    }

    /** `RunWithOther`.  `result` is what the given function returns.  Without a second rootfs it fails, and
        for reading only nothing is mounted.  Otherwise, once binding has succeeded, the deferred calls run
        whatever that result is; if they succeed, no bind mount is left and the other rootfs is mounted
        once, without options. */
    method RunWithOther(dual: bool, readWrite: bool, device: string, binds: seq<Entry>, result: bool)
      returns (ok: bool, bound: bool, cleaned: bool)
      requires forall b :: b in binds ==> b.bindMount
      modifies this
      ensures !dual || !readWrite ==>
        (ok <==> dual && result) && mounts == old(mounts) && kernel == old(kernel) && unmounted == old(unmounted)
      ensures dual && readWrite ==> (ok <==> bound && cleaned && result)
      ensures faults >= old(faults)
      ensures dual && readWrite ==> (bound && cleaned <==> faults == old(faults))
      ensures dual && readWrite && bound && cleaned && old(Valid()) &&
              DistinctTargets(Remounted(old(mounts), device) + binds) ==>
        && Valid()
        && mounts == Untouched(Remounted(old(mounts), device), true)
    {
      if !dual { return false, false, false; }
      if !readWrite { return result, false, false; }
      ok, bound, cleaned := false, false, false;
      var step := UnmountAndRemove(MOUNT_TARGET);
      if !step { return; }
      WithoutMembers(old(mounts), {MOUNT_TARGET});
      var checked := Attempt();
      if !checked { return; }
      step := MountAndAdd(Entry(device, MOUNT_TARGET, "", false));
      if !step { return; }
      ghost var base := mounts;
      assert base == Remounted(old(mounts), device);
      bound := BindRequired(binds);
      if !bound {
        var _ := Attempt();
        return;
      }
      ghost var order;
      cleaned, order := UndoMounts(true);
      var remounted := Attempt();
      if cleaned && DistinctTargets(base + binds) {
        DistinctTargetsSuffice(base + binds, true);
        UntouchedAppend(base, binds);
        UntouchedBinds(binds);
        if old(Valid()) { RemountedIsValid(old(mounts), device); }
      }
      cleaned := cleaned && remounted;
      ok := cleaned && result;
    }
  }

  const MOUNT_TARGET := "/writable/cache/system"

  /** The list after the other rootfs has been unmounted, checked and mounted again. */
  function Remounted(mnts: seq<Entry>, device: string): seq<Entry> {
    Without(mnts, {MOUNT_TARGET}) + [Entry(device, MOUNT_TARGET, "", false)]
  }

  lemma RemountedIsValid(mnts: seq<Entry>, device: string)
    requires DistinctTargets(mnts)
    ensures DistinctTargets(Remounted(mnts, device))
    ensures Targets(Remounted(mnts, device)) == Targets(mnts) + {MOUNT_TARGET}
  {
    WithoutMembers(mnts, {MOUNT_TARGET});
    WithoutDistinct(mnts, {MOUNT_TARGET});
    var kept, other := Without(mnts, {MOUNT_TARGET}), Entry(device, MOUNT_TARGET, "", false);
    assert forall m :: m in kept + [other] <==> m in kept || m == other;
    forall i | 0 <= i < |kept| ensures kept[i].target != MOUNT_TARGET { assert kept[i] in kept; }
    assert other in Remounted(mnts, device);
  }

  lemma {:induction false} UntouchedAppend(a: seq<Entry>, b: seq<Entry>)
    ensures Untouched(a + b, true) == Untouched(a, true) + Untouched(b, true)
  {
    if a == [] {
      assert a + b == b;
    } else {
      assert (a + b)[1..] == a[1..] + b;
      UntouchedAppend(a[1..], b);
    }
  }

  lemma {:induction false} UntouchedBinds(binds: seq<Entry>)
    requires forall b :: b in binds ==> b.bindMount
    ensures Untouched(binds, true) == []
  {
    if binds != [] { UntouchedBinds(binds[1..]); }
  }

  lemma PendingIsValid(mnts: seq<Entry>, order: seq<string>)
    ensures DistinctTargets(mnts) ==> DistinctTargets(Without(mnts, Members(order)))
    ensures Targets(Without(mnts, Members(order))) == Targets(mnts) - Members(order)
  {
    var gone := Members(order);
    WithoutMembers(mnts, gone);
    if DistinctTargets(mnts) { WithoutDistinct(mnts, gone); }
  }

  lemma {:induction false} WithoutDistinct(mnts: seq<Entry>, targets: set<string>)
    requires DistinctTargets(mnts)
    ensures DistinctTargets(Without(mnts, targets))
  {
    if mnts != [] {
      WithoutDistinct(mnts[1..], targets);
      WithoutMembers(mnts[1..], targets);
      var rest := Without(mnts[1..], targets);
      forall j | 0 <= j < |rest| ensures rest[j].target != mnts[0].target {
        assert rest[j] in mnts[1..];
      }
    }
  }

  /** Extending the order by the next entry of the descending list. */
  lemma StillInnermostFirst(sorted: seq<Entry>, k: nat, bindMountsOnly: bool, all: set<string>, order: seq<string>)
    requires k < |sorted| && Descending(sorted) && InnermostFirst(order, all)
    requires all == UndoTargets(sorted, bindMountsOnly)
    requires Members(order) == UndoTargets(sorted[..k], bindMountsOnly)
    ensures InnermostFirst(order + [sorted[k].target], all)
  {
    var q := sorted[k].target;
    var longer := order + [q];
    forall i, t | 0 <= i < |longer| && t in all && t !in longer[..i]
      ensures !StrictlyBelow(t, longer[i])
    {
      if i < |order| {
        assert longer[..i] == order[..i];
      } else {
        assert longer[..i] == order;
        var m :| m in sorted && ToUndo(m, bindMountsOnly) && m.target == t;
        var j :| 0 <= j < |sorted| && sorted[j] == m;
        assert t !in Members(order);
        assert forall i :: 0 <= i < k ==> sorted[i] in sorted[..k];
        assert j >= k;
        if j == k { LeTotal(t, q); }
        DescendingIsInnermostFirst(q, t);
      }
    }
  }
}
