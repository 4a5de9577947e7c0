/** Frameworks and the installed parts that name them: snappy/snapp.go, `checkForFrameworks` and `Dependents`. */
module Frameworks {
  import opened Lists
  import opened Snaps

  /** Some installed version of a framework has this name. */
  ghost predicate Provides(meta: map<Dir, Part>, f: string) {
    exists d :: d in meta && meta[d].yaml.kind == Framework && meta[d].yaml.name == f
  }

  /** Every framework that an installed snap names has an installed version. */
  ghost predicate Supported(meta: map<Dir, Part>) {
    forall d, f :: d in meta && f in meta[d].yaml.frameworks ==> Provides(meta, f)
  }

  lemma StillSupported(meta: map<Dir, Part>, p: Part)
    requires DirOf(p) !in meta && forall f :: f in p.yaml.frameworks ==> Provides(meta, f)
    ensures Supported(meta) ==> Supported(meta[DirOf(p) := p])
  {
    var larger := meta[DirOf(p) := p];
    forall f | Provides(meta, f) ensures Provides(larger, f) {
      var d :| d in meta && meta[d].yaml.kind == Framework && meta[d].yaml.name == f;
      assert d in larger && larger[d] == meta[d];
    }
  }

  lemma RemovalKeepsSupport(meta: map<Dir, Part>, gone: Dir)
    requires gone in meta && !InUse(meta, meta[gone])
    ensures Supported(meta) ==> Supported(meta - {gone})
  {
    var smaller := meta - {gone};
    if Supported(meta) {
      forall d, f | d in smaller && f in smaller[d].yaml.frameworks ensures Provides(smaller, f) {
        assert Provides(meta, f) && !IsDependent(meta, meta[gone], d);
        var e :| e in meta && meta[e].yaml.kind == Framework && meta[e].yaml.name == f;
        assert e in smaller && smaller[e] == meta[e];
      }
    }
  }

  lemma {:induction false} MissingAreAbsent(wanted: seq<string>, present: set<string>)
    ensures forall f :: f in Missing(wanted, present) <==> f in wanted && f !in present
  {
    if wanted != [] {
      MissingAreAbsent(wanted[..|wanted| - 1], present);
      assert wanted == wanted[..|wanted| - 1] + [wanted[|wanted| - 1]];
    }
  }

  /** The wanted names that are not present, in order. */
  function Missing(wanted: seq<string>, present: set<string>): seq<string> {
    if wanted == [] then []
    else
      var last := wanted[|wanted| - 1];
      Missing(wanted[..|wanted| - 1], present) + if last in present then [] else [last]
  }

  /** A framework that one of these parts names. */
  predicate InUse(meta: map<Dir, Part>, p: Part) {
    exists d :: d in meta && IsDependent(meta, p, d)
  }

  predicate IsDependent(meta: map<Dir, Part>, p: Part, d: Dir) {
    p.yaml.kind == Framework && d in meta && p.yaml.name in meta[d].yaml.frameworks
  }

  /** The first `n` parts can be uninstalled one after the other: no part that is left then names any of them. */
  ghost predicate Collectable(meta: map<Dir, Part>, order: seq<Dir>, n: nat) {
    n <= |order| &&
    forall k :: 0 <= k < n ==> order[k] in meta && !InUse(meta - Members(order[..k]), meta[order[k]])
  }

  lemma NothingToCollect(meta: map<Dir, Part>, order: seq<Dir>)
    ensures Collectable(meta, order, 0)
  {}

  lemma CollectableStep(meta: map<Dir, Part>, order: seq<Dir>, k: nat)
    requires k < |order| && order[k] in meta
    ensures Collectable(meta, order, 0)
    ensures Collectable(meta, order, k + 1)
       <==> Collectable(meta, order, k) && !InUse(meta - Members(order[..k]), meta[order[k]])
    ensures forall n :: k < n <= |order| && Collectable(meta, order, n) ==> Collectable(meta, order, k + 1)
  {
    hide InUse;
  }
}
