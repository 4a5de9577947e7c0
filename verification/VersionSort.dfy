/** Sorting by version: `ByVersion` and `BySnapVersion` of snappy/sort.go, and `versionSort` of
    pkg/lightweight/lightweight.go.  Callers learn only that the result is some sorted arrangement. */
module VersionSort {
  import opened Lists
  import opened Version
  import opened VersionOrder

  /** In ascending (or, reversed, descending) order of the versions that `key` yields. */
  ghost predicate InOrder<T>(s: seq<T>, key: T -> string, descending: bool) {
    forall i, j :: 0 <= i < j < |s| ==> Ordered(key(s[i]), key(s[j]), descending)
  }

  predicate Ordered(v: string, w: string, descending: bool) {
    if descending then Compare(v, w) >= 0 else Compare(v, w) <= 0
  }

  /** All versions are within the bound under which they are totally ordered. */
  ghost predicate AllVersionsFit<T>(s: seq<T>, key: T -> string) {
    forall x :: x in s ==> VersionFits(key(x))
  }

  lemma OrderedTotal(v: string, w: string, descending: bool)
    requires VersionFits(v) && VersionFits(w)
    ensures Ordered(v, w, descending) || Ordered(w, v, descending)
  {
    CompareIsTotal(v, w);
  }

  lemma OrderedTransitive(u: string, v: string, w: string, descending: bool)
    requires VersionFits(u) && VersionFits(v) && VersionFits(w)
    requires Ordered(u, v, descending) && Ordered(v, w, descending)
    ensures Ordered(u, w, descending)
  {
    hide Compare, VersionFits;
    CompareIsTotal(u, v);
    CompareIsTotal(v, w);
    CompareIsTotal(u, w);
    if descending {
      CompareIsTransitive(w, v, u);
    } else {
      CompareIsTransitive(u, v, w);
    }
  }

  /** The order by version as a relation on the things that have one. */
  function By<T>(key: T -> string, descending: bool): (T, T) -> bool {
    (x, y) => Ordered(key(x), key(y), descending)
  }

  lemma VersionsOrder<T>(s: seq<T>, key: T -> string, descending: bool)
    requires AllVersionsFit(s, key)
    ensures IsOrderOn(By(key, descending), s)
  {
    hide Ordered, VersionFits;
    var le := By(key, descending);
    forall x, y | x in s && y in s ensures le(x, y) || le(y, x) {
      OrderedTotal(key(x), key(y), descending);
    }
    forall x, y, z | x in s && y in s && z in s && le(x, y) && le(y, z) ensures le(x, z) {
      OrderedTransitive(key(x), key(y), key(z), descending);
    }
  }

  method SortByVersion<T>(s: seq<T>, key: T -> string, descending: bool) returns (r: seq<T>)
    ensures multiset(r) == multiset(s)
    ensures AllVersionsFit(s, key) ==> InOrder(r, key, descending)
  {
    hide Ordered, VersionFits, IsOrderOn;
    r := SortBy(s, By(key, descending));
    if AllVersionsFit(s, key) {
      VersionsOrder(s, key, descending);
      SortBySorts(s, By(key, descending));
    }
  }
}
