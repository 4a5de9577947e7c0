/** Members of lists, and sorting by insertion with any order on the members. */
module Lists {

  predicate Distinct<T(==)>(s: seq<T>) { forall i, j :: 0 <= i < j < |s| ==> s[i] != s[j] }

  function Members<T>(s: seq<T>): set<T> { set x | x in s }

  lemma {:induction false} OnceInDistinct<T>(s: seq<T>, d: T)
    requires Distinct(s)
    ensures multiset(s)[d] <= 1
  {
    if s != [] {
      assert s == [s[0]] + s[1..];
      OnceInDistinct(s[1..], d);
      assert s[0] == d ==> d !in s[1..];
    }
  }

  /** Taking one more member from the front. */
  lemma PrefixStep<T>(s: seq<T>, k: nat)
    requires k < |s|
    ensures Members(s[..k + 1]) == Members(s[..k]) + {s[k]} && Members(s[..k]) <= Members(s) && s[k] in Members(s)
    ensures Distinct(s[..k + 1]) <==> Distinct(s[..k]) && s[k] !in s[..k]
    ensures Distinct(s) ==> Distinct(s[..k + 1])
  {
    var t := s[..k + 1];
    assert t == s[..k] + [s[k]];
    if s[k] in s[..k] {
      var i :| 0 <= i < k && s[i] == s[k];
      assert t[i] == t[k];
    }
  }

  lemma AddedAndRemoved<K, V>(m: map<K, V>, k: K, v: V)
    requires k !in m
    ensures m[k := v] - {k} == m && m - {k} == m
  {}

  lemma MembersOfNone<T>()
    ensures Members<T>([]) == {}
  {}

  lemma MembersOfMore<T>(s: seq<T>, x: T)
    ensures Members(s + [x]) == Members(s) + {x}
  {}

  lemma MembersOfSum<T>(s: seq<T>, t: seq<T>, k: nat)
    requires k <= |t|
    ensures Members(s + t) == Members(s) + Members(t)
    ensures Members((s + t)[..|s| + k]) == Members(s) + Members(t[..k])
  {
    assert (s + t)[..|s| + k] == s + t[..k];
  }

  lemma DistinctIsShortest<T>(s: seq<T>, t: seq<T>)
    requires Distinct(s) && forall x :: x in s ==> x in t
    ensures |s| <= |t|
  {
    var m, n := multiset(s), multiset(t);
    forall x ensures m[x] <= n[x] {
      OnceInDistinct(s, x);
      assert x in m ==> x in s && x in n;
    }
    assert n == m + (n - m);
  }

  // ---------------------------------------------------------------- sorting

  ghost predicate SortedBy<T>(s: seq<T>, le: (T, T) -> bool) {
    forall i, j :: 0 <= i < j < |s| ==> le(s[i], s[j])
  }

  /** The relation is a total preorder on the members of the list. */
  ghost predicate IsOrderOn<T>(le: (T, T) -> bool, s: seq<T>) {
    && (forall x, y :: x in s && y in s ==> le(x, y) || le(y, x))
    && (forall x, y, z :: x in s && y in s && z in s && le(x, y) && le(y, z) ==> le(x, z))
  }

  function InsertBy<T>(x: T, s: seq<T>, le: (T, T) -> bool): (r: seq<T>)
    ensures multiset(r) == multiset(s) + multiset{x}
  {
    if s == [] || le(x, s[0]) then [x] + s
    else
      assert s == [s[0]] + s[1..];
      [s[0]] + InsertBy(x, s[1..], le)
  }

  lemma {:induction false} InsertKeepsOrder<T>(x: T, s: seq<T>, le: (T, T) -> bool)
    requires SortedBy(s, le) && IsOrderOn(le, [x] + s)
    ensures SortedBy(InsertBy(x, s, le), le)
  {
    if s == [] {
    } else if le(x, s[0]) {
      forall j | 0 <= j < |s| ensures le(x, s[j]) {
        assert x in [x] + s && s[0] in [x] + s && s[j] in [x] + s;
      }
    } else {
      assert x in [x] + s && s[0] in [x] + s;
      assert forall y :: y in [x] + s[1..] ==> y in [x] + s;
      InsertKeepsOrder(x, s[1..], le);
      var t := InsertBy(x, s[1..], le);
      forall j | 0 <= j < |t| ensures le(s[0], t[j]) {
        assert t[j] in multiset(t);
        assert t[j] == x || t[j] in s[1..];
      }
    }
  }

  function SortBy<T>(s: seq<T>, le: (T, T) -> bool): (r: seq<T>)
    ensures multiset(r) == multiset(s)
  {
    if s == [] then []
    else
      assert s == [s[0]] + s[1..];
      InsertBy(s[0], SortBy(s[1..], le), le)
  }

  lemma SameMembers<T>(s: seq<T>, t: seq<T>)
    requires multiset(s) == multiset(t)
    ensures forall x :: x in s <==> x in t
  {
    assert forall x :: x in s <==> x in multiset(s);
  }

  lemma {:induction false} SortBySorts<T>(s: seq<T>, le: (T, T) -> bool)
    requires IsOrderOn(le, s)
    ensures SortedBy(SortBy(s, le), le)
  {
    if s != [] {
      var t, rest := SortBy(s[1..], le), s[1..];
      SortBySorts(s[1..], le);
      SameMembers(t, rest);
      forall x | x in [s[0]] + t ensures x in s {
        assert x in multiset(t) ==> x in rest;
      }
      InsertKeepsOrder(s[0], t, le);
    }
  }
}
