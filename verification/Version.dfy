/** Version strings and their order: snappy/sort.go.

    Strings are byte strings, one char per byte.  The regular expressions of the source become
    predicates and functions; the two index loops and `VersionCompare` become methods, each tied
    to a recursive specification that the lemmas of this file and of its clients speak about. */
module Version {
  import opened Options
  import opened Strings

  const MAX_INT: int := 0x7fff_ffff_ffff_ffff

  // ---------------------------------------------------------------- characters

  predicate IsDigit(ch: char) { '0' <= ch <= '9' }

  predicate IsAlpha(ch: char) { 'a' <= ch <= 'z' || 'A' <= ch <= 'Z' }

  lemma CharactersAre(ch: char)
    ensures IsDigit(ch) <==> ch in "0123456789"
    ensures IsAlpha('a') && IsAlpha('z') && IsAlpha('A') && IsAlpha('Z')
    ensures !IsAlpha('`') && !IsAlpha('{') && !IsAlpha('@') && !IsAlpha('[')
  {
    var all := "0123456789";
    assert all[0] == '0' && all[1] == '1' && all[2] == '2' && all[3] == '3' && all[4] == '4';
    assert all[5] == '5' && all[6] == '6' && all[7] == '7' && all[8] == '8' && all[9] == '9' && |all| == 10;
  }

  function ChOrder(ch: char): int {
    if ch == '~' then -1
    else if IsAlpha(ch) then ch as int
    else if IsDigit(ch) then 0
    else ch as int + 256
  }

  function CmpInt(a: int, b: int): int {
    if a < b then -1 else if a > b then 1 else 0
  }

  // ---------------------------------------------------------------- zero-padded lexicographic order

  function Head(s: seq<int>): int { if s == [] then 0 else s[0] }

  function Tail<T>(s: seq<T>): (t: seq<T>)
    ensures |t| == if s == [] then 0 else |s| - 1
  {
    if s == [] then [] else s[1..]
  }

  /** Lexicographic comparison of two sequences, each continued by zeros for ever. */
  function PadLex(a: seq<int>, b: seq<int>): (r: int)
    ensures -1 <= r <= 1
    decreases |a| + |b|
  {
    if a == [] && b == [] then 0
    else if Head(a) != Head(b) then CmpInt(Head(a), Head(b))
    else PadLex(Tail(a), Tail(b))
  }

  lemma {:induction false} PadLexAntisymmetric(a: seq<int>, b: seq<int>)
    ensures PadLex(a, b) == -PadLex(b, a)
    decreases |a| + |b|
  {
    if a != [] || b != [] {
      PadLexAntisymmetric(Tail(a), Tail(b));
    }
  }

  lemma {:induction false} PadLexReflexive(a: seq<int>)
    ensures PadLex(a, a) == 0
    decreases |a|
  {
    if a != [] { PadLexReflexive(Tail(a)); }
  }

  lemma {:induction false} PadLexTransitive(a: seq<int>, b: seq<int>, c: seq<int>)
    requires PadLex(a, b) <= 0 && PadLex(b, c) <= 0
    ensures PadLex(a, c) <= 0
    ensures PadLex(a, c) == 0 <==> PadLex(a, b) == 0 && PadLex(b, c) == 0
    decreases |a| + |b| + |c|
  {
    if a != [] || b != [] || c != [] {
      if Head(a) == Head(b) && Head(b) == Head(c) {
        PadLexTransitive(Tail(a), Tail(b), Tail(c));
      }
    }
  }

  function Orders(s: string): (r: seq<int>)
    ensures |r| == |s| && forall i :: 0 <= i < |s| ==> r[i] == ChOrder(s[i])
  {
    seq(|s|, i requires 0 <= i < |s| => ChOrder(s[i]))
  }

  function From<T>(s: seq<T>, i: nat): seq<T> { if i <= |s| then s[i..] else [] }

  lemma FromStep<T>(s: seq<T>, i: nat)
    ensures Tail(From(s, i)) == From(s, i + 1)
  {}

  lemma PadLexStep(a: seq<int>, b: seq<int>, i: nat, x: int, y: int)
    requires i < |a| || i < |b|
    requires x == if i < |a| then a[i] else 0
    requires y == if i < |b| then b[i] else 0
    ensures PadLex(From(a, i), From(b, i))
         == if x != y then CmpInt(x, y) else PadLex(From(a, i + 1), From(b, i + 1))
  {
    FromStep(a, i);
    FromStep(b, i);
  }

  method CmpString(a: string, b: string) returns (r: int)
    ensures r == PadLex(Orders(a), Orders(b))
  {
    var i := 0;
    while i < |a| || i < |b|
      invariant PadLex(Orders(a), Orders(b)) == PadLex(From(Orders(a), i), From(Orders(b), i))
      decreases |a| + |b| - i
    {
      var ca := if i < |a| then a[i] else '0';
      var cb := if i < |b| then b[i] else '0';
      PadLexStep(Orders(a), Orders(b), i, ChOrder(ca), ChOrder(cb));
      if ChOrder(ca) < ChOrder(cb) { return -1; }
      if ChOrder(ca) > ChOrder(cb) { return 1; }
      i := i + 1;
    }
    return 0;
  }

  // ---------------------------------------------------------------- fragments

  predicate AllDigits(s: string) { forall i :: 0 <= i < |s| ==> IsDigit(s[i]) }

  predicate NoDigits(s: string) { forall i :: 0 <= i < |s| ==> !IsDigit(s[i]) }

  /** The decimal value of a digit string; the empty string counts as 0. */
  function Value(s: string): nat
    requires AllDigits(s)
  {
    if s == [] then 0 else 10 * Value(s[..|s| - 1]) + (s[|s| - 1] as int - '0' as int)
  }

  /** `strconv.Atoi` on a 64-bit platform: optional sign, at least one digit, no overflow. */
  function Atoi(s: string): Option<int> {
    var signed := s != [] && (s[0] == '-' || s[0] == '+');
    var digits := if signed then s[1..] else s;
    if digits == [] || !AllDigits(digits) then None
    else
      var n: int := Value(digits);
      if signed && s[0] == '-' then (if n <= MAX_INT + 1 then Some(-n) else None)
      else if n <= MAX_INT then Some(n) else None
  }

  function CmpFragment(a: string, b: string): int {
    var x, y := Atoi(a), Atoi(b);
    if x.Some? && y.Some? then CmpInt(x.value, y.value) else PadLex(Orders(a), Orders(b))
  }

  /** Length of the longest prefix whose characters are all digits (`digit`) or all non-digits. */
  function RunLength(s: string, digit: bool): (n: nat)
    ensures n <= |s|
    ensures forall i :: 0 <= i < n ==> IsDigit(s[i]) == digit
    ensures n < |s| ==> IsDigit(s[n]) != digit
  {
    if s != [] && IsDigit(s[0]) == digit then 1 + RunLength(s[1..], digit) else 0
  }

  function Flatten(frags: seq<string>): string {
    if frags == [] then "" else frags[0] + Flatten(frags[1..])
  }

  predicate Homogeneous(f: string) { f != [] && (AllDigits(f) || NoDigits(f)) }

  /** All matches of `[0-9]+|[^0-9]+`. */
  function Fragments(s: string): seq<string> {
    if s == [] then []
    else
      var n := RunLength(s, IsDigit(s[0]));
      [s[..n]] + Fragments(s[n..])
  }

  /** The matches are the maximal runs of digits and of non-digits, in order, and cover the string. */
  lemma {:induction false} FragmentsAreMaximalRuns(s: string)
    ensures var frags := Fragments(s);
      && Flatten(frags) == s
      && (s == [] <==> frags == [])
      && (s != [] ==> AllDigits(frags[0]) == IsDigit(s[0]))
      && (forall f :: f in frags ==> Homogeneous(f))
      && (forall i :: 0 <= i < |frags| - 1 ==> AllDigits(frags[i]) != AllDigits(frags[i + 1]))
  {
    if s != [] {
      var n := RunLength(s, IsDigit(s[0]));
      assert s == s[..n] + s[n..];
      FragmentsAreMaximalRuns(s[n..]);
    }
  }

  function FirstOr0(frags: seq<string>): string { if frags == [] then "0" else frags[0] }

  /** Comparison of two fragment lists, each continued by "0" for ever. */
  function CompareFragments(fa: seq<string>, fb: seq<string>): int
    decreases |fa| + |fb|
  {
    if fa == [] && fb == [] then 0
    else
      var r := CmpFragment(FirstOr0(fa), FirstOr0(fb));
      if r != 0 then r else CompareFragments(Tail(fa), Tail(fb))
  }

  method CompareFragment(a: string, b: string) returns (r: int)
    ensures r == CmpFragment(a, b)
  {
    hide PadLex, Atoi;
    var x, y := Atoi(a), Atoi(b);
    if x.Some? && y.Some? {
      return CmpInt(x.value, y.value);
    }
    r := CmpString(a, b);
  }

  lemma FragmentsStep(fa: seq<string>, fb: seq<string>, i: nat, a: string, b: string)
    requires i < |fa| || i < |fb|
    requires a == if i < |fa| then fa[i] else "0"
    requires b == if i < |fb| then fb[i] else "0"
    ensures CompareFragments(From(fa, i), From(fb, i))
         == var r := CmpFragment(a, b); if r != 0 then r else CompareFragments(From(fa, i + 1), From(fb, i + 1))
  {
    FromStep(fa, i);
    FromStep(fb, i);
  }

  lemma FragmentsEnd(fa: seq<string>, fb: seq<string>)
    requires fa == [] && fb == []
    ensures CompareFragments(fa, fb) == 0
  {}

  method CompareSubversion(va: string, vb: string) returns (r: int)
    ensures r == CompareFragments(Fragments(va), Fragments(vb))
  {
    hide CompareFragments, CmpFragment, Fragments;
    var fa, fb := Fragments(va), Fragments(vb);
    var i: nat := 0;
    while i < |fa| || i < |fb|
      invariant CompareFragments(fa, fb) == CompareFragments(From(fa, i), From(fb, i))
      decreases |fa| + |fb| - i
    {
      var a := if i < |fa| then fa[i] else "0";
      var b := if i < |fb| then fb[i] else "0";
      FragmentsStep(fa, fb, i, a, b);
      var res := CompareFragment(a, b);
      if res != 0 { return res; }
      i := i + 1;
    }
    FragmentsEnd(From(fa, i), From(fb, i));
    return 0;
  }

  // ---------------------------------------------------------------- whole versions

  predicate HasEpoch(v: string) {
    var n := RunLength(v, true);
    0 < n < |v| && v[n] == ':'
  }

  predicate IsBlank(v: string) { forall i :: 0 <= i < |v| ==> IsSpace(v[i]) }

  predicate VersionIsValid(v: string) {
    !HasEpoch(v) && multiset(v)['-'] <= 1 && !IsBlank(v)
  }

  /** What the source accepts, spelt out over the characters: some character is no space, no colon follows
      digits only, and there are no two hyphens. */
  predicate IsVersion(v: string) {
    && (exists i :: 0 <= i < |v| && !IsSpace(v[i]))
    && (forall n :: 0 < n < |v| && v[n] == ':' ==> exists k :: 0 <= k < n && !IsDigit(v[k]))
    && (forall i, j :: 0 <= i < j < |v| ==> v[i] != '-' || v[j] != '-')
  }

  lemma EpochIs(v: string)
    ensures HasEpoch(v) <==> exists n :: 0 < n < |v| && v[n] == ':' && forall k :: 0 <= k < n ==> IsDigit(v[k])
  {
    var r := RunLength(v, true);
    if n :| 0 < n < |v| && v[n] == ':' && forall k :: 0 <= k < n ==> IsDigit(v[k]) {
      assert r == n;
    }
  }

  lemma {:induction false} CountIs(v: string, ch: char)
    ensures multiset(v)[ch] <= 1 <==> forall i, j :: 0 <= i < j < |v| ==> v[i] != ch || v[j] != ch
  {
    if i, j :| 0 <= i < j < |v| && v[i] == ch && v[j] == ch {
      assert v == v[..i] + [v[i]] + v[i + 1..j] + [v[j]] + v[j + 1..];
    } else if v != [] {
      CountIs(v[1..], ch);
      assert v == [v[0]] + v[1..];
      if v[0] == ch {
        assert ch !in v[1..];
        assert multiset(v[1..])[ch] == 0;
      }
    }
  }

  /** Exactly these versions are compared as they are; any other counts as "0". */
  lemma EffectiveIs(v: string)
    ensures Effective(v) == if IsVersion(v) then v else "0"
  {
    EpochIs(v);
    CountIs(v, '-');
  }

  /** A version is its main part alone, or its main part, a hyphen and its revision. */
  lemma SplitAtHyphen(v: string)
    requires IsVersion(v)
    ensures '-' !in Main(v) && '-' !in Revision(v)
    ensures if '-' in v then v == Main(v) + "-" + Revision(v) else Main(v) == v && Revision(v) == "0"
  {
    var i := IndexOf(v, '-');
    if i < |v| {
      var rest := v[i + 1..];
      assert v == v[..i] + "-" + rest;
      assert '-' !in rest;
      assert rest[..IndexOf(rest, '-')] == rest;
    } else {
      assert v[..i] == v && "0"[0] == '0';
    }
  }

  /** The part before the first "-". */
  function Main(v: string): string { v[..IndexOf(v, '-')] }

  /** The part between the first "-" and the next one or the end; "0" when there is no "-". */
  function Revision(v: string): string {
    var i := IndexOf(v, '-');
    if i == |v| then "0" else Main(v[i + 1..])
  }

  function Effective(v: string): string { if VersionIsValid(v) then v else "0" }

  function CompareText(a: string, b: string): int { CompareFragments(Fragments(a), Fragments(b)) }

  function Compare(va: string, vb: string): int {
    var a, b := Effective(va), Effective(vb);
    var r := CompareText(Main(a), Main(b));
    if r != 0 then r else CompareText(Revision(a), Revision(b))
  }

  lemma AppendRevision(v: string)
    requires '-' !in v
    ensures Main(v + "-0") == Main(v) == v
    ensures Revision(v + "-0") == Revision(v) == "0"
  {
    var w := v + "-0";
    assert w[|v|] == '-';
    var i := IndexOf(w, '-');
    assert i >= |v| by { assert forall k :: 0 <= k < |v| ==> w[k] == v[k]; }
    assert '-' in w[..|v| + 1];
    assert w[..i] == v;
    assert w[i + 1..] == "0";
    assert IndexOf("0", '-') == 1;
    assert "0"[..1] == "0";
  }

  /** `strings.Split(v, "-")`, the pieces between the hyphens. */
  function SplitHyphen(v: string): (parts: seq<string>)
    ensures |parts| >= 1 && parts[0] == Main(v)
    ensures '-' in v ==> |parts| >= 2 && parts[1] == Revision(v)
    decreases |v|
  {
    var i := IndexOf(v, '-');
    if i == |v| then assert v[..i] == v; [v] else [v[..i]] + SplitHyphen(v[i + 1..])
  }

  method VersionCompare(versionA: string, versionB: string) returns (res: int)
    ensures res == Compare(versionA, versionB)
  {
    hide VersionIsValid, CompareFragments, Fragments, Main, Revision, SplitHyphen;
    var va, vb := versionA, versionB;
    if !VersionIsValid(va) { va := "0"; }
    if !VersionIsValid(vb) { vb := "0"; }
    if '-' !in va {
      AppendRevision(va);
      va := va + "-0";
      assert va[|va| - 2] == '-';
    }
    if '-' !in vb {
      AppendRevision(vb);
      vb := vb + "-0";
      assert vb[|vb| - 2] == '-';
    }
    var mainA, mainB := SplitHyphen(va)[0], SplitHyphen(vb)[0];
    res := CompareSubversion(mainA, mainB);
    if res != 0 { return; }
    var revA, revB := SplitHyphen(va)[1], SplitHyphen(vb)[1];
    res := CompareSubversion(revA, revB);
  }
}
