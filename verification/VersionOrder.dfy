/** What the comparator of snappy/sort.go means: it is the version order of section 5.6.12 of the
    Debian Policy Manual, and a total preorder, on versions whose digit runs fit in an int. */
module VersionOrder {
  import opened Options
  import opened Strings
  import opened Version

  // ---------------------------------------------------------------- the policy's order

  /** A character, or the end of the part being compared. */
  datatype Symbol = End | Char(ch: char)

  function First(s: string): Symbol { if s == [] then End else Char(s[0]) }

  /** Tilde, then the end of the part, then letters, then everything else. */
  function Class(x: Symbol): nat {
    match x
    case End => 1
    case Char(ch) => if ch == '~' then 0 else if IsAlpha(ch) then 2 else 3
  }

  predicate SortsBefore(x: Symbol, y: Symbol) {
    Class(x) < Class(y) || (Class(x) == Class(y) && x.Char? && y.Char? && x.ch < y.ch)
  }

  function PolicyLexical(a: string, b: string): int
    decreases |a| + |b|
  {
    if First(a) != First(b) then (if SortsBefore(First(a), First(b)) then -1 else 1)
    else if a == [] then 0
    else PolicyLexical(a[1..], b[1..])
  }

  /** Strip and compare initial non-digit parts, then initial digit parts, and repeat. */
  function PolicyCompare(a: string, b: string): int
    decreases |a| + |b|, 1
  {
    var n, m := RunLength(a, false), RunLength(b, false);
    var r := PolicyLexical(a[..n], b[..m]);
    if r != 0 then r else PolicyDigits(a[n..], b[m..])
  }

  /** The half of the step that compares numbers; an empty digit part counts as zero. */
  function PolicyDigits(a: string, b: string): int
    requires RunLength(a, false) == 0 && RunLength(b, false) == 0
    decreases |a| + |b|, 0
  {
    var n, m := RunLength(a, true), RunLength(b, true);
    var r := CmpInt(Value(a[..n]), Value(b[..m]));
    if r != 0 then r
    else if a[n..] == [] && b[m..] == [] then 0
    else PolicyCompare(a[n..], b[m..])
  }

  /** Upstream version first, then Debian revision, an absent revision counting as "0". */
  function PolicyVersions(va: string, vb: string): int {
    var r := PolicyCompare(Main(va), Main(vb));
    if r != 0 then r else PolicyCompare(Revision(va), Revision(vb))
  }

  // ---------------------------------------------------------------- the digit-run bound

  predicate FragmentFits(f: string) {
    Homogeneous(f) && (AllDigits(f) ==> Value(f) <= MAX_INT)
  }

  predicate AllFit(frags: seq<string>) { forall f :: f in frags ==> FragmentFits(f) }

  /** Every maximal digit run denotes a number that fits in an int. */
  predicate DigitRunsFit(s: string) { AllFit(Fragments(s)) }

  predicate VersionFits(v: string) {
    var e := Effective(v);
    DigitRunsFit(Main(e)) && DigitRunsFit(Revision(e))
  }

  // ---------------------------------------------------------------- fragments as integer keys

  /** A digit run is the key [0, value], any other run the key of its character orders. */
  function Key(f: string): seq<int> {
    if AllDigits(f) then [0, Value(f)] else Orders(f)
  }

  lemma AtoiOfFragment(f: string)
    requires Homogeneous(f)
    ensures AllDigits(f) ==> Atoi(f) == if Value(f) <= MAX_INT then Some(Value(f)) else None
    ensures NoDigits(f) ==> Atoi(f) == None
  {
    if NoDigits(f) {
      if |f| > 1 { assert !IsDigit(f[1..][0]); }
      assert !IsDigit(f[0]);
    } else {
      assert IsDigit(f[0]);
    }
  }

  lemma OrderOfNonDigit(ch: char)
    requires !IsDigit(ch)
    ensures ChOrder(ch) != 0
  {}

  /** A digit run and another run differ in their first character already. */
  lemma MixedRuns(a: string, b: string)
    requires a != [] && b != [] && AllDigits(a) && NoDigits(b)
    ensures PadLex(Orders(a), Orders(b)) == CmpInt(0, ChOrder(b[0])) == PadLex(Key(a), Key(b))
    ensures PadLex(Orders(b), Orders(a)) == CmpInt(ChOrder(b[0]), 0) == PadLex(Key(b), Key(a))
    ensures ChOrder(b[0]) != 0
  {
    assert IsDigit(a[0]) && !IsDigit(b[0]);
    OrderOfNonDigit(b[0]);
    assert Head(Orders(a)) == 0 && Head(Orders(b)) == ChOrder(b[0]);
  }

  lemma KeyOfNumbers(x: int, y: int)
    ensures PadLex([0, x], [0, y]) == CmpInt(x, y)
  {
    assert Tail([0, x]) == [x] && Tail([0, y]) == [y];
    assert Tail([x]) == [] && Tail([y]) == [];
    assert PadLex([0, x], [0, y]) == PadLex([x], [y]);
  }

  lemma CmpFragmentIsKeyOrder(a: string, b: string)
    requires FragmentFits(a) && FragmentFits(b)
    ensures CmpFragment(a, b) == PadLex(Key(a), Key(b))
  {
    AtoiOfFragment(a);
    AtoiOfFragment(b);
    if AllDigits(a) && AllDigits(b) {
      KeyOfNumbers(Value(a), Value(b));
    } else if AllDigits(a) {
      MixedRuns(a, b);
    } else if AllDigits(b) {
      MixedRuns(b, a);
    }
  }

  /** Exactly when two digit runs are compared by number: both fit, or the numbers are equal. */
  lemma {:induction false} DigitRunComparison(a: string, b: string)
    requires a != [] && b != [] && AllDigits(a) && AllDigits(b)
    ensures CmpFragment(a, b) == CmpInt(Value(a), Value(b))
       <==> (Value(a) <= MAX_INT && Value(b) <= MAX_INT) || Value(a) == Value(b)
    ensures !(Value(a) <= MAX_INT && Value(b) <= MAX_INT) ==> CmpFragment(a, b) == 0
  {
    AtoiOfFragment(a);
    AtoiOfFragment(b);
    AllZeroOrders(Orders(a), Orders(b));
  }

  lemma {:induction false} AllZeroOrders(a: seq<int>, b: seq<int>)
    requires forall i :: 0 <= i < |a| ==> a[i] == 0
    requires forall i :: 0 <= i < |b| ==> b[i] == 0
    ensures PadLex(a, b) == 0
    decreases |a| + |b|
  {
    if a != [] || b != [] { AllZeroOrders(Tail(a), Tail(b)); }
  }

  lemma ZeroFits()
    ensures FragmentFits("0") && AllDigits("0") && Value("0") == 0
  {
    assert "0"[..0] == "";
    assert Value("0") == 10 * Value("0"[..0]) + 0;
  }

  // ---------------------------------------------------------------- agreement with the policy

  /** Within non-digit parts the source's order of characters is the policy's. */
  lemma {:induction false} LexicalAgrees(a: string, b: string)
    requires NoDigits(a) && NoDigits(b)
    ensures PadLex(Orders(a), Orders(b)) == PolicyLexical(a, b)
    ensures PolicyLexical(a, b) == 0 <==> a == b
    decreases |a| + |b|
  {
    if a != [] { OrderOfNonDigit(a[0]); assert Tail(Orders(a)) == Orders(a[1..]); }
    if b != [] { OrderOfNonDigit(b[0]); assert Tail(Orders(b)) == Orders(b[1..]); }
    if First(a) == First(b) && a != [] {
      LexicalAgrees(a[1..], b[1..]);
      assert a == [a[0]] + a[1..] && b == [b[0]] + b[1..];
    }
  }

  /** The first fragment is the initial non-digit part, or the initial digit part, if that is not empty. */
  lemma FirstRun(s: string, digit: bool)
    requires RunLength(s, digit) > 0
    ensures Fragments(s) == [s[..RunLength(s, digit)]] + Fragments(s[RunLength(s, digit)..])
    ensures Tail(Fragments(s)) == Fragments(s[RunLength(s, digit)..])
    ensures RunLength(s[RunLength(s, digit)..], digit) == 0
    ensures digit ==> AllDigits(s[..RunLength(s, digit)])
    ensures !digit ==> NoDigits(s[..RunLength(s, digit)])
  {
    assert IsDigit(s[0]) == digit;
  }

  lemma FitsTail(s: string, n: nat)
    requires DigitRunsFit(s) && s != [] && n == RunLength(s, IsDigit(s[0]))
    ensures FragmentFits(s[..n]) && DigitRunsFit(s[n..])
  {
    FirstRun(s, IsDigit(s[0]));
    assert s[..n] in Fragments(s);
    assert forall f :: f in Fragments(s[n..]) ==> f in Fragments(s);
  }

  /** Stripping the initial digit part, possibly empty, of a text that starts with no other character. */
  lemma StripDigits(a: string, n: nat)
    requires RunLength(a, false) == 0 && DigitRunsFit(a) && n == RunLength(a, true)
    ensures FragmentFits(FirstOr0(Fragments(a))) && AllDigits(FirstOr0(Fragments(a)))
    ensures Value(FirstOr0(Fragments(a))) == Value(a[..n])
    ensures Tail(Fragments(a)) == Fragments(a[n..]) && DigitRunsFit(a[n..])
    ensures a != [] ==> n > 0
  {
    ZeroFits();
    if a == [] {
      assert a[..n] == "" && a[n..] == "";
    } else {
      FirstRun(a, true);
      FitsTail(a, n);
    }
  }

  lemma {:induction false} DigitsAgree(a: string, b: string)
    requires RunLength(a, false) == 0 && RunLength(b, false) == 0
    requires DigitRunsFit(a) && DigitRunsFit(b)
    ensures CompareText(a, b) == PolicyDigits(a, b)
    decreases |a| + |b|, 0
  {
    var n, m := RunLength(a, true), RunLength(b, true);
    StripDigits(a, n);
    StripDigits(b, m);
    var x, y := FirstOr0(Fragments(a)), FirstOr0(Fragments(b));
    AtoiOfFragment(x);
    AtoiOfFragment(y);
    assert CmpFragment(x, y) == CmpInt(Value(a[..n]), Value(b[..m]));
    if a != [] || b != [] {
      TextAgrees(a[n..], b[m..]);
    }
  }

  /** One text begins with a non-digit part and the other does not: both orders decide there. */
  lemma OneSided(a: string, b: string)
    requires RunLength(a, false) > 0 && RunLength(b, false) == 0
    requires DigitRunsFit(a) && DigitRunsFit(b)
    ensures CompareText(a, b) == PolicyCompare(a, b) == CmpInt(ChOrder(a[0]), 0)
    ensures CompareText(b, a) == PolicyCompare(b, a) == CmpInt(0, ChOrder(a[0]))
  {
    var n, m := RunLength(a, false), RunLength(b, false);
    FirstRun(a, false);
    FitsTail(a, n);
    StripDigits(b, RunLength(b, true));
    var f, z := a[..n], FirstOr0(Fragments(b));
    AtoiOfFragment(f);
    MixedRuns(z, f);
    assert b[..m] == "" && f[0] == a[0];
    LexicalAgrees(f, "");
    LexicalAgrees("", f);
    assert Head(Orders(f)) == ChOrder(a[0]);
  }

  lemma {:induction false} TextAgrees(a: string, b: string)
    requires DigitRunsFit(a) && DigitRunsFit(b)
    ensures CompareText(a, b) == PolicyCompare(a, b)
    decreases |a| + |b|, 1
  {
    var n, m := RunLength(a, false), RunLength(b, false);
    if n == 0 && m == 0 {
      assert a[n..] == a && b[m..] == b && a[..n] == b[..m] == "";
      DigitsAgree(a, b);
    } else if m == 0 {
      OneSided(a, b);
    } else if n == 0 {
      OneSided(b, a);
    } else {
      FirstRun(a, false);
      FirstRun(b, false);
      FitsTail(a, n);
      FitsTail(b, m);
      AtoiOfFragment(a[..n]);
      LexicalAgrees(a[..n], b[..m]);
      DigitsAgree(a[n..], b[m..]);
    }
  }

  /** The comparator is the policy's order. */
  lemma ComparatorIsPolicyOrder(va: string, vb: string)
    requires IsVersion(va) && IsVersion(vb)
    requires VersionFits(va) && VersionFits(vb)
    ensures Compare(va, vb) == PolicyVersions(va, vb)
  {
    EffectiveIs(va);
    EffectiveIs(vb);
    hide Effective;
    TextAgrees(Main(va), Main(vb));
    TextAgrees(Revision(va), Revision(vb));
  }

  // ---------------------------------------------------------------- total preorder

  lemma FitsOrZero(frags: seq<string>)
    requires AllFit(frags)
    ensures FragmentFits(FirstOr0(frags)) && AllFit(Tail(frags))
  {
    ZeroFits();
  }

  lemma {:induction false} FragmentsReflexive(a: seq<string>)
    requires AllFit(a)
    ensures CompareFragments(a, a) == 0
    decreases |a|
  {
    if a != [] {
      FitsOrZero(a);
      CmpFragmentIsKeyOrder(a[0], a[0]);
      PadLexReflexive(Key(a[0]));
      FragmentsReflexive(Tail(a));
    }
  }

  lemma {:induction false} FragmentsAntisymmetric(a: seq<string>, b: seq<string>)
    requires AllFit(a) && AllFit(b)
    ensures CompareFragments(a, b) == -CompareFragments(b, a)
    decreases |a| + |b|
  {
    if a != [] || b != [] {
      FitsOrZero(a);
      FitsOrZero(b);
      var x, y := FirstOr0(a), FirstOr0(b);
      CmpFragmentIsKeyOrder(x, y);
      CmpFragmentIsKeyOrder(y, x);
      PadLexAntisymmetric(Key(x), Key(y));
      FragmentsAntisymmetric(Tail(a), Tail(b));
    }
  }

  lemma {:induction false} FragmentsTransitive(a: seq<string>, b: seq<string>, c: seq<string>)
    requires AllFit(a) && AllFit(b) && AllFit(c)
    requires CompareFragments(a, b) <= 0 && CompareFragments(b, c) <= 0
    ensures CompareFragments(a, c) <= 0
    ensures CompareFragments(a, c) == 0 <==> CompareFragments(a, b) == 0 && CompareFragments(b, c) == 0
    decreases |a| + |b| + |c|
  {
    if a != [] || b != [] || c != [] {
      FitsOrZero(a);
      FitsOrZero(b);
      FitsOrZero(c);
      var x, y, z := FirstOr0(a), FirstOr0(b), FirstOr0(c);
      UnfoldFragments(a, b);
      UnfoldFragments(b, c);
      UnfoldFragments(a, c);
      PadLexTransitive(Key(x), Key(y), Key(z));
      if PadLex(Key(x), Key(y)) == 0 && PadLex(Key(y), Key(z)) == 0 {
        FragmentsTransitive(Tail(a), Tail(b), Tail(c));
      }
    }
  }

  /** One step of the list comparison, which also describes two exhausted lists. */
  lemma UnfoldFragments(a: seq<string>, b: seq<string>)
    requires AllFit(a) && AllFit(b)
    ensures CompareFragments(a, b)
         == var r := PadLex(Key(FirstOr0(a)), Key(FirstOr0(b)));
            if r != 0 then r else CompareFragments(Tail(a), Tail(b))
  {
    FitsOrZero(a);
    FitsOrZero(b);
    CmpFragmentIsKeyOrder(FirstOr0(a), FirstOr0(b));
    PadLexReflexive(Key("0"));
  }

  /** Reflexive and sign-antisymmetric. */
  lemma CompareIsTotal(va: string, vb: string)
    requires VersionFits(va) && VersionFits(vb)
    ensures Compare(va, va) == 0
    ensures Compare(va, vb) == -Compare(vb, va)
    ensures -1 <= Compare(va, vb) <= 1
  {
    var a, b := Effective(va), Effective(vb);
    FragmentsReflexive(Fragments(Main(a)));
    FragmentsReflexive(Fragments(Revision(a)));
    FragmentsAntisymmetric(Fragments(Main(a)), Fragments(Main(b)));
    FragmentsAntisymmetric(Fragments(Revision(a)), Fragments(Revision(b)));
    FragmentsRange(Fragments(Main(a)), Fragments(Main(b)));
    FragmentsRange(Fragments(Revision(a)), Fragments(Revision(b)));
  }

  lemma {:induction false} FragmentsRange(a: seq<string>, b: seq<string>)
    ensures -1 <= CompareFragments(a, b) <= 1
    decreases |a| + |b|
  {
    if a != [] || b != [] { FragmentsRange(Tail(a), Tail(b)); }
  }

  /** Transitive, and strictly so unless all three compare equal. */
  lemma CompareIsTransitive(va: string, vb: string, vc: string)
    requires VersionFits(va) && VersionFits(vb) && VersionFits(vc)
    requires Compare(va, vb) <= 0 && Compare(vb, vc) <= 0
    ensures Compare(va, vc) <= 0
    ensures Compare(va, vc) == 0 <==> Compare(va, vb) == 0 && Compare(vb, vc) == 0
  {
    var a, b, c := Effective(va), Effective(vb), Effective(vc);
    FragmentsTransitive(Fragments(Main(a)), Fragments(Main(b)), Fragments(Main(c)));
    if CompareText(Main(a), Main(b)) == 0 && CompareText(Main(b), Main(c)) == 0 {
      FragmentsTransitive(Fragments(Revision(a)), Fragments(Revision(b)), Fragments(Revision(c)));
    }
  }

  // ---------------------------------------------------------------- what "equal" means

  function At(frags: seq<string>, i: nat): string { if i < |frags| then frags[i] else "0" }

  /** The same number, or the same string. */
  predicate SameFragment(a: string, b: string) {
    a == b || (AllDigits(a) && AllDigits(b) && Value(a) == Value(b))
  }

  lemma SameFragmentIsEqual(a: string, b: string)
    requires FragmentFits(a) && FragmentFits(b)
    ensures CmpFragment(a, b) == 0 <==> SameFragment(a, b)
  {
    CmpFragmentIsKeyOrder(a, b);
    if AllDigits(a) && AllDigits(b) {
      KeyOfNumbers(Value(a), Value(b));
    } else if AllDigits(a) {
      MixedRuns(a, b);
      assert a[0] != b[0];
    } else if AllDigits(b) {
      MixedRuns(b, a);
      assert a[0] != b[0];
    } else {
      LexicalAgrees(a, b);
    }
  }

  /** The padded fragment lists agree place by place. */
  ghost predicate SameFragments(a: seq<string>, b: seq<string>) {
    forall i: nat :: i < |a| || i < |b| ==> SameFragment(At(a, i), At(b, i))
  }

  lemma AtTail(a: seq<string>, i: nat)
    ensures At(Tail(a), i) == At(a, i + 1)
  {}

  lemma SameFragmentsStep(a: seq<string>, b: seq<string>)
    requires a != [] || b != []
    ensures SameFragments(a, b) <==> SameFragment(FirstOr0(a), FirstOr0(b)) && SameFragments(Tail(a), Tail(b))
  {
    hide SameFragment;
    assert At(a, 0) == FirstOr0(a) && At(b, 0) == FirstOr0(b);
    hide At;
    if SameFragments(a, b) {
      forall i: nat | i < |Tail(a)| || i < |Tail(b)|
        ensures SameFragment(At(Tail(a), i), At(Tail(b), i))
      {
        AtTail(a, i);
        AtTail(b, i);
        assert SameFragment(At(a, i + 1), At(b, i + 1));
      }
    }
    if SameFragment(FirstOr0(a), FirstOr0(b)) && SameFragments(Tail(a), Tail(b)) {
      forall i: nat | i < |a| || i < |b| ensures SameFragment(At(a, i), At(b, i)) {
        if i > 0 {
          AtTail(a, i - 1);
          AtTail(b, i - 1);
          assert SameFragment(At(Tail(a), i - 1), At(Tail(b), i - 1));
        }
      }
    }
  }

  lemma {:induction false} EqualFragments(a: seq<string>, b: seq<string>)
    requires AllFit(a) && AllFit(b)
    ensures CompareFragments(a, b) == 0 <==> SameFragments(a, b)
    decreases |a| + |b|
  {
    if a != [] || b != [] {
      FitsOrZero(a);
      FitsOrZero(b);
      SameFragmentIsEqual(FirstOr0(a), FirstOr0(b));
      SameFragmentsStep(a, b);
      EqualFragments(Tail(a), Tail(b));
    }
  }

  /** Two versions compare equal exactly when the padded fragment lists of both parts agree. */
  lemma EqualVersions(va: string, vb: string)
    requires IsVersion(va) && IsVersion(vb) && VersionFits(va) && VersionFits(vb)
    ensures Compare(va, vb) == 0 <==>
      && SameFragments(Fragments(Main(va)), Fragments(Main(vb)))
      && SameFragments(Fragments(Revision(va)), Fragments(Revision(vb)))
  {
    EffectiveIs(va);
    EffectiveIs(vb);
    hide Effective, IsVersion;
    EqualFragments(Fragments(Main(va)), Fragments(Main(vb)));
    EqualFragments(Fragments(Revision(va)), Fragments(Revision(vb)));
  }

  // ---------------------------------------------------------------- beyond the digit-run bound

  lemma NumberIsOneRun(v: string)
    requires v != [] && AllDigits(v)
    ensures RunLength(v, false) == 0 && RunLength(v, true) == |v|
    ensures Fragments(v) == [v]
  {
    assert IsDigit(v[0]);
    var n := RunLength(v, true);
    assert v[..n] == v && v[n..] == "";
  }

  lemma NumberIsValid(v: string)
    requires v != [] && AllDigits(v)
    ensures VersionIsValid(v) && Main(v) == v && Revision(v) == "0"
  {
    NumberIsOneRun(v);
    assert forall i :: 0 <= i < |v| ==> v[i] != '-' && !IsSpace(v[i]);
    assert '-' !in v;
    assert !IsSpace(v[0]);
    assert v[..|v|] == v;
  }

  lemma EqualRevisions()
    ensures CompareText("0", "0") == 0 && PolicyCompare("0", "0") == 0
  {
    ZeroFits();
    NumberIsOneRun("0");
    FragmentsReflexive(["0"]);
    TextAgrees("0", "0");
  }

  lemma CompareNumberTexts(a: string, b: string)
    requires a != [] && b != [] && AllDigits(a) && AllDigits(b)
    ensures CompareText(a, b) == CmpFragment(a, b)
    ensures PolicyCompare(a, b) == CmpInt(Value(a), Value(b))
  {
    NumberIsOneRun(a);
    NumberIsOneRun(b);
    assert Tail([a]) == [] && Tail([b]) == [] && CompareFragments([], []) == 0;
    assert CompareFragments([a], [b]) == CmpFragment(a, b);
    assert a[0..] == a && b[0..] == b && a[..0] == b[..0] == "";
    assert a[..|a|] == a && b[..|b|] == b && a[|a|..] == b[|b|..] == "";
  }

  lemma CompareNumbers(a: string, b: string)
    requires a != [] && b != [] && AllDigits(a) && AllDigits(b)
    ensures Compare(a, b) == CmpFragment(a, b)
    ensures PolicyVersions(a, b) == CmpInt(Value(a), Value(b))
  {
    NumberIsValid(a);
    NumberIsValid(b);
    CompareNumberTexts(a, b);
    EqualRevisions();
  }

  /** On plain numbers the bound is exact: the policy's answer comes out if and only if both numbers
      fit in an int or they are equal, and otherwise the answer is always 0. */
  lemma NumbersAgreeExactlyWithinBound(a: string, b: string)
    requires a != [] && b != [] && AllDigits(a) && AllDigits(b)
    ensures Compare(a, b) == PolicyVersions(a, b)
       <==> (Value(a) <= MAX_INT && Value(b) <= MAX_INT) || Value(a) == Value(b)
    ensures Value(a) > MAX_INT || Value(b) > MAX_INT ==> Compare(a, b) == 0
  {
    CompareNumbers(a, b);
    DigitRunComparison(a, b);
  }

  /** A number that overflows is equal to everything, so transitivity is lost with it. */
  lemma OverflowBreaksTransitivity(x: string, y: string, z: string)
    requires x != [] && AllDigits(x) && y != [] && AllDigits(y) && z != [] && AllDigits(z)
    requires Value(x) < Value(z) <= MAX_INT < Value(y)
    ensures Compare(x, y) == 0 && Compare(y, z) == 0 && Compare(x, z) == -1
  {
    NumbersAgreeExactlyWithinBound(x, y);
    NumbersAgreeExactlyWithinBound(y, z);
    NumbersAgreeExactlyWithinBound(x, z);
    CompareNumbers(x, z);
  }

  // ---------------------------------------------------------------- witnesses

  lemma ValueOfDigit(v: string)
    requires |v| == 1 && IsDigit(v[0])
    ensures AllDigits(v) && Value(v) == v[0] as int - '0' as int
  {
    assert v[..0] == "";
  }

  lemma ValueOfTwoDigits(v: string)
    requires |v| == 2 && IsDigit(v[0]) && IsDigit(v[1])
    ensures AllDigits(v) && Value(v) == 10 * (v[0] as int - '0' as int) + (v[1] as int - '0' as int)
  {
    ValueOfDigit(v[..1]);
  }

  lemma NumberFits(v: string)
    requires v != [] && AllDigits(v) && Value(v) <= MAX_INT
    ensures VersionFits(v)
  {
    NumberIsOneRun(v);
    NumberIsValid(v);
    ZeroFits();
    NumberIsOneRun("0");
  }

  /** Two distinct versions that compare equal. */
  lemma LeadingZeroIsEqual()
    ensures "1" != "01" && VersionFits("1") && VersionFits("01") && Compare("1", "01") == 0
  {
    ValueOfDigit("1");
    ValueOfTwoDigits("01");
    NumberFits("1");
    NumberFits("01");
    NumbersAgreeExactlyWithinBound("1", "01");
    CompareNumbers("1", "01");
  }

  function Pow10(k: nat): nat { if k == 0 then 1 else 10 * Pow10(k - 1) }

  lemma {:induction false} ValueOfNines(v: string)
    requires forall i :: 0 <= i < |v| ==> v[i] == '9'
    ensures AllDigits(v) && Value(v) == Pow10(|v|) - 1
  {
    if v != [] { ValueOfNines(v[..|v| - 1]); }
  }

  const OVERFLOWING := "9999999999999999999"

  /** A number beyond the bound, and what it does to the order. */
  lemma OverflowExample()
    ensures Compare("1", OVERFLOWING) == 0 && Compare(OVERFLOWING, "2") == 0 && Compare("1", "2") == -1
  {
    ValueOfNines(OVERFLOWING);
    assert Pow10(9) == 1_000_000_000;
    assert Pow10(19) == 10_000_000_000_000_000_000;
    ValueOfDigit("1");
    ValueOfDigit("2");
    OverflowBreaksTransitivity("1", OVERFLOWING, "2");
  }

  lemma ValueAt(v: string, k: nat)
    requires k < |v| && AllDigits(v)
    ensures Value(v[..0]) == 0 && Value(v[..k + 1]) == 10 * Value(v[..k]) + (v[k] as int - '0' as int)
  {
    assert v[..k + 1][..k] == v[..k];
  }

  function D(v: string, i: nat): int
    requires i < |v|
  {
    v[i] as int - '0' as int
  }

  lemma ThreeDigits(v: string, k: nat)
    requires k + 3 <= |v| && AllDigits(v)
    ensures Value(v[..k + 3]) == 1000 * Value(v[..k]) + 100 * D(v, k) + 10 * D(v, k + 1) + D(v, k + 2)
  {
    hide Value;
    ValueAt(v, k);
    ValueAt(v, k + 1);
    ValueAt(v, k + 2);
  }

  lemma DigitsNearBound(v: string)
    requires |v| == 19 && v[..18] == "922337203685477580"
    ensures D(v, 0) == 9 && D(v, 1) == 2 && D(v, 2) == 2 && D(v, 3) == 3 && D(v, 4) == 3 && D(v, 5) == 7
    ensures D(v, 6) == 2 && D(v, 7) == 0 && D(v, 8) == 3 && D(v, 9) == 6 && D(v, 10) == 8 && D(v, 11) == 5
    ensures D(v, 12) == 4 && D(v, 13) == 7 && D(v, 14) == 7 && D(v, 15) == 5 && D(v, 16) == 8 && D(v, 17) == 0
    ensures forall i :: 0 <= i < 18 ==> IsDigit(v[i])
  {
    var u := "922337203685477580";
    assert forall i :: 0 <= i < 18 ==> v[i] == u[i];
  }

  /** The value of a number that begins like the largest int. */
  lemma ValueNearBound(v: string)
    requires |v| == 19 && v[..18] == "922337203685477580" && IsDigit(v[18])
    ensures AllDigits(v) && Value(v) == 9_223_372_036_854_775_800 + D(v, 18)
  {
    hide Value, D;
    DigitsNearBound(v);
    NearBound(v);
  }

  lemma NearBound(v: string)
    requires |v| == 19 && AllDigits(v)
    requires D(v, 0) == 9 && D(v, 1) == 2 && D(v, 2) == 2 && D(v, 3) == 3 && D(v, 4) == 3 && D(v, 5) == 7
    requires D(v, 6) == 2 && D(v, 7) == 0 && D(v, 8) == 3 && D(v, 9) == 6 && D(v, 10) == 8 && D(v, 11) == 5
    requires D(v, 12) == 4 && D(v, 13) == 7 && D(v, 14) == 7 && D(v, 15) == 5 && D(v, 16) == 8 && D(v, 17) == 0
    ensures Value(v) == 9_223_372_036_854_775_800 + D(v, 18)
  {
    hide Value;
    ValueAt(v, 18);
    hide D, AllDigits;
    ThreeDigits(v, 0);
    assert Value(v[..3]) == 922;
    ThreeDigits(v, 3);
    assert Value(v[..6]) == 922_337;
    ThreeDigits(v, 6);
    assert Value(v[..9]) == 922_337_203;
    ThreeDigits(v, 9);
    assert Value(v[..12]) == 922_337_203_685;
    ThreeDigits(v, 12);
    assert Value(v[..15]) == 922_337_203_685_477;
    ThreeDigits(v, 15);
    assert v[..19] == v;
  }

  lemma BoundFor(a: string, b: string, c: string)
    requires a != [] && b != [] && c != [] && AllDigits(a) && AllDigits(b) && AllDigits(c)
    requires Value(a) == MAX_INT - 1 && Value(b) == MAX_INT && Value(c) == MAX_INT + 1
    ensures Compare(a, b) == -1 && Compare(a, c) == 0
  {
    CompareNumbers(a, b);
    DigitRunComparison(a, b);
    NumbersAgreeExactlyWithinBound(a, c);
  }

  /** The largest number that fits is compared as a number, the next one is not. */
  lemma BoundExample(a: string, b: string, c: string)
    requires a == "922337203685477580" + "6" && b == "922337203685477580" + "7" && c == "922337203685477580" + "8"
    ensures Compare(a, b) == -1 && Compare(a, c) == 0
  {
    hide Value, Compare;
    ValueNearBound(a);
    ValueNearBound(b);
    ValueNearBound(c);
    BoundFor(a, b, c);
  }

  /** Two numbers behind the same number and a dot are compared as numbers. */
  lemma DottedNumbers(m: string, x: string, y: string)
    requires m != [] && x != [] && y != [] && AllDigits(m) && AllDigits(x) && AllDigits(y)
    requires Value(m) <= MAX_INT && Value(x) <= MAX_INT && Value(y) <= MAX_INT
    ensures Compare(m + "." + x, m + "." + y) == CmpInt(Value(x), Value(y))
  {
    DottedIs(m, x);
    DottedIs(m, y);
    EqualRevisions();
    hide Compare, Value;
    DottedFragments(m, x, y);
  }

  lemma DottedIs(m: string, x: string)
    requires m != [] && x != [] && AllDigits(m) && AllDigits(x)
    ensures var v := m + "." + x;
      Effective(v) == v && Main(v) == v && Revision(v) == "0" && Fragments(v) == [m, ".", x]
  {
    var v := m + "." + x;
    DottedCharacters(m, x);
    DottedRuns(m, x);
    hide Fragments, Main, Revision, Effective;
    EffectiveIs(v);
    SplitAtHyphen(v);
  }

  lemma DottedCharacters(m: string, x: string)
    requires m != [] && x != [] && AllDigits(m) && AllDigits(x)
    ensures var v := m + "." + x;
      IsVersion(v) && '-' !in v
  {
    var v := m + "." + x;
    assert v[|m|] == '.' && (forall k :: 0 <= k < |m| ==> v[k] == m[k]);
    assert forall k :: |m| < k < |v| ==> v[k] == x[k - |m| - 1];
    assert !IsSpace(v[0]);
  }

  lemma DottedRuns(m: string, x: string)
    requires m != [] && x != [] && AllDigits(m) && AllDigits(x)
    ensures Fragments(m + "." + x) == [m, ".", x]
  {
    var v, rest := m + "." + x, "." + x;
    assert v[|m|] == '.' && IsDigit(v[0]) && !IsDigit(rest[0]) && rest[1] == x[0];
    FirstFragment(v, |m|, true);
    assert v[..|m|] == m && v[|m|..] == rest;
    FirstFragment(rest, 1, false);
    assert rest[..1] == "." && rest[1..] == x;
    NumberIsOneRun(x);
  }

  lemma FirstFragment(v: string, n: nat, digit: bool)
    requires 0 < n < |v| && IsDigit(v[n]) != digit && forall k :: 0 <= k < n ==> IsDigit(v[k]) == digit
    ensures Fragments(v) == [v[..n]] + Fragments(v[n..])
  {
    assert RunLength(v, digit) == n;
  }

  lemma DottedFragments(m: string, x: string, y: string)
    requires m != [] && x != [] && y != [] && AllDigits(m) && AllDigits(x) && AllDigits(y)
    requires Value(m) <= MAX_INT && Value(x) <= MAX_INT && Value(y) <= MAX_INT
    ensures CompareFragments([m, ".", x], [m, ".", y]) == CmpInt(Value(x), Value(y))
  {
    DigitRunComparison(m, m);
    DigitRunComparison(x, y);
    PadLexReflexive(Orders("."));
    assert Tail([m, ".", x]) == [".", x] && Tail([m, ".", y]) == [".", y];
    assert Tail([".", x]) == [x] && Tail([".", y]) == [y] && Tail([x]) == [] == Tail([y]);
    assert CmpFragment(".", ".") == 0;
    assert CompareFragments([x], [y]) == CmpFragment(x, y);
  }

  lemma DottedExample(v: string, w: string)
    requires v == "1" + "." + "2" && w == "1" + "." + "10"
    ensures Compare(v, w) == -1
  {
    ValueOfDigit("1");
    ValueOfDigit("2");
    ValueOfTwoDigits("10");
    hide Compare;
    DottedNumbers("1", "2", "10");
  }
}
