/** Versions for side-loaded snaps: helpers/helpers.go, `NewSideloadVersion`.

    The clock is a parameter.  Twelve base-32 digits keep the low sixty bits of the nanosecond count,
    so the versions are ordered like the instants taken modulo 2^60. */
module Sideload {
  import opened Options
  import opened Version
  import opened VersionOrder

  const LETTERS: string := "ABCDEFGHIJKLMNOPQRSTUVWXY" + "abcdefghijklmnopqrstuvwxy"
  const WIDTH: nat := 12

  function Pow32(k: nat): (p: nat)
    ensures p > 0
  {
    if k == 0 then 1 else 32 * Pow32(k - 1)
  }

  /** The `k` least significant base-32 digits of `n`, most significant first. */
  function Digits(n: int, k: nat): (s: string)
    ensures |s| == k
    decreases k
  {
    if k == 0 then "" else Digits(n / 32, k - 1) + [LETTERS[n % 32]]
  }

  lemma DigitsStep(n: int, k: nat, rest: string)
    requires k > 0
    ensures Digits(n, k) + rest == Digits(n / 32, k - 1) + ([LETTERS[n % 32]] + rest)
  {}

  /** `n & 31` and `n >> 5` on an int64 are the remainder and the quotient of floored division by 32. */
  method NewSideloadVersion(now: int) returns (v: string)
    ensures v == Digits(now, WIDTH)
  {
    hide Digits;
    var n := now;
    var bs := new char[WIDTH];
    assert bs[WIDTH..] == [];
    var i := WIDTH;
    while i > 0
      invariant 0 <= i <= WIDTH
      invariant Digits(now, WIDTH) == Digits(n, i) + bs[i..]
    {
      ghost var rest := bs[i..];
      DigitsStep(n, i, rest);
      i := i - 1;
      bs[i] := LETTERS[n % 32];
      assert bs[i..] == [LETTERS[n % 32]] + rest;
      n := n / 32;
    }
    assert Digits(n, 0) == [] && bs[0..] == bs[..];
    return bs[..];
  }

  lemma LettersIncrease(i: nat, j: nat)
    requires i < 32 && j < 32
    ensures IsAlpha(LETTERS[i]) && ChOrder(LETTERS[i]) == LETTERS[i] as int > 0
    ensures i < j <==> ChOrder(LETTERS[i]) < ChOrder(LETTERS[j])
    ensures i == j <==> ChOrder(LETTERS[i]) == ChOrder(LETTERS[j])
  {
    LetterAt(i);
    LetterAt(j);
  }

  lemma LetterOrder(i: nat, j: nat)
    requires i < 32 && j < 32
    ensures CmpInt(ChOrder(LETTERS[i]), ChOrder(LETTERS[j])) == CmpInt(i, j)
  {
    LettersIncrease(i, j);
    LettersIncrease(j, i);
  }

  /** The first 32 letters are A to Y, then a to g. */
  lemma LetterAt(i: nat)
    requires i < 32
    ensures LETTERS[i] as int == if i < 25 then 'A' as int + i else 'a' as int + i - 25
  {
    var upper, lower := "ABCDEFGHIJKLMNOPQRSTUVWXY", "abcdefghijklmnopqrstuvwxy";
    assert LETTERS[i] == if i < 25 then upper[i] else lower[i - 25];
  }

  lemma {:induction false} DigitsAreLetters(n: int, k: nat)
    ensures forall i :: 0 <= i < k ==> IsAlpha(Digits(n, k)[i])
    decreases k
  {
    if k > 0 {
      DigitsAreLetters(n / 32, k - 1);
      LettersIncrease(n % 32, 0);
    }
  }

  lemma {:induction false} PadLexAppend(a: seq<int>, b: seq<int>, x: int, y: int)
    requires |a| == |b|
    ensures PadLex(a + [x], b + [y]) == if PadLex(a, b) != 0 then PadLex(a, b) else CmpInt(x, y)
  {
    if a == [] {
      assert Tail([x]) == [] && Tail([y]) == [];
      assert a + [x] == [x] && b + [y] == [y];
    } else {
      assert Tail(a + [x]) == Tail(a) + [x] && Tail(b + [y]) == Tail(b) + [y];
      PadLexAppend(Tail(a), Tail(b), x, y);
    }
  }

  /** Dividing by 32 splits a residue modulo a power of 32 into its upper digits and its last one. */
  lemma ResidueSplit(n: int, p: nat)
    requires p > 0
    ensures n % (32 * p) == 32 * ((n / 32) % p) + n % 32
  {
    var q, r := n / 32, n % 32;
    var u, v := q / p, q % p;
    assert n == 32 * (p * u + v) + r;
    assert 32 * (p * u) == (32 * p) * u;
    var d := 32 * v + r;
    assert 0 <= d < 32 * p;
    assert n == (32 * p) * u + d;
    QuotientUnique(n, 32 * p, u, d);
  }

  /** Order of residues: by the upper digits, then by the last one. */
  lemma ResidueOrder(n: int, m: int, p: nat)
    requires p > 0
    ensures CmpInt(n % (32 * p), m % (32 * p))
         == if (n / 32) % p != (m / 32) % p then CmpInt((n / 32) % p, (m / 32) % p) else CmpInt(n % 32, m % 32)
  {
    ResidueSplit(n, p);
    ResidueSplit(m, p);
  }

  lemma QuotientUnique(n: int, m: nat, u: int, d: int)
    requires m > 0 && 0 <= d < m && n == m * u + d
    ensures n % m == d
  {
    var u' := n / m;
    if u > u' { MultipleAtLeast(m, u - u'); }
    if u < u' { MultipleAtLeast(m, u' - u); }
    assert m * (u - u') == m * u - m * u';
    assert m * (u' - u) == m * u' - m * u;
  }

  lemma MultipleAtLeast(m: nat, k: int)
    requires k >= 1
    ensures m * k >= m
  {
    assert m * k == m * (k - 1) + m;
  }

  /** Digit strings are ordered like the residues they encode. */
  lemma {:induction false} DigitsOrder(n: int, m: int, k: nat)
    ensures PadLex(Orders(Digits(n, k)), Orders(Digits(m, k))) == CmpInt(n % Pow32(k), m % Pow32(k))
    decreases k
  {
    if k > 0 {
      DigitsOrder(n / 32, m / 32, k - 1);
      LastDigit(n, m, k);
      ResidueOrder(n, m, Pow32(k - 1));
    }
  }

  /** The last digit decides between strings with the same upper digits. */
  lemma LastDigit(n: int, m: int, k: nat)
    requires k > 0
    ensures PadLex(Orders(Digits(n, k)), Orders(Digits(m, k)))
         == var upper := PadLex(Orders(Digits(n / 32, k - 1)), Orders(Digits(m / 32, k - 1)));
            if upper != 0 then upper else CmpInt(n % 32, m % 32)
  {
    hide ChOrder, PadLex;
    var a, b := Orders(Digits(n / 32, k - 1)), Orders(Digits(m / 32, k - 1));
    var x, y := ChOrder(LETTERS[n % 32]), ChOrder(LETTERS[m % 32]);
    assert Orders(Digits(n, k)) == a + [x] && Orders(Digits(m, k)) == b + [y];
    PadLexAppend(a, b, x, y);
    LetterOrder(n % 32, m % 32);
  }

  lemma WindowSize()
    ensures Pow32(WIDTH) == 0x1000_0000_0000_0000
  {
    assert Pow32(4) == 0x10_0000;
    assert Pow32(8) == 0x10_0000 * 0x10_0000;
  }

  predicate AllLetters(v: string) { v != [] && forall i :: 0 <= i < |v| ==> IsAlpha(v[i]) }

  /** A text of letters is a valid version without revision ... */
  lemma LettersAreValid(v: string)
    requires AllLetters(v)
    ensures VersionIsValid(v) && Main(v) == v && Revision(v) == "0"
  {
    assert IsAlpha(v[0]);
    assert RunLength(v, true) == 0;
    assert '-' !in v;
    assert v[..|v|] == v;
  }

  /** ... and a single fragment, which is not a number. */
  lemma LettersAreOneRun(v: string)
    requires AllLetters(v)
    ensures Fragments(v) == [v] && Atoi(v) == None
  {
    assert IsAlpha(v[0]);
    assert RunLength(v, false) == |v|;
    assert v[..|v|] == v && v[|v|..] == "";
  }

  lemma CompareLetters(v: string, w: string)
    requires AllLetters(v) && AllLetters(w)
    ensures Compare(v, w) == PadLex(Orders(v), Orders(w))
  {
    LettersAreOneRun(v);
    LettersAreOneRun(w);
    var r := PadLex(Orders(v), Orders(w));
    assert Tail([v]) == [] && Tail([w]) == [] && CompareFragments([], []) == 0;
    assert CompareFragments([v], [w]) == r;
    LettersAreValid(v);
    LettersAreValid(w);
    EqualRevisions();
  }

  /** Exact order of two side-load versions: that of their instants modulo 2^60 nanoseconds. */
  lemma SideloadOrder(t1: int, t2: int)
    ensures Compare(Digits(t1, WIDTH), Digits(t2, WIDTH))
         == CmpInt(t1 % 0x1000_0000_0000_0000, t2 % 0x1000_0000_0000_0000)
  {
    DigitsAreLetters(t1, WIDTH);
    DigitsAreLetters(t2, WIDTH);
    CompareLetters(Digits(t1, WIDTH), Digits(t2, WIDTH));
    DigitsOrder(t1, t2, WIDTH);
    WindowSize();
  }

  /** A later instant less than a window away gets the larger version exactly when no multiple of
      2^60 nanoseconds lies between the two. */
  lemma SideloadMonotone(t1: int, t2: int)
    requires t1 < t2 < t1 + 0x1000_0000_0000_0000
    ensures Compare(Digits(t1, WIDTH), Digits(t2, WIDTH)) == -1
       <==> t1 / 0x1000_0000_0000_0000 == t2 / 0x1000_0000_0000_0000
  {
    SideloadOrder(t1, t2);
  }

  /** Two successive nanoseconds whose versions are in the wrong order. */
  lemma WrapExample()
    ensures Compare(Digits(0x1000_0000_0000_0000, WIDTH), Digits(0xfff_ffff_ffff_ffff, WIDTH)) == -1
  {
    hide Digits, Compare;
    SideloadOrder(0x1000_0000_0000_0000, 0xfff_ffff_ffff_ffff);
  }

  /** The digits themselves: A for 0, Y for 24, a for 25 and g for 31. */
  lemma DigitsExample()
    ensures LETTERS[0] == 'A' && LETTERS[24] == 'Y' && LETTERS[25] == 'a' && LETTERS[31] == 'g'
  {}
}
