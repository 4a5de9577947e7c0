/** Byte-wise order of strings, sorting and binary search, as Go's string comparison and the functions
    `sort.Strings` and `sort.SearchStrings` provide them. */
module Strings {
  import opened Lists

  /** `a <= b` in lexicographic byte order. */
  predicate Le(a: string, b: string) {
    a == [] || (b != [] && (a[0] < b[0] || (a[0] == b[0] && Le(a[1..], b[1..]))))
  }

  predicate Lt(a: string, b: string) { !Le(b, a) }

  lemma {:induction false} LeTotal(a: string, b: string)
    ensures Le(a, b) || Le(b, a)
    ensures Le(a, b) && Le(b, a) <==> a == b
    decreases |a|
  {
    if a == [] {
    } else if b != [] && a[0] == b[0] {
      LeTotal(a[1..], b[1..]);
      assert a == [a[0]] + a[1..] && b == [b[0]] + b[1..];
    }
  }

  lemma {:induction false} LeTransitive(a: string, b: string, c: string)
    requires Le(a, b) && Le(b, c)
    ensures Le(a, c)
    decreases |a|
  {
    if a != [] && b != [] && c != [] && a[0] == b[0] == c[0] {
      LeTransitive(a[1..], b[1..], c[1..]);
    }
  }

  /** A proper extension of a string is greater. */
  lemma {:induction false} ExtensionIsGreater(a: string, b: string)
    requires a <= b && a != b
    ensures Lt(a, b)
    decreases |a|
  {
    if a != [] {
      assert a[0] == b[0] && a[1..] <= b[1..];
      assert a == [a[0]] + a[1..] && b == [b[0]] + b[1..];
      ExtensionIsGreater(a[1..], b[1..]);
    }
  }

  /** Spelt out: one string continues the other, or the first difference decides by byte value. */
  lemma {:induction false} LeIsLexicographic(a: string, b: string)
    ensures Le(a, b) <==> a <= b || exists i :: IsFirstDifference(a, b, i) && a[i] < b[i]
    decreases |a|
  {
    if a == [] || b == [] {
    } else if a[0] != b[0] {
      assert IsFirstDifference(a, b, 0);
    } else {
      var c, d := a[1..], b[1..];
      LeIsLexicographic(c, d);
      assert a == [a[0]] + c && b == [b[0]] + d;
      if i :| IsFirstDifference(c, d, i) && c[i] < d[i] {
        assert IsFirstDifference(a, b, i + 1) && a[i + 1] == c[i] && b[i + 1] == d[i];
      }
      if i :| IsFirstDifference(a, b, i) && a[i] < b[i] {
        assert IsFirstDifference(c, d, i - 1) && c[i - 1] == a[i] && d[i - 1] == b[i];
      }
    }
  }

  predicate IsFirstDifference(a: string, b: string, i: int) {
    0 <= i < |a| && i < |b| && a[i] != b[i] && forall k :: 0 <= k < i ==> a[k] == b[k]
  }

  predicate Sorted(s: seq<string>) {
    forall i, j :: 0 <= i < j < |s| ==> Le(s[i], s[j])
  }

  method SearchStrings(a: seq<string>, x: string) returns (idx: nat)
    requires Sorted(a)
    ensures idx <= |a|
    ensures forall k :: 0 <= k < idx ==> Lt(a[k], x)
    ensures forall k :: idx <= k < |a| ==> Le(x, a[k])
  {
    var i, j := 0, |a|;
    while i < j
      invariant 0 <= i <= j <= |a|
      invariant forall k :: 0 <= k < i ==> Lt(a[k], x)
      invariant forall k :: j <= k < |a| ==> Le(x, a[k])
    {
      var h := i + (j - i) / 2;
      if Lt(a[h], x) {
        forall k | 0 <= k < h + 1 ensures Lt(a[k], x) {
          if k < h && Le(x, a[k]) { LeTransitive(x, a[k], a[h]); }
        }
        i := h + 1;
      } else {
        forall k | h <= k < |a| ensures Le(x, a[k]) {
          if h < k { LeTransitive(x, a[h], a[k]); }
        }
        j := h;
      }
    }
    return i;
  }

  /** The search finds exactly the members. */
  lemma FoundIffMember(a: seq<string>, x: string, idx: nat)
    requires idx <= |a|
    requires forall k :: 0 <= k < idx ==> Lt(a[k], x)
    requires Sorted(a) && forall k :: idx <= k < |a| ==> Le(x, a[k])
    ensures idx < |a| && a[idx] == x <==> x in a
  {
    hide Le;
    LeTotal(x, x);
    if x in a {
      var k :| 0 <= k < |a| && a[k] == x;
      if idx < k {
        LeTotal(a[idx], x);
      }
    }
  }

  // ---------------------------------------------------------------- sorting

  lemma LeOrders(s: seq<string>)
    ensures IsOrderOn(Le, s)
  {
    hide Le;
    forall x, y | x in s && y in s ensures Le(x, y) || Le(y, x) { LeTotal(x, y); }
    forall x, y, z | x in s && y in s && z in s && Le(x, y) && Le(y, z) ensures Le(x, z) { LeTransitive(x, y, z); }
  }

  /** `sort.Strings`: the sorted arrangement, which is unique. */
  function SortStrings(s: seq<string>): seq<string> { SortBy(s, Le) }

  lemma SortStringsSorts(s: seq<string>)
    ensures Sorted(SortStrings(s)) && multiset(SortStrings(s)) == multiset(s)
  {
    hide Le;
    LeOrders(s);
    SortBySorts(s, Le);
  }

  lemma FirstOfSorted(s: seq<string>, x: string)
    requires Sorted(s) && x in s
    ensures Le(s[0], x)
  {
    hide Le;
    LeTotal(x, x);
  }

  lemma WithoutFirst<T>(s: seq<T>)
    requires s != []
    ensures multiset(s[1..]) == multiset(s) - multiset{s[0]}
  {
    assert s == [s[0]] + s[1..];
  }

  lemma {:induction false} SortedIsUnique(s: seq<string>, t: seq<string>)
    requires Sorted(s) && Sorted(t) && multiset(s) == multiset(t)
    ensures s == t
  {
    hide Le;
    assert |s| == |multiset(s)| && |t| == |multiset(t)|;
    if s != [] {
      SameMembers(s, t);
      assert s[0] in s && t[0] in t;
      FirstOfSorted(s, t[0]);
      FirstOfSorted(t, s[0]);
      LeTotal(s[0], t[0]);
      WithoutFirst(s);
      WithoutFirst(t);
      SortedIsUnique(s[1..], t[1..]);
      assert s == [s[0]] + s[1..] && t == [t[0]] + t[1..];
    }
  }

  // ---------------------------------------------------------------- lines

  /** Position of the first occurrence of `ch`, or the length of the string. */
  function IndexOf(s: string, ch: char): (i: nat)
    ensures i <= |s|
    ensures forall k :: 0 <= k < i ==> s[k] != ch
    ensures i < |s| ==> s[i] == ch
    ensures i < |s| <==> ch in s
  {
    if s == [] || s[0] == ch then 0 else 1 + IndexOf(s[1..], ch)
  }

  predicate IsSpace(ch: char) { ch == ' ' || '\t' <= ch <= '\r' }

  /** The ASCII part of `unicode.IsSpace`: tab, newline, vertical tab, form feed, carriage return, space. */
  lemma SpacesAre(ch: char)
    ensures IsSpace(ch) <==> ch in " \t\n\U{000B}\U{000C}\r"
  {
    var all := " \t\n\U{000B}\U{000C}\r";
    assert |all| == 6;
    assert all[0] == ' ' && all[1] == '\t' && all[2] == '\n' && all[5] == '\r';
    assert all[3] as int == 11 && all[4] as int == 12;
  }

  function DropCR(s: string): string { if s != [] && s[|s| - 1] == '\r' then s[..|s| - 1] else s }

  /** The tokens of `bufio.Scanner`: newline-terminated lines without a trailing carriage return; a last
      line needs no terminator but must not be empty. */
  function Lines(text: string): seq<string>
    decreases |text|
  {
    if text == [] then []
    else
      var i := IndexOf(text, '\n');
      if i == |text| then [DropCR(text)] else [DropCR(text[..i])] + Lines(text[i + 1..])
  }

  /** Every line followed by a newline. */
  function Unlines(lines: seq<string>): string {
    if lines == [] then [] else lines[0] + "\n" + Unlines(lines[1..])
  }

  predicate NoNewline(s: string) { forall k :: 0 <= k < |s| ==> s[k] != '\n' }

  lemma FirstLine(line: string, rest: string)
    requires NoNewline(line)
    ensures Lines(line + "\n" + rest) == [DropCR(line)] + Lines(rest)
  {
    var text := line + "\n" + rest;
    var i := IndexOf(text, '\n');
    assert text[|line|] == '\n';
    assert forall k :: 0 <= k < |line| ==> text[k] == line[k];
    assert i == |line|;
    assert text[..i] == line && text[i + 1..] == rest;
  }

  function DropCRs(lines: seq<string>): seq<string> {
    if lines == [] then [] else [DropCR(lines[0])] + DropCRs(lines[1..])
  }

  lemma {:induction false} DropCRsIs(lines: seq<string>)
    ensures |DropCRs(lines)| == |lines| && forall i :: 0 <= i < |lines| ==> DropCRs(lines)[i] == DropCR(lines[i])
  {
    hide DropCR;
    if lines != [] { DropCRsIs(lines[1..]); }
  }

  /** Lines that are written out come back, each without a trailing carriage return. */
  lemma {:induction false} LinesOfUnlines(lines: seq<string>)
    requires forall l :: l in lines ==> NoNewline(l)
    ensures Lines(Unlines(lines)) == DropCRs(lines)
    ensures |DropCRs(lines)| == |lines| && forall i :: 0 <= i < |lines| ==> DropCRs(lines)[i] == DropCR(lines[i])
  {
    DropCRsIs(lines);
    UnlinesRoundTrip(lines);
  }

  lemma {:induction false} UnlinesRoundTrip(lines: seq<string>)
    requires forall l :: l in lines ==> NoNewline(l)
    ensures Lines(Unlines(lines)) == DropCRs(lines)
  {
    if lines != [] {
      hide DropCR, NoNewline;
      assert lines[0] in lines;
      UnlinesRoundTrip(lines[1..]);
      FirstLine(lines[0], Unlines(lines[1..]));
    }
  }

  /** No token of the scanner contains a newline. */
  lemma {:induction false} LinesHaveNoNewline(text: string)
    ensures forall l :: l in Lines(text) ==> NoNewline(l)
    decreases |text|
  {
    if text != [] {
      var i := IndexOf(text, '\n');
      assert NoNewline(DropCR(text[..i]));
      if i < |text| {
        LinesHaveNoNewline(text[i + 1..]);
        hide DropCR, NoNewline;
        assert Lines(text) == [DropCR(text[..i])] + Lines(text[i + 1..]);
      } else {
        assert text[..i] == text;
      }
    }
  }

  /** Without carriage returns, the lines of a text are all of it: written out again they give the text back,
      with a newline at its end. */
  lemma {:induction false} UnlinesOfLines(text: string)
    requires '\r' !in text
    ensures Unlines(Lines(text)) == if text == "" || text[|text| - 1] == '\n' then text else text + "\n"
    decreases |text|
  {
    hide Lines, Unlines, IndexOf, DropCR;
    NothingToWrite();
    if text != "" {
      var i := IndexOf(text, '\n');
      if i == |text| {
        OnlyLine(text);
        UnlinesPrepend(text, []);
        assert [text] + [] == [text];
      } else {
        var line, rest := text[..i], text[i + 1..];
        assert text == line + "\n" + rest && '\r' !in line && '\r' !in rest;
        UnlinesOfLines(rest);
        NoCR(line);
        UnlinesPrepend(line, Lines(rest));
        FirstLine(line, rest);
        assert rest != "" ==> rest[|rest| - 1] == text[|text| - 1];
      }
    }
  }

  lemma NothingToWrite()
    ensures Lines("") == [] && Unlines([]) == ""
  {}

  lemma OnlyLine(text: string)
    requires text != "" && '\n' !in text && '\r' !in text
    ensures Lines(text) == [text]
  {
    NoCR(text);
  }

  lemma NoCR(s: string)
    requires '\r' !in s
    ensures DropCR(s) == s
  {}

  lemma UnlinesPrepend(line: string, rest: seq<string>)
    ensures Unlines([line] + rest) == line + "\n" + Unlines(rest)
  {
    assert ([line] + rest)[1..] == rest;
  }

  /** A carriage return before the newline does not belong to the line, one elsewhere does. */
  lemma CarriageReturnExample()
    ensures Lines("a\r\nb\rc") == ["a", "b\rc"]
  {
    var first, rest := "a\r", "b\rc";
    FirstLine(first, rest);
    assert "a\r\nb\rc" == first + "\n" + rest;
    assert first[..1] == "a" && '\n' !in rest;
  }
}
