/** The list of kernel modules kept in a text file: coreconfig/config.go, `getModules` and `setModules`. */
module KernelModules {
  import opened Lists
  import opened Strings

  const NOTICE: string := "# it is auto-generated, " + "and will be overwritten."
  const HEADER: seq<string> := ["#", "# DO NOT EDIT THIS FILE", NOTICE]

  // ---------------------------------------------------------------- text

  function TrimLeft(s: string): (t: string)
    ensures |t| <= |s| && (t != [] ==> !IsSpace(t[0]))
    ensures s != [] && !IsSpace(s[0]) ==> t == s
    ensures forall ch :: ch in t ==> ch in s
    ensures t != [] ==> t[|t| - 1] == s[|s| - 1]
  {
    if s != [] && IsSpace(s[0]) then TrimLeft(s[1..]) else s
  }

  function TrimRight(s: string): (t: string)
    ensures t <= s && (t != [] ==> !IsSpace(t[|t| - 1]))
    ensures s != [] && !IsSpace(s[|s| - 1]) ==> t == s
  {
    if s != [] && IsSpace(s[|s| - 1]) then TrimRight(s[..|s| - 1]) else s
  }

  function TrimSpace(s: string): string { TrimRight(TrimLeft(s)) }

  /** A trimmed, non-empty text. */
  predicate IsEntry(e: string) { e != [] && !IsSpace(e[0]) && !IsSpace(e[|e| - 1]) }

  /** An entry that survives being written as a line and read back. */
  predicate IsPlain(e: string) { IsEntry(e) && e[0] != '#' && e[0] != ';' && NoNewline(e) }

  lemma TrimIs(s: string)
    ensures TrimSpace(s) == [] || IsEntry(TrimSpace(s))
    ensures IsEntry(s) ==> TrimSpace(s) == s
    ensures NoNewline(s) ==> NoNewline(TrimSpace(s))
  {
    var t := TrimLeft(s);
    assert forall k :: 0 <= k < |TrimRight(t)| ==> TrimRight(t)[k] == t[k] && t[k] in s;
  }

  predicate IsBlank(s: string) { forall k :: 0 <= k < |s| ==> IsSpace(s[k]) }

  lemma {:induction false} TrimLeftOf(l: string, u: string)
    requires IsBlank(l) && (u == [] || !IsSpace(u[0]))
    ensures TrimLeft(l + u) == u
  {
    if l == [] {
      assert l + u == u;
    } else {
      assert (l + u)[0] == l[0] && (l + u)[1..] == l[1..] + u;
      TrimLeftOf(l[1..], u);
    }
  }

  lemma {:induction false} TrimRightOf(u: string, r: string)
    requires IsBlank(r) && (u == [] || !IsSpace(u[|u| - 1]))
    ensures TrimRight(u + r) == u
    decreases |r|
  {
    if r == [] {
      assert u + r == u;
    } else {
      var s := u + r;
      assert s[|s| - 1] == r[|r| - 1] && s[..|s| - 1] == u + r[..|r| - 1];
      TrimRightOf(u, r[..|r| - 1]);
    }
  }

  /** Trimming takes away exactly the spaces around a text. */
  lemma TrimOf(l: string, t: string, r: string)
    requires IsBlank(l) && IsBlank(r) && (t == [] || IsEntry(t))
    ensures TrimSpace(l + t + r) == t
  {
    if t == [] {
      TrimLeftOf(l + r, []);
      assert l + t + r == (l + r) + [];
    } else {
      assert l + t + r == l + (t + r) && (t + r)[0] == t[0];
      TrimLeftOf(l, t + r);
      TrimRightOf(t, r);
    }
  }

  /** Every text is a trimmed one with spaces around it. */
  lemma TrimSplits(s: string) returns (l: string, r: string)
    ensures IsBlank(l) && IsBlank(r) && s == l + TrimSpace(s) + r
    ensures TrimSpace(s) == [] || IsEntry(TrimSpace(s))
  {
    var i, j := 0, |s|;
    while i < |s| && IsSpace(s[i])
      invariant 0 <= i <= |s| && IsBlank(s[..i])
    {
      i := i + 1;
    }
    while j > i && IsSpace(s[j - 1])
      invariant i <= j <= |s| && IsBlank(s[j..])
    {
      j := j - 1;
    }
    l, r := s[..i], s[j..];
    assert s == l + s[i..j] + r;
    TrimOf(l, s[i..j], r);
  }

  /** A line names a module exactly if it is one with spaces around it and no comment. */
  lemma EntryOfLine(line: string)
    ensures forall l, t, r :: IsBlank(l) && IsBlank(r) && IsEntry(t) && line == l + t + r ==>
      Entry(line) == if t[0] == '#' || t[0] == ';' then [] else [t]
    ensures IsBlank(line) ==> Entry(line) == []
    ensures Entry(line) != [] ==> exists l, r :: IsBlank(l) && IsBlank(r) && line == l + Entry(line)[0] + r
  {
    forall l, t, r | IsBlank(l) && IsBlank(r) && IsEntry(t) && line == l + t + r ensures TrimSpace(line) == t {
      TrimOf(l, t, r);
    }
    if IsBlank(line) {
      TrimOf(line, [], []);
      assert line + [] + [] == line;
    }
    var l, r := TrimSplits(line);
  }

  predicate IsComment(line: string) { line != [] && (line[0] == '#' || line[0] == ';') }

  /** The module named on a line, if any. */
  function Entry(line: string): seq<string> {
    var t := TrimSpace(line);
    if t == [] || IsComment(t) then [] else [t]
  }

  function Entries(lines: seq<string>): seq<string> {
    if lines == [] then [] else Entry(lines[0]) + Entries(lines[1..])
  }

  lemma EntriesStep(lines: seq<string>, k: nat)
    requires k < |lines|
    ensures Entries(lines[..k + 1]) == Entries(lines[..k]) + Entry(lines[k])
  {
    assert lines[..k + 1] == lines[..k] + [lines[k]];
    EntriesAppend(lines[..k], lines[k]);
  }

  lemma {:induction false} EntriesAppend(lines: seq<string>, line: string)
    ensures Entries(lines + [line]) == Entries(lines) + Entry(line)
  {
    if lines == [] {
      assert lines + [line] == [line] && [line][1..] == [];
    } else {
      assert (lines + [line])[1..] == lines[1..] + [line];
      EntriesAppend(lines[1..], line);
    }
  }

  /** The sorted list that a file denotes. */
  function Modules(text: string): seq<string> { SortStrings(Entries(Lines(text))) }

  /** The file that `setModules` writes for a list. */
  function Render(modules: seq<string>): string { Unlines(HEADER + modules) }

  lemma HeaderText()
    ensures Render([]) == "#\n" + "# DO NOT EDIT THIS FILE\n" + "# it is auto-generated, and will be overwritten.\n"
  {
    var a, b, c := "#", "# DO NOT EDIT THIS FILE", "# it is auto-generated, and will be overwritten.";
    assert NOTICE == c;
    assert HEADER + [] == [a] + ([b] + ([c] + []));
    hide Unlines;
    UnlinesPrepend(a, [b] + ([c] + []));
    UnlinesPrepend(b, [c] + []);
    UnlinesPrepend(c, []);
    NothingToWrite();
    assert Render([]) == (a + "\n") + (b + "\n") + (c + "\n");
  }

  // ---------------------------------------------------------------- operations

  /** One requested operation: a name adds a module unless it is there, "-" and a name removes one. */
  function Apply(m: multiset<string>, op: string): multiset<string> {
    var t := TrimSpace(op);
    if t == [] then m
    else if t[0] == '-' then m - multiset{t[1..]}
    else if t in m then m
    else m + multiset{t}
  }

  function ApplyAll(m: multiset<string>, ops: seq<string>): multiset<string> {
    if ops == [] then m else Apply(ApplyAll(m, ops[..|ops| - 1]), ops[|ops| - 1])
  }

  class ModulesFile {
    var present: bool
    var text: string

    constructor ()
      ensures !present && text == ""
    {
      present, text := false, "";
    }

    function Contents(): string
      reads this
    {
      if present then text else ""
    }

    method GetModules() returns (modules: seq<string>)
      ensures modules == Modules(Contents())
    {
      if !present {
        return [];
      }
      modules := [];
      var lines := Lines(text);
      for k := 0 to |lines|
        invariant modules == Entries(lines[..k])
      {
        EntriesStep(lines, k);
        var line := TrimSpace(lines[k]);
        if |line| == 0 { continue; }
        if line[0] == '#' || line[0] == ';' { continue; }
        modules := modules + [line];
      }
      assert lines[..|lines|] == lines;
      modules := SortStrings(modules);
    }

    /** `written` says whether the final, atomic write of the file succeeds. */
    method SetModules(ops: seq<string>, written: bool) returns (ok: bool, ghost final: seq<string>)
      modifies this
      ensures ok == written
      ensures !ok ==> present == old(present) && text == old(text)
      ensures ok ==> present && text == Render(final)
      ensures Sorted(final) && multiset(final) == ApplyAll(multiset(Modules(old(Contents()))), ops)
      ensures forall e :: e in final ==> IsEntry(e)
      ensures Distinct(Modules(old(Contents()))) ==> Distinct(final)
    {
      var list := GetModules();
      ghost var start := list;
      ModulesAreEntries(Contents());
      for i := 0 to |ops|
        invariant Sorted(list) && (forall e :: e in list ==> IsEntry(e))
        invariant multiset(list) == ApplyAll(multiset(start), ops[..i])
        invariant Distinct(start) ==> Distinct(list)
        invariant present == old(present) && text == old(text)
      {
        assert ops[..i + 1][..i] == ops[..i];
        list := ApplyToList(list, ops[i]);
      }
      assert ops[..|ops|] == ops;
      final := list;
      ok := written;
      if ok {
        var buf := RenderList(list);
        present, text := true, buf;
      }
    }
  }

  /** The body of the loop over the requested operations. */
  method ApplyToList(before: seq<string>, op: string) returns (list: seq<string>)
    requires Sorted(before) && forall e :: e in before ==> IsEntry(e)
    ensures Sorted(list) && forall e :: e in list ==> IsEntry(e)
    ensures multiset(list) == Apply(multiset(before), op)
    ensures Distinct(before) ==> Distinct(list)
  {
    hide Le, Lt, TrimSpace, Sorted, Distinct, IsEntry;
    list := before;
    TrimIs(op);
    var m := TrimSpace(op);
    if |m| == 0 { return; }
    if m[0] == '-' {
      m := m[1..];
      var idx := SearchStrings(list, m);
      FoundIffMember(list, m, idx);
      if idx == |list| || list[idx] != m {
        assert multiset(list)[m] == 0;
        return;
      }
      DeletedMembers(list, idx);
      DeletedOrder(list, idx);
      list := list[..idx] + list[idx + 1..];
    } else {
      var idx := SearchStrings(list, m);
      FoundIffMember(list, m, idx);
      if idx < |list| && list[idx] == m { return; }
      InsertedMembers(list, idx, m);
      InsertedOrder(list, idx, m);
      list := list[..idx] + [m] + list[idx..];
    }
  }

  /** The buffer that is written out. */
  method RenderList(list: seq<string>) returns (buf: string)
    ensures buf == Render(list)
  {
    buf := Unlines(HEADER);
    assert HEADER + list[..0] == HEADER;
    for i := 0 to |list|
      invariant buf == Unlines(HEADER + list[..i])
    {
      assert HEADER + list[..i + 1] == (HEADER + list[..i]) + [list[i]];
      UnlinesAppend(HEADER + list[..i], list[i]);
      buf := buf + list[i] + "\n";
    }
    assert list[..|list|] == list;
  }

  lemma {:induction false} UnlinesAppend(lines: seq<string>, line: string)
    ensures Unlines(lines + [line]) == Unlines(lines) + line + "\n"
  {
    if lines == [] {
      assert lines + [line] == [line] && [line][1..] == [];
    } else {
      assert (lines + [line])[1..] == lines[1..] + [line];
      UnlinesAppend(lines[1..], line);
    }
  }

  function Deleted(s: seq<string>, idx: nat): seq<string>
    requires idx < |s|
  {
    s[..idx] + s[idx + 1..]
  }

  function Inserted(s: seq<string>, idx: nat, x: string): seq<string>
    requires idx <= |s|
  {
    s[..idx] + [x] + s[idx..]
  }

  lemma DeletedMembers(s: seq<string>, idx: nat)
    requires idx < |s|
    ensures multiset(Deleted(s, idx)) == multiset(s) - multiset{s[idx]}
    ensures forall e :: e in Deleted(s, idx) ==> e in s
  {
    assert s == s[..idx] + [s[idx]] + s[idx + 1..];
  }

  lemma DeletedOrder(s: seq<string>, idx: nat)
    requires idx < |s|
    ensures Sorted(s) ==> Sorted(Deleted(s, idx))
    ensures Distinct(s) ==> Distinct(Deleted(s, idx))
  {
    hide Le;
    var t := Deleted(s, idx);
    forall i, j | 0 <= i < j < |t|
      ensures Sorted(s) ==> Le(t[i], t[j])
      ensures Distinct(s) ==> t[i] != t[j]
    {
      var k, l := if i < idx then i else i + 1, if j < idx then j else j + 1;
      assert t[i] == s[k] && t[j] == s[l] && k < l;
    }
  }

  lemma InsertedMembers(s: seq<string>, idx: nat, x: string)
    requires idx <= |s|
    ensures multiset(Inserted(s, idx, x)) == multiset(s) + multiset{x}
    ensures forall e :: e in Inserted(s, idx, x) ==> e == x || e in s
  {
    assert s == s[..idx] + s[idx..];
  }

  lemma InsertedOrder(s: seq<string>, idx: nat, x: string)
    requires idx <= |s| && Sorted(s)
    requires forall k :: 0 <= k < idx ==> Lt(s[k], x)
    requires forall k :: idx <= k < |s| ==> Le(x, s[k])
    ensures Sorted(Inserted(s, idx, x))
    ensures Distinct(s) && x !in s ==> Distinct(Inserted(s, idx, x))
  {
    forall k | 0 <= k < idx ensures Le(s[k], x) { LeTotal(s[k], x); }
    hide Le, Lt;
    var t := Inserted(s, idx, x);
    forall i, j | 0 <= i < j < |t|
      ensures Le(t[i], t[j])
      ensures Distinct(s) && x !in s ==> t[i] != t[j]
    {
      if i == idx {
        assert t[i] == x && t[j] == s[j - 1];
      } else if j == idx {
        assert t[i] == s[i] && t[j] == x;
      } else {
        var k, l := if i < idx then i else i - 1, if j < idx then j else j - 1;
        assert t[i] == s[k] && t[j] == s[l] && k < l;
      }
    }
  }

  // ---------------------------------------------------------------- reading back

  lemma {:induction false} EntriesArePlain(lines: seq<string>)
    requires forall l :: l in lines ==> NoNewline(l)
    ensures forall e :: e in Entries(lines) ==> IsPlain(e)
  {
    if lines != [] {
      TrimIs(lines[0]);
      assert lines[0] in lines;
      EntriesArePlain(lines[1..]);
    }
  }

  /** Whatever the file holds, what is read from it is sorted and plain. */
  lemma ModulesAreEntries(text: string)
    ensures Sorted(Modules(text))
    ensures forall e :: e in Modules(text) ==> IsPlain(e) && IsEntry(e)
  {
    var entries := Entries(Lines(text));
    LinesHaveNoNewline(text);
    EntriesArePlain(Lines(text));
    SortStringsSorts(entries);
    forall e | e in Modules(text) ensures IsPlain(e) {
      assert e in multiset(Modules(text));
      assert e in entries;
    }
  }

  lemma {:induction false} EntriesOfPlain(list: seq<string>)
    requires forall e :: e in list ==> IsPlain(e)
    ensures Entries(list) == list
  {
    if list != [] {
      assert list[0] in list;
      TrimIs(list[0]);
      EntriesOfPlain(list[1..]);
    }
  }

  lemma CommentIsSkipped(line: string, rest: seq<string>)
    requires IsEntry(line) && IsComment(line)
    ensures Entries([line] + rest) == Entries(rest)
  {
    TrimIs(line);
    assert ([line] + rest)[1..] == rest;
  }

  lemma HeaderIsSkipped(list: seq<string>)
    ensures Entries(HEADER + list) == Entries(list)
  {
    var a, b, c := HEADER[0], HEADER[1], HEADER[2];
    HeaderLines();
    assert a in HEADER && b in HEADER && c in HEADER;
    assert HEADER + list == [a] + ([b] + ([c] + list));
    CommentIsSkipped(c, list);
    CommentIsSkipped(b, [c] + list);
    CommentIsSkipped(a, [b] + ([c] + list));
  }

  lemma HeaderLines()
    ensures forall l :: l in HEADER ==> IsEntry(l) && IsComment(l) && NoNewline(l) && DropCR(l) == l
  {
    var front, back := "# it is auto-generated, ", "and will be overwritten.";
    assert NoNewline(front) && NoNewline(back);
    assert forall k :: 0 <= k < |NOTICE| ==> NOTICE[k] == if k < 24 then front[k] else back[k - 24];
    assert NOTICE[0] == '#' && NOTICE[|NOTICE| - 1] == '.';
    assert NoNewline("# DO NOT EDIT THIS FILE");
  }

  /** A sorted list of entries is read back as it was written if and only if all of it is plain: no
      newline inside and no comment character in front. */
  lemma ReadBackExactlyWhenPlain(list: seq<string>)
    requires Sorted(list) && forall e :: e in list ==> IsEntry(e)
    ensures Modules(Render(list)) == list <==> forall e :: e in list ==> IsPlain(e)
  {
    hide TrimSpace, Entries, Lines, Unlines, SortStrings, Le, Sorted;
    ModulesAreEntries(Render(list));
    if forall e :: e in list ==> IsPlain(e) {
      HeaderIsSkipped(list);
      HeaderLines();
      assert forall l :: l in HEADER + list ==> l in HEADER || l in list;
      LinesOfUnlines(HEADER + list);
      assert Lines(Render(list)) == HEADER + list;
      EntriesOfPlain(list);
      SortStringsSorts(list);
      SortedIsUnique(SortStrings(list), list);
    }
  }

  // ---------------------------------------------------------------- sets

  function ApplyToSet(s: set<string>, op: string): set<string> {
    var t := TrimSpace(op);
    if t == [] then s else if t[0] == '-' then s - {t[1..]} else s + {t}
  }

  function ApplyAllToSet(s: set<string>, ops: seq<string>): set<string> {
    if ops == [] then s else ApplyToSet(ApplyAllToSet(s, ops[..|ops| - 1]), ops[|ops| - 1])
  }

  ghost predicate IsSet(m: multiset<string>, s: set<string>) {
    forall e :: m[e] == if e in s then 1 else 0
  }

  lemma ActsLikeASetOnce(m: multiset<string>, s: set<string>, op: string)
    requires IsSet(m, s)
    ensures IsSet(Apply(m, op), ApplyToSet(s, op))
  {}

  /** Without duplicates, the operations act as on a set. */
  lemma {:induction false} ActsLikeASet(m: multiset<string>, s: set<string>, ops: seq<string>)
    requires IsSet(m, s)
    ensures IsSet(ApplyAll(m, ops), ApplyAllToSet(s, ops))
  {
    if ops != [] {
      var init := ops[..|ops| - 1];
      ActsLikeASet(m, s, init);
      ActsLikeASetOnce(ApplyAll(m, init), ApplyAllToSet(s, init), ops[|ops| - 1]);
    }
  }

  /** A removal, a blank, or the name of a module that survives being written and read. */
  predicate IsPlainOp(op: string) {
    var t := TrimSpace(op);
    t == [] || t[0] == '-' || IsPlain(t)
  }

  lemma {:induction false} PlainOpsKeepPlain(m: multiset<string>, ops: seq<string>)
    requires forall e :: e in m ==> IsPlain(e)
    requires forall op :: op in ops ==> IsPlainOp(op)
    ensures forall e :: e in ApplyAll(m, ops) ==> IsPlain(e)
  {
    if ops != [] {
      PlainOpsKeepPlain(m, ops[..|ops| - 1]);
      assert ops[|ops| - 1] in ops;
    }
  }

  /** Reading after a write: for plain operations on a file without duplicates, the unique sorted list
      of the set that results from applying the operations, in order, to the set read before. */
  lemma SetThenGet(text: string, ops: seq<string>, final: seq<string>)
    requires Distinct(Modules(text)) && forall op :: op in ops ==> IsPlainOp(op)
    requires Sorted(final) && multiset(final) == ApplyAll(multiset(Modules(text)), ops)
    ensures Modules(Render(final)) == final
    ensures Members(final) == ApplyAllToSet(Members(Modules(text)), ops)
  {
    hide Modules, TrimSpace, ApplyAll, ApplyAllToSet, Render, Le;
    var before := Modules(text);
    ModulesAreEntries(text);
    PlainOpsKeepPlain(multiset(before), ops);
    forall e | e in final ensures IsPlain(e) { assert e in multiset(final); }
    ReadBackExactlyWhenPlain(final);
    assert IsSet(multiset(before), Members(before)) by {
      forall e | e in before ensures multiset(before)[e] == 1 { OnceInDistinct(before, e); }
    }
    ActsLikeASet(multiset(before), Members(before), ops);
    var result := ApplyAllToSet(Members(before), ops);
    forall e ensures e in final <==> e in result {
      assert e in final <==> multiset(final)[e] > 0;
    }
  }

  /** A module name that is written and then taken for a comment. */
  lemma CommentExample()
    ensures Modules(Render(["#x"])) != ["#x"]
  {
    var list := ["#x"];
    assert IsEntry(list[0]) && !IsPlain(list[0]);
    assert Sorted(list);
    ReadBackExactlyWhenPlain(list);
  }
}
