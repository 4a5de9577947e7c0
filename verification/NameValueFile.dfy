/** The text file behind u-boot's legacy environment: partition/bootloader_uboot.go, `modifyNameValueFile`. */
module NameValueFile {
  import opened Strings

  datatype Change = Change(name: string, value: string)

  function Text(c: Change): string { c.name + "=" + c.value }

  predicate HasName(line: string, name: string) { name + "=" <= line }

  /** `strings.SplitN(line, "=", 2)[1]` for a line that has a "=". */
  function ValueOf(line: string): string
    requires '=' in line
  {
    line[IndexOf(line, '=') + 1..]
  }

  lemma HasNameHasEquals(line: string, name: string)
    requires HasName(line, name)
    ensures '=' in line
  {
    assert line[|name|] == (name + "=")[|name|] == '=';
  }

  // ---------------------------------------------------------------- what the nested loops compute

  /** A line being patched, the names that matched so far, and whether some value had to change. */
  datatype Patch = Patch(line: string, hits: set<string>, changed: bool)

  function PatchWith(p: Patch, c: Change): Patch {
    if HasName(p.line, c.name) then
      HasNameHasEquals(p.line, c.name);
      if ValueOf(p.line) != c.value then Patch(Text(c), p.hits + {c.name}, true)
      else p.(hits := p.hits + {c.name})
    else p
  }

  function PatchLine(line: string, changes: seq<Change>): Patch {
    if changes == [] then Patch(line, {}, false)
    else PatchWith(PatchLine(line, changes[..|changes| - 1]), changes[|changes| - 1])
  }

  function NewLine(line: string, changes: seq<Change>): string { PatchLine(line, changes).line }

  function Patched(lines: seq<string>, changes: seq<Change>): seq<string> {
    seq(|lines|, i requires 0 <= i < |lines| => NewLine(lines[i], changes))
  }

  predicate SomeLineHits(lines: seq<string>, changes: seq<Change>, name: string) {
    exists i :: 0 <= i < |lines| && name in PatchLine(lines[i], changes).hits
  }

  predicate SomeLineChanges(lines: seq<string>, changes: seq<Change>) {
    exists i :: 0 <= i < |lines| && PatchLine(lines[i], changes).changed
  }

  /** The changes among the first `k` whose name no line matched, in order, as lines. */
  function Missing(lines: seq<string>, changes: seq<Change>, k: nat): seq<string>
    requires k <= |changes|
  {
    if k == 0 then []
    else Missing(lines, changes, k - 1) +
         (if SomeLineHits(lines, changes, changes[k - 1].name) then [] else [Text(changes[k - 1])])
  }

  /** The lines of the buffer that the code builds. */
  function NewLines(lines: seq<string>, changes: seq<Change>): seq<string> {
    Patched(lines, changes) + Missing(lines, changes, |changes|)
  }

  predicate WriteNeeded(lines: seq<string>, changes: seq<Change>) {
    SomeLineChanges(lines, changes) || Missing(lines, changes, |changes|) != []
  }

  class ConfigFile {
    var present: bool
    var text: string

    constructor (contents: string)
      ensures present && text == contents
    {
      present, text := true, contents;
    }

    /** `writable` says whether the atomic replacement of the file succeeds, if it comes to it. */
    method ModifyNameValueFile(changes: seq<Change>, writable: bool) returns (ok: bool, wrote: bool)
      modifies this
      ensures present == old(present)
      ensures !present ==> !ok && !wrote && text == old(text)
      ensures present ==> ok == (writable || !WriteNeeded(Lines(old(text)), changes))
      ensures present ==> wrote == (writable && WriteNeeded(Lines(old(text)), changes))
      ensures wrote ==> text == Unlines(NewLines(Lines(old(text)), changes))
      ensures !wrote ==> text == old(text)
    {
      if !present { return false, false; }
      var lines := Lines(text);
      var buf, updated, updateNeeded := PatchAll(lines, changes);
      var appended := AppendMissing(lines, changes, updated);
      updateNeeded := updateNeeded || appended != [];
      if !updateNeeded { return true, false; }
      ok, wrote := writable, writable;
      if wrote {
        text := Unlines(buf + appended);
      }
    }
  }

  /** The loop over the lines. */
  method PatchAll(lines: seq<string>, changes: seq<Change>)
    returns (buf: seq<string>, updated: set<string>, updateNeeded: bool)
    ensures buf == Patched(lines, changes)
    ensures forall n :: n in updated <==> SomeLineHits(lines, changes, n)
    ensures updateNeeded <==> SomeLineChanges(lines, changes)
  {
    hide PatchLine, SomeLineHits, SomeLineChanges;
    buf, updated, updateNeeded := [], {}, false;
    NoLines(changes);
    for i := 0 to |lines|
      invariant |buf| == i && forall k :: 0 <= k < i ==> buf[k] == NewLine(lines[k], changes)
      invariant forall n :: n in updated <==> SomeLineHits(lines[..i], changes, n)
      invariant updateNeeded <==> SomeLineChanges(lines[..i], changes)
    {
      var p := PatchOne(lines[i], changes);
      OneMoreLine(lines, i, changes);
      buf, updated, updateNeeded := buf + [p.line], updated + p.hits, updateNeeded || p.changed;
    }
    assert lines[..|lines|] == lines;
  }

  lemma NoLines(changes: seq<Change>)
    ensures forall n :: !SomeLineHits([], changes, n)
    ensures !SomeLineChanges([], changes)
  {}

  lemma OneMoreLine(lines: seq<string>, i: nat, changes: seq<Change>)
    requires i < |lines|
    ensures forall n :: SomeLineHits(lines[..i + 1], changes, n) <==>
      SomeLineHits(lines[..i], changes, n) || n in PatchLine(lines[i], changes).hits
    ensures SomeLineChanges(lines[..i + 1], changes) <==>
      SomeLineChanges(lines[..i], changes) || PatchLine(lines[i], changes).changed
  {
    hide PatchLine;
    var shorter, longer := lines[..i], lines[..i + 1];
    assert longer[i] == lines[i] && forall k :: 0 <= k < i ==> longer[k] == shorter[k];
  }

  /** The inner loop, over the changes. */
  method PatchOne(original: string, changes: seq<Change>) returns (p: Patch)
    ensures p == PatchLine(original, changes)
  {
    var line, hits, changed := original, {}, false;
    for k := 0 to |changes|
      invariant Patch(line, hits, changed) == PatchLine(original, changes[..k])
    {
      assert changes[..k + 1][..k] == changes[..k];
      var change := changes[k];
      if HasName(line, change.name) {
        HasNameHasEquals(line, change.name);
        var value := ValueOf(line);
        hits := hits + {change.name};
        if value != change.value {
          line := Text(change);
          changed := true;
        }
      }
    }
    assert changes[..|changes|] == changes;
    return Patch(line, hits, changed);
  }

  /** The loop that appends what no line mentioned. */
  method AppendMissing(ghost lines: seq<string>, changes: seq<Change>, updated: set<string>)
    returns (appended: seq<string>)
    requires forall n :: n in updated <==> SomeLineHits(lines, changes, n)
    ensures appended == Missing(lines, changes, |changes|)
  {
    appended := [];
    for k := 0 to |changes|
      invariant appended == Missing(lines, changes, k)
    {
      if changes[k].name !in updated {
        appended := appended + [Text(changes[k])];
      }
    }
  }

  // ---------------------------------------------------------------- what it means

  /** The text before the first "="; a line without one has no key. */
  function Key(line: string): string
    requires '=' in line
  {
    line[..IndexOf(line, '=')]
  }

  predicate IsFor(line: string, name: string) { '=' in line && Key(line) == name }

  /** Distinct names without "=". */
  predicate Clean(changes: seq<Change>) {
    && (forall i :: 0 <= i < |changes| ==> '=' !in changes[i].name)
    && (forall i, j :: 0 <= i < j < |changes| ==> changes[i].name != changes[j].name)
  }

  lemma NameIsKey(line: string, name: string)
    requires '=' !in name
    ensures HasName(line, name) <==> IsFor(line, name)
  {
    if HasName(line, name) {
      HasNameHasEquals(line, name);
      assert forall k :: 0 <= k <= |name| ==> line[k] == (name + "=")[k];
      assert forall k :: 0 <= k < |name| ==> line[k] == name[k] && name[k] in name && name[k] != '=';
      assert line[|name|] == '=';
      assert IndexOf(line, '=') == |name|;
      assert line[..|name|] == name;
    }
    if IsFor(line, name) {
      assert line[..|name| + 1] == name + "=";
    }
  }

  lemma TextIsFor(c: Change)
    requires '=' !in c.name
    ensures IsFor(Text(c), c.name) && ValueOf(Text(c)) == c.value
  {
    var t := Text(c);
    assert t[..|c.name| + 1] == c.name + "=";
    NameIsKey(t, c.name);
    assert IndexOf(t, '=') == |c.name|;
  }

  lemma LineFromParts(line: string, c: Change)
    requires '=' !in c.name && IsFor(line, c.name) && ValueOf(line) == c.value
    ensures line == Text(c)
  {
    assert line == line[..IndexOf(line, '=')] + [line[IndexOf(line, '=')]] + line[IndexOf(line, '=') + 1..];
  }

  /** Patching by clean changes: only the change named on the line acts, and it acts by replacing the value. */
  lemma {:induction false} PatchLineIs(line: string, changes: seq<Change>)
    requires Clean(changes)
    ensures forall i :: 0 <= i < |changes| && IsFor(line, changes[i].name) ==>
      PatchLine(line, changes) == Patch(Text(changes[i]), {changes[i].name}, line != Text(changes[i]))
    ensures (forall i :: 0 <= i < |changes| ==> !IsFor(line, changes[i].name)) ==>
      PatchLine(line, changes) == Patch(line, {}, false)
  {
    if changes != [] {
      var init, c := changes[..|changes| - 1], changes[|changes| - 1];
      assert forall i :: 0 <= i < |init| ==> init[i] == changes[i];
      PatchLineIs(line, init);
      if i :| 0 <= i < |init| && IsFor(line, init[i].name) {
        assert changes[i].name != c.name;
        TextIsFor(init[i]);
        NameIsKey(Text(init[i]), c.name);
      } else {
        PatchLastChange(line, c);
      }
    }
  }

  lemma PatchLastChange(line: string, c: Change)
    requires '=' !in c.name
    ensures PatchWith(Patch(line, {}, false), c)
         == if IsFor(line, c.name) then Patch(Text(c), {c.name}, line != Text(c)) else Patch(line, {}, false)
  {
    NameIsKey(line, c.name);
    TextIsFor(c);
    if IsFor(line, c.name) && ValueOf(line) == c.value { LineFromParts(line, c); }
  }

  predicate SomeLineIsFor(lines: seq<string>, name: string) {
    exists i :: 0 <= i < |lines| && IsFor(lines[i], name)
  }

  /** Lines for a changed name carry the new value, all other lines keep their text and place. */
  lemma PatchedLine(lines: seq<string>, changes: seq<Change>, i: nat)
    requires Clean(changes) && i < |lines|
    ensures forall j :: 0 <= j < |changes| && IsFor(lines[i], changes[j].name) ==>
      NewLines(lines, changes)[i] == Text(changes[j])
    ensures (forall j :: 0 <= j < |changes| ==> !IsFor(lines[i], changes[j].name)) ==>
      NewLines(lines, changes)[i] == lines[i]
  {
    PatchLineIs(lines[i], changes);
  }

  lemma HitsAreKeys(lines: seq<string>, changes: seq<Change>, j: nat)
    requires Clean(changes) && j < |changes|
    ensures SomeLineHits(lines, changes, changes[j].name) <==> SomeLineIsFor(lines, changes[j].name)
  {
    forall i | 0 <= i < |lines|
      ensures changes[j].name in PatchLine(lines[i], changes).hits <==> IsFor(lines[i], changes[j].name)
    {
      PatchLineIs(lines[i], changes);
    }
    if SomeLineHits(lines, changes, changes[j].name) {
      var i :| 0 <= i < |lines| && changes[j].name in PatchLine(lines[i], changes).hits;
      assert IsFor(lines[i], changes[j].name);
    }
    if SomeLineIsFor(lines, changes[j].name) {
      var i :| 0 <= i < |lines| && IsFor(lines[i], changes[j].name);
      assert changes[j].name in PatchLine(lines[i], changes).hits;
    }
  }

  /** The file is written if and only if the new lines differ from the old ones. */
  lemma WrittenExactlyWhenDifferent(lines: seq<string>, changes: seq<Change>)
    requires Clean(changes)
    ensures WriteNeeded(lines, changes) <==> NewLines(lines, changes) != lines
  {
    var result := NewLines(lines, changes);
    forall i | 0 <= i < |lines|
      ensures result[i] == NewLine(lines[i], changes)
      ensures PatchLine(lines[i], changes).changed <==> result[i] != lines[i]
    {
      PatchLineIs(lines[i], changes);
    }
    if SomeLineChanges(lines, changes) {
      var i :| 0 <= i < |lines| && PatchLine(lines[i], changes).changed;
      assert result[i] != lines[i];
    } else {
      forall i | 0 <= i < |lines| ensures result[i] == lines[i] {
        assert !PatchLine(lines[i], changes).changed;
      }
    }
  }

  // ---------------------------------------------------------------- as a map of names to values

  /** All values that a file gives for a name, in order. */
  function Values(lines: seq<string>, name: string): seq<string> {
    if lines == [] then []
    else (if IsFor(lines[0], name) then [ValueOf(lines[0])] else []) + Values(lines[1..], name)
  }

  lemma {:induction false} ValuesAppend(a: seq<string>, b: seq<string>, name: string)
    ensures Values(a + b, name) == Values(a, name) + Values(b, name)
  {
    if a == [] {
      assert a + b == b;
    } else {
      assert (a + b)[1..] == a[1..] + b;
      ValuesAppend(a[1..], b, name);
    }
  }

  lemma ValuesOfChange(c: Change, name: string)
    requires '=' !in c.name
    ensures Values([Text(c)], name) == if name == c.name then [c.value] else []
  {
    TextIsFor(c);
    assert [Text(c)][1..] == [];
  }

  lemma MissingStep(lines: seq<string>, changes: seq<Change>, k: nat, name: string)
    requires Clean(changes) && 0 < k <= |changes|
    ensures var c := changes[k - 1];
      Values(Missing(lines, changes, k), name) == Values(Missing(lines, changes, k - 1), name) +
        if c.name == name && !SomeLineIsFor(lines, name) then [c.value] else []
  {
    hide IsFor, Text, SomeLineHits, SomeLineIsFor, Values;
    var c, shorter := changes[k - 1], Missing(lines, changes, k - 1);
    HitsAreKeys(lines, changes, k - 1);
    ValuesOfChange(c, name);
    ValuesAppend(shorter, [Text(c)], name);
    assert shorter + [] == shorter;
  }

  lemma {:induction false} MissingNoValue(lines: seq<string>, changes: seq<Change>, k: nat, name: string)
    requires Clean(changes) && k <= |changes|
    requires forall j :: 0 <= j < k ==> changes[j].name != name
    ensures Values(Missing(lines, changes, k), name) == []
  {
    if k > 0 {
      hide SomeLineIsFor;
      MissingStep(lines, changes, k, name);
      MissingNoValue(lines, changes, k - 1, name);
    }
  }

  lemma {:induction false} MissingOneValue(lines: seq<string>, changes: seq<Change>, k: nat, j: nat)
    requires Clean(changes) && j < k <= |changes|
    ensures var c := changes[j];
      Values(Missing(lines, changes, k), c.name) == if SomeLineIsFor(lines, c.name) then [] else [c.value]
  {
    hide SomeLineIsFor, Values;
    MissingStep(lines, changes, k, changes[j].name);
    if j == k - 1 {
      MissingNoValue(lines, changes, k - 1, changes[j].name);
    } else {
      MissingOneValue(lines, changes, k - 1, j);
    }
  }

  /** A patched line is for the same name as before. */
  lemma PatchedLineValue(line: string, changes: seq<Change>, name: string)
    requires Clean(changes)
    ensures IsFor(NewLine(line, changes), name) <==> IsFor(line, name)
    ensures (forall j :: 0 <= j < |changes| ==> changes[j].name != name) && IsFor(line, name) ==>
      NewLine(line, changes) == line
    ensures forall j :: 0 <= j < |changes| && changes[j].name == name && IsFor(line, name) ==>
      ValueOf(NewLine(line, changes)) == changes[j].value
  {
    PatchLineIs(line, changes);
    if j :| 0 <= j < |changes| && IsFor(line, changes[j].name) {
      TextIsFor(changes[j]);
    }
  }

  lemma {:induction false} PatchedValues(lines: seq<string>, changes: seq<Change>, name: string)
    requires Clean(changes)
    ensures (forall j :: 0 <= j < |changes| ==> changes[j].name != name) ==>
      Values(Patched(lines, changes), name) == Values(lines, name)
    ensures |Values(Patched(lines, changes), name)| == |Values(lines, name)|
    ensures forall j, v ::
      0 <= j < |changes| && changes[j].name == name && v in Values(Patched(lines, changes), name) ==>
      v == changes[j].value
  {
    if lines != [] {
      assert Patched(lines, changes)[1..] == Patched(lines[1..], changes);
      PatchedValues(lines[1..], changes, name);
      PatchedLineValue(lines[0], changes, name);
    }
  }

  lemma {:induction false} SomeLineHasValue(lines: seq<string>, name: string)
    ensures SomeLineIsFor(lines, name) ==> Values(lines, name) != []
  {
    if i :| 0 <= i < |lines| && IsFor(lines[i], name) {
      ValueInValues(lines, i, name);
    }
  }

  /** The new file is the old one updated: a changed name has its new value, and only it, everywhere and
      at least once; every other name keeps its values. */
  lemma RefinesMapUpdate(lines: seq<string>, changes: seq<Change>, name: string)
    requires Clean(changes)
    ensures (forall j :: 0 <= j < |changes| ==> changes[j].name != name) ==>
      Values(NewLines(lines, changes), name) == Values(lines, name)
    ensures forall j :: 0 <= j < |changes| && changes[j].name == name ==>
      && Values(NewLines(lines, changes), name) != []
      && (forall v :: v in Values(NewLines(lines, changes), name) ==> v == changes[j].value)
  {
    hide SomeLineIsFor, Values, Missing, Patched;
    ValuesAppend(Patched(lines, changes), Missing(lines, changes, |changes|), name);
    PatchedValues(lines, changes, name);
    SomeLineHasValue(lines, name);
    if j :| 0 <= j < |changes| && changes[j].name == name {
      MissingOneValue(lines, changes, |changes|, j);
    } else {
      MissingNoValue(lines, changes, |changes|, name);
    }
  }

  // ---------------------------------------------------------------- running it again

  predicate PlainChange(c: Change) {
    NoNewline(c.name) && NoNewline(c.value) && (c.value != [] ==> c.value[|c.value| - 1] != '\r')
  }

  /** Nothing is to be done for lines that hold every change already. */
  lemma NothingMissing(lines: seq<string>, changes: seq<Change>)
    requires Clean(changes)
    requires forall i, j :: 0 <= i < |lines| && 0 <= j < |changes| && IsFor(lines[i], changes[j].name) ==>
      lines[i] == Text(changes[j])
    requires forall j :: 0 <= j < |changes| ==> SomeLineIsFor(lines, changes[j].name)
    ensures !WriteNeeded(lines, changes)
  {
    forall i | 0 <= i < |lines| ensures !PatchLine(lines[i], changes).changed {
      PatchLineIs(lines[i], changes);
    }
    NoneMissing(lines, changes, |changes|);
  }

  lemma {:induction false} NoneMissing(lines: seq<string>, changes: seq<Change>, k: nat)
    requires Clean(changes) && k <= |changes|
    requires forall j :: 0 <= j < |changes| ==> SomeLineIsFor(lines, changes[j].name)
    ensures Missing(lines, changes, k) == []
  {
    hide SomeLineHits, SomeLineIsFor, Text, Clean;
    if k > 0 {
      HitsAreKeys(lines, changes, k - 1);
      NoneMissing(lines, changes, k - 1);
    }
  }

  lemma KeyWithoutCR(line: string, name: string)
    requires IsFor(DropCR(line), name)
    ensures IsFor(line, name)
  {
    var d := DropCR(line);
    assert forall k :: 0 <= k < |d| ==> d[k] == line[k];
    var i := IndexOf(d, '=');
    assert line[i] == '=' && IndexOf(line, '=') == i;
    assert line[..i] == d[..i];
  }

  lemma {:induction false} ValueInValues(lines: seq<string>, i: nat, name: string)
    requires i < |lines| && IsFor(lines[i], name)
    ensures ValueOf(lines[i]) in Values(lines, name)
  {
    if i > 0 { ValueInValues(lines[1..], i - 1, name); }
  }

  lemma {:induction false} SomeValue(lines: seq<string>, name: string)
    requires Values(lines, name) != []
    ensures SomeLineIsFor(lines, name)
  {
    if IsFor(lines[0], name) {
    } else {
      SomeValue(lines[1..], name);
      var i :| 0 <= i < |lines[1..]| && IsFor(lines[1..][i], name);
      assert IsFor(lines[i + 1], name);
    }
  }

  /** In the new lines, a line for a changed name is exactly the change. */
  lemma NewLineHoldsChange(lines: seq<string>, changes: seq<Change>, i: nat, j: nat)
    requires Clean(changes) && j < |changes| && i < |NewLines(lines, changes)|
    requires IsFor(NewLines(lines, changes)[i], changes[j].name)
    ensures NewLines(lines, changes)[i] == Text(changes[j])
  {
    RefinesMapUpdate(lines, changes, changes[j].name);
    ValueInValues(NewLines(lines, changes), i, changes[j].name);
    LineFromParts(NewLines(lines, changes)[i], changes[j]);
  }

  lemma PlainText(c: Change)
    requires PlainChange(c)
    ensures NoNewline(Text(c)) && DropCR(Text(c)) == Text(c)
  {}

  lemma {:induction false} MissingIsPlain(lines: seq<string>, changes: seq<Change>, k: nat)
    requires k <= |changes| && forall c :: c in changes ==> PlainChange(c)
    ensures forall l :: l in Missing(lines, changes, k) ==> NoNewline(l)
  {
    if k > 0 {
      MissingIsPlain(lines, changes, k - 1);
      PlainText(changes[k - 1]);
    }
  }

  lemma NewLinesArePlain(lines: seq<string>, changes: seq<Change>)
    requires Clean(changes) && forall c :: c in changes ==> PlainChange(c)
    requires forall l :: l in lines ==> NoNewline(l)
    ensures forall l :: l in NewLines(lines, changes) ==> NoNewline(l)
  {
    MissingIsPlain(lines, changes, |changes|);
    forall i | 0 <= i < |lines| ensures NoNewline(Patched(lines, changes)[i]) {
      PatchLineIs(lines[i], changes);
      assert lines[i] in lines;
      if j :| 0 <= j < |changes| && IsFor(lines[i], changes[j].name) {
        assert changes[j] in changes;
        PlainText(changes[j]);
      }
    }
  }

  /** After a write, the same call finds nothing left to write, whatever the file held before. */
  lemma SecondCallWritesNothing(text: string, changes: seq<Change>)
    requires Clean(changes) && forall c :: c in changes ==> PlainChange(c)
    ensures !WriteNeeded(Lines(Unlines(NewLines(Lines(text), changes))), changes)
  {
    var result := NewLines(Lines(text), changes);
    LinesHaveNoNewline(text);
    NewLinesArePlain(Lines(text), changes);
    LinesOfUnlines(result);
    var again := Lines(Unlines(result));
    forall i, j | 0 <= i < |again| && 0 <= j < |changes| && IsFor(again[i], changes[j].name)
      ensures again[i] == Text(changes[j])
    {
      KeyWithoutCR(result[i], changes[j].name);
      NewLineHoldsChange(Lines(text), changes, i, j);
      assert changes[j] in changes;
      PlainText(changes[j]);
    }
    forall j | 0 <= j < |changes| ensures SomeLineIsFor(again, changes[j].name) {
      RefinesMapUpdate(Lines(text), changes, changes[j].name);
      SomeValue(result, changes[j].name);
      var i :| 0 <= i < |result| && IsFor(result[i], changes[j].name);
      NewLineHoldsChange(Lines(text), changes, i, j);
      assert changes[j] in changes;
      PlainText(changes[j]);
      assert IsFor(again[i], changes[j].name);
    }
    NothingMissing(again, changes);
  }
}
