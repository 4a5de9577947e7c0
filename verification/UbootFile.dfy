/** U-boot's legacy environment as a text file: partition/bootloader_uboot.go, `getBootVarLegacy` and
    `setBootVarLegacy`.  The text file implements the abstract environment of `BootEnv`. */
module UbootFile {
  import opened Strings
  import opened BootEnv
  import opened NameValueFile

  function Name(v: Variable): string {
    match v
    case Mode => "snappy_mode"
    case Ab => "snappy_ab"
    case Trial => "snappy_trial_boot"
  }

  /** The first value that the lines give for a name, or the empty string. */
  function Lookup(lines: seq<string>, name: string): string {
    var vs := Values(lines, name);
    if vs == [] then "" else vs[0]
  }

  /** The environment that a file denotes. */
  function Abstract(lines: seq<string>): Env {
    Env(Lookup(lines, Name(Mode)), Lookup(lines, Name(Ab)), Lookup(lines, Name(Trial)))
  }

  function Get(env: Env, v: Variable): string {
    match v
    case Mode => env.mode
    case Ab => env.ab
    case Trial => env.trial
  }

  lemma NamesAreClean(v: Variable, w: Variable)
    ensures '=' !in Name(v) && NoNewline(Name(v))
    ensures Name(v) == Name(w) <==> v == w
  {
    assert |Name(Mode)| == 11 && |Name(Ab)| == 9 && |Name(Trial)| == 17;
  }

  /** Patching the file for one variable stores that variable in the environment, and nothing else. */
  lemma PatchIsStore(lines: seq<string>, v: Variable, value: string)
    ensures Abstract(NewLines(lines, [Change(Name(v), value)])) == Store(Abstract(lines), Write(v, value))
  {
    hide Values, NewLines, Name;
    var changes := [Change(Name(v), value)];
    forall w: Variable
      ensures Lookup(NewLines(lines, changes), Name(w)) == if w == v then value else Lookup(lines, Name(w))
    {
      NamesAreClean(v, w);
      RefinesMapUpdate(lines, changes, Name(w));
      assert changes[0].name == Name(v);
      var vs := Values(NewLines(lines, changes), Name(w));
      assert vs != [] ==> vs[0] in vs;
    }
  }

  /** No line ends in two carriage returns, of which reading and writing would lose one. */
  predicate NoStrayCR(text: string) { forall l :: l in Lines(text) ==> DropCR(l) == l }

  lemma RereadIsExact(text: string, changes: seq<Change>)
    requires Clean(changes) && NoStrayCR(text) && forall c :: c in changes ==> PlainChange(c)
    ensures Lines(Unlines(NewLines(Lines(text), changes))) == NewLines(Lines(text), changes)
  {
    hide Lines, DropCR, NoNewline, PatchLine, Text, IsFor, Missing;
    var lines := Lines(text);
    var result := NewLines(lines, changes);
    LinesHaveNoNewline(text);
    NewLinesArePlain(lines, changes);
    LinesOfUnlines(result);
    forall i | 0 <= i < |result| ensures DropCR(result[i]) == result[i] {
      if j :| 0 <= j < |changes| && IsFor(result[i], changes[j].name) {
        NewLineHoldsChange(lines, changes, i, j);
        assert changes[j] in changes;
        PlainText(changes[j]);
      } else {
        UnchangedLine(lines, changes, i);
      }
    }
    assert DropCRs(result) == result;
  }

  /** A new line that is for none of the changed names is one of the old lines. */
  lemma UnchangedLine(lines: seq<string>, changes: seq<Change>, i: nat)
    requires Clean(changes) && i < |NewLines(lines, changes)|
    requires forall j :: 0 <= j < |changes| ==> !IsFor(NewLines(lines, changes)[i], changes[j].name)
    ensures NewLines(lines, changes)[i] in lines
  {
    hide PatchLine, IsFor, Text;
    var result := NewLines(lines, changes);
    if i < |lines| {
      PatchedLine(lines, changes, i);
      forall j | 0 <= j < |changes| ensures !IsFor(lines[i], changes[j].name) {
        PatchedLineValue(lines[i], changes, changes[j].name);
      }
    } else {
      assert result[i] in Missing(lines, changes, |changes|);
      var j := MissingIsAChange(lines, changes, |changes|, result[i]);
      TextIsFor(changes[j]);
    }
  }

  lemma {:induction false} MissingIsAChange(lines: seq<string>, changes: seq<Change>, k: nat, line: string)
    returns (j: nat)
    requires k <= |changes| && line in Missing(lines, changes, k)
    ensures j < k && line == Text(changes[j])
  {
    if line in Missing(lines, changes, k - 1) {
      j := MissingIsAChange(lines, changes, k - 1, line);
    } else {
      j := k - 1;
    }
  }

  lemma NothingInEmptyFile()
    ensures Lines("") == [] && Abstract([]) == Env("", "", "")
    ensures forall name :: Values([], name) == []
  {}

  /** The names of the variables, in a file that sets one of them. */
  lemma FileExample()
    ensures Unlines(NewLines([], [Change(Name(Mode), TRY)])) == "snappy_mode=try" + "\n"
    ensures Unlines(NewLines([], [Change(Name(Mode), REGULAR)])) == "snappy_mode=regular" + "\n"
    ensures Unlines(NewLines([], [Change(Name(Ab), "b")])) == "snappy_ab=b" + "\n"
    ensures Unlines(NewLines([], [Change(Name(Trial), "0")])) == "snappy_trial_boot=0" + "\n"
  {
    assert "snappy_mode" + "=" + "try" == "snappy_mode=try" && "snappy_ab" + "=" + "b" == "snappy_ab=b";
    assert "snappy_trial_boot" + "=" + "0" == "snappy_trial_boot=0";
    assert "snappy_mode" + "=" + "regular" == "snappy_mode=regular";
    OneVariable(Name(Mode), TRY);
    OneVariable(Name(Mode), REGULAR);
    OneVariable(Name(Ab), "b");
    OneVariable(Name(Trial), "0");
  }

  lemma OneVariable(name: string, value: string)
    ensures Unlines(NewLines([], [Change(name, value)])) == name + "=" + value + "\n"
  {
    var c := Change(name, value);
    assert Missing([], [c], 0) == [] && Missing([], [c], 1) == [Text(c)];
    assert NewLines([], [c]) == [Text(c)] + [];
    UnlinesPrepend(Text(c), []);
  }

  /** Writes the file only if the variable does not have the value yet; a file that cannot be read has the
      empty value for everything.  On failure the file is as before.  On success, for a value and a file
      without stray line ends, the environment that the file denotes has been updated; whatever they hold,
      the file has been patched unless nothing is to be changed. */
  method SetBootVarLegacy(file: ConfigFile, v: Variable, value: string, writable: bool) returns (ok: bool)
    requires !file.present ==> file.text == ""
    modifies file
    ensures ok && NoStrayCR(old(file.text)) && PlainChange(Change(Name(v), value)) ==>
      Abstract(Lines(file.text)) == Store(Abstract(Lines(old(file.text))), Write(v, value))
    ensures !ok ==> file.text == old(file.text)
    ensures var lines := Lines(old(file.text));
      ok <==> if !old(file.present) then value == ""
              else writable || !WriteNeeded(lines, [Change(Name(v), value)]) ||
                   (Values(lines, Name(v)) != [] && Get(Abstract(lines), v) == value)
    ensures var lines := Lines(old(file.text));
      Values(lines, Name(v)) != [] && Get(Abstract(lines), v) == value ==> ok && file.text == old(file.text)
    ensures var lines, changes := Lines(old(file.text)), [Change(Name(v), value)];
      ok && !(Values(lines, Name(v)) != [] && Get(Abstract(lines), v) == value) ==>
        if old(file.present) then
          file.text == if WriteNeeded(lines, changes) then Unlines(NewLines(lines, changes)) else old(file.text)
        else value == "" && file.text == old(file.text)
  {
    hide Values, Lines, NewLines, Name, DropCR, WriteNeeded, PlainChange;
    ghost var before := Lines(file.text);
    NothingInEmptyFile();
    var values := Values(Lines(file.text), Name(v));
    if !file.present && value == "" { return true; }
    if file.present && values != [] && values[0] == value {
      return true;
    }
    var changes := [Change(Name(v), value)];
    NamesAreClean(v, v);
    PatchIsStore(before, v, value);
    if NoStrayCR(file.text) && PlainChange(changes[0]) { RereadIsExact(file.text, changes); }
    WrittenExactlyWhenDifferent(before, changes);
    var wrote;
    ok, wrote := file.ModifyNameValueFile(changes, writable);
  }
}
