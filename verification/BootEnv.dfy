/** The bootloader environment, the programs that write it and the script that reads it at boot:
    partition/bootloader.go, partition/bootloader_grub.go, partition/bootloader_uboot.go and the script
    in partition/migrate_grub.go.

    Every write of one variable reaches the disk on its own.  A writer is therefore specified by the
    sequence of its writes, and what is on disk after an error or a power cut by a prefix of it. */
module BootEnv {

  datatype Rootfs = A | B

  function Other(r: Rootfs): Rootfs { if r == A then B else A }

  /** The last character of the partition label "system-a" or "system-b". */
  function ShortName(r: Rootfs): string { if r == A then "a" else "b" }

  /** The three variables; the empty string stands for a variable that is not set. */
  datatype Env = Env(mode: string, ab: string, trial: string)

  datatype Variable = Mode | Ab | Trial

  datatype Write = Write(variable: Variable, value: string)

  const TRY := "try"
  const REGULAR := "regular"

  function Store(env: Env, w: Write): Env {
    match w.variable
    case Mode => env.(mode := w.value)
    case Ab => env.(ab := w.value)
    case Trial => env.(trial := w.value)
  }

  function StoreAll(env: Env, ws: seq<Write>): Env
    decreases |ws|
  {
    if ws == [] then env else StoreAll(Store(env, ws[0]), ws[1..])
  }

  // ---------------------------------------------------------------- writers

  function GrubToggle(other: string): seq<Write> { [Write(Mode, TRY), Write(Ab, other)] }

  function UbootToggle(other: string): seq<Write> { [Write(Ab, other), Write(Mode, TRY)] }

  /** Grub and u-boot agree on this one. */
  function MarkSuccessful(current: string): seq<Write> {
    [Write(Trial, "0"), Write(Ab, current), Write(Mode, REGULAR)]
  }

  // ---------------------------------------------------------------- boot script

  /** Writes of the script before the trial logic: defaults for unset variables. */
  function DefaultWrites(env: Env): seq<Write> {
    (if env.mode == "" then [Write(Mode, REGULAR)] else []) +
    (if env.ab == "" then [Write(Ab, "a")] else [])
  }

  /** Writes of the trial logic, in an environment that has the defaults. */
  function TrialWrites(env: Env): seq<Write> {
    if env.mode != TRY then []
    else if env.trial == "1" then [Write(Ab, if env.ab == "a" then "b" else "a")]
    else [Write(Trial, "1")]
  }

  function WithDefaults(env: Env): Env {
    Env(if env.mode == "" then REGULAR else env.mode, if env.ab == "" then "a" else env.ab, env.trial)
  }

  function BootWrites(env: Env): seq<Write> { DefaultWrites(env) + TrialWrites(WithDefaults(env)) }

  /** The environment after an undisturbed run of the script. */
  function AfterBoot(env: Env): Env { StoreAll(env, BootWrites(env)) }

  /** The rootfs that the script starts: the one named by `snappy_ab` when the script ends. */
  function BootTarget(env: Env): string { AfterBoot(env).ab }

  predicate NamesRootfs(s: string) { s == "a" || s == "b" }

  function ByName(s: string): (r: Rootfs)
    requires NamesRootfs(s)
    ensures ShortName(r) == s
  {
    if s == "a" then A else B
  }

  lemma AfterBootIs(env: Env)
    ensures AfterBoot(env) == StoreAll(WithDefaults(env), TrialWrites(WithDefaults(env)))
    ensures AfterBoot(env) == var e := WithDefaults(env);
      if e.mode != TRY then e
      else if e.trial == "1" then e.(ab := if e.ab == "a" then "b" else "a")
      else e.(trial := "1")
  {
    var d, e := DefaultWrites(env), WithDefaults(env);
    StoreAllAppend(env, d, TrialWrites(e));
    if |d| == 2 {
      StoreTwo(env, d[0], d[1]);
    } else if |d| == 1 {
      StoreOne(env, d[0]);
    }
    if TrialWrites(e) != [] { StoreOne(e, TrialWrites(e)[0]); }
  }

  lemma StoreOne(env: Env, w: Write)
    ensures StoreAll(env, [w]) == Store(env, w)
  {
    assert [w][1..] == [];
  }

  lemma StoreTwo(env: Env, v: Write, w: Write)
    ensures StoreAll(env, [v, w]) == Store(Store(env, v), w)
  {
    assert [v, w][1..] == [w];
    StoreOne(Store(env, v), w);
  }

  lemma {:induction false} StoreAllAppend(env: Env, v: seq<Write>, w: seq<Write>)
    ensures StoreAll(env, v + w) == StoreAll(StoreAll(env, v), w)
    decreases |v|
  {
    if v == [] {
      assert v + w == w;
    } else {
      assert (v + w)[1..] == v[1..] + w;
      StoreAllAppend(Store(env, v[0]), v[1..], w);
    }
  }

  lemma MarkSuccessfulIs(env: Env, current: string)
    ensures StoreAll(env, MarkSuccessful(current)) == Env(REGULAR, current, "0")
  {
    var w := MarkSuccessful(current);
    assert w[1..] == [Write(Ab, current), Write(Mode, REGULAR)];
    StoreTwo(Store(env, w[0]), w[1], w[2]);
  }

  lemma ToggleIs(env: Env, other: string)
    ensures StoreAll(env, GrubToggle(other)) == StoreAll(env, UbootToggle(other)) == Env(TRY, other, env.trial)
  {
    StoreTwo(env, Write(Mode, TRY), Write(Ab, other));
    StoreTwo(env, Write(Ab, other), Write(Mode, TRY));
  }

  // ---------------------------------------------------------------- the persistent file and its writers

  function Min(a: nat, b: nat): nat { if a < b then a else b }

  lemma StorePrefix(env: Env, ws: seq<Write>, k: nat)
    requires k < |ws|
    ensures StoreAll(env, ws[..k + 1]) == Store(StoreAll(env, ws[..k]), ws[k])
  {
    assert ws[..k + 1] == ws[..k] + [ws[k]];
    StoreAllAppend(env, ws[..k], [ws[k]]);
    assert [ws[k]][1..] == [];
  }

  /** The environment file.  `budget` is the number of further writes that reach the disk before one fails, and
      `after` the number of those that would reach it after that one; after a power cut that is none.  A
      command reports the failure, the boot script does not notice. */
  class EnvFile {
    var env: Env
    var budget: nat
    var after: nat

    constructor (initial: Env, writes: nat, later: nat)
      ensures env == initial && budget == writes && after == later
    {
      env, budget, after := initial, writes, later;
    }

    /** On disk are as many of the writes `ws` to `from` as a budget of `writes` allows, and none after one
        that failed. */
    ghost predicate Holds(from: Env, writes: nat, later: nat, ws: seq<Write>)
      reads this
    {
      && env == StoreAll(from, ws[..Min(writes, |ws|)])
      && if writes >= |ws| then budget == writes - |ws| && after == later else budget == later && after == 0
    }

    method SetBootVar(variable: Variable, value: string) returns (ok: bool)
      modifies this
      ensures ok == (old(budget) > 0)
      ensures env == if ok then Store(old(env), Write(variable, value)) else old(env)
      ensures budget == if ok then old(budget) - 1 else old(after)
      ensures after == if ok then old(after) else 0
    {
      ok := budget > 0;
      if ok {
        env, budget := Store(env, Write(variable, value)), budget - 1;
      } else {
        budget, after := after, 0;
      }
    }

    method GrubToggleRootFS(otherRootfs: string) returns (ok: bool)
      modifies this
      ensures Holds(old(env), old(budget), old(after), GrubToggle(otherRootfs))
      ensures ok <==> old(budget) >= 2
      ensures ok ==> env == Env(TRY, otherRootfs, old(env.trial))
    {
      ghost var ws := GrubToggle(otherRootfs);
      StorePrefix(env, ws, 0);
      StorePrefix(env, ws, 1);
      ToggleIs(env, otherRootfs);
      assert ws[..2] == ws;
      ok := SetBootVar(Mode, TRY);
      if !ok { return; }
      ok := SetBootVar(Ab, otherRootfs);
    }

    method UbootToggleRootFS(otherRootfs: string) returns (ok: bool)
      modifies this
      ensures Holds(old(env), old(budget), old(after), UbootToggle(otherRootfs))
      ensures ok <==> old(budget) >= 2
      ensures ok ==> env == Env(TRY, otherRootfs, old(env.trial))
    {
      ghost var ws := UbootToggle(otherRootfs);
      StorePrefix(env, ws, 0);
      StorePrefix(env, ws, 1);
      ToggleIs(env, otherRootfs);
      assert ws[..2] == ws;
      ok := SetBootVar(Ab, otherRootfs);
      if !ok { return; }
      ok := SetBootVar(Mode, TRY);
    }

    method MarkCurrentBootSuccessful(currentRootfs: string) returns (ok: bool)
      modifies this
      ensures Holds(old(env), old(budget), old(after), MarkSuccessful(currentRootfs))
      ensures ok <==> old(budget) >= 3
      ensures ok ==> env == Env(REGULAR, currentRootfs, "0")
    {
      ghost var ws := MarkSuccessful(currentRootfs);
      StorePrefix(env, ws, 0);
      StorePrefix(env, ws, 1);
      StorePrefix(env, ws, 2);
      MarkSuccessfulIs(env, currentRootfs);
      assert ws[..3] == ws;
      ok := SetBootVar(Trial, "0");
      if !ok { return; }
      ok := SetBootVar(Ab, currentRootfs);
      if !ok { return; }
      ok := SetBootVar(Mode, REGULAR);
    }

    /** The script: loaded variables live in memory, each `save_env` writes one of them back. */
    method BootScript() returns (started: string)
      modifies this
      ensures old(after) == 0 ==> Holds(old(env), old(budget), 0, BootWrites(old(env)))
      ensures started == BootTarget(old(env))
    {
      ghost var loaded, writes, cut := env, budget, after == 0;
      var memory := env;
      ghost var done: seq<Write> := [];
      AfterBootIs(env);
      if memory.mode == "" {
        memory := memory.(mode := REGULAR);
        Save(Mode, memory.mode, loaded, writes, done, cut);
        done := done + [Write(Mode, memory.mode)];
      }
      if memory.ab == "" {
        memory := memory.(ab := "a");
        Save(Ab, memory.ab, loaded, writes, done, cut);
        done := done + [Write(Ab, memory.ab)];
      }
      assert memory == WithDefaults(loaded) && done == DefaultWrites(loaded);
      if memory.mode == TRY {
        if memory.trial == "1" {
          if memory.ab == "a" {
            memory := memory.(ab := "b");
          } else {
            memory := memory.(ab := "a");
          }
          Save(Ab, memory.ab, loaded, writes, done, cut);
          done := done + [Write(Ab, memory.ab)];
        } else {
          memory := memory.(trial := "1");
          Save(Trial, memory.trial, loaded, writes, done, cut);
          done := done + [Write(Trial, memory.trial)];
        }
      }
      assert done == BootWrites(loaded);
      started := memory.ab;
    }

    /** `save_env`: one more write, if the budget allows. */
    method Save(
      variable: Variable, value: string, ghost loaded: Env, ghost writes: nat, ghost done: seq<Write>, ghost cut: bool)
      requires cut ==> after == 0 && Holds(loaded, writes, 0, done)
      modifies this
      ensures cut ==> after == 0 && Holds(loaded, writes, 0, done + [Write(variable, value)])
    {
      ghost var ws := done + [Write(variable, value)];
      StorePrefix(loaded, ws, |done|);
      assert ws[..|done|] == done[..|done|] == done && ws[..|ws|] == ws;
      assert writes <= |done| ==> ws[..writes] == done[..writes];
      var _ := SetBootVar(variable, value);
    }
  }
}
