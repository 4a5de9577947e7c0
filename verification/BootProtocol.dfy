/** The A/B boot protocol as a state machine: power may fail between any two environment writes, a boot
    may or may not get as far as marking itself good, an update overwrites the other rootfs, and a toggle
    asks for the other rootfs at the next boot.  Updates and toggles happen only in a boot that has been
    marked (cmd/snappy/cmd_booted.go). */
module BootProtocol {
  import opened BootEnv

  /** How `ToggleRootFS` reaches the disk.  `UbootAtomic` is u-boot's writer without a gap inside. */
  datatype Loader = Grub | Uboot | UbootAtomic

  datatype Job =
    | Idle
    | Marking(pending: seq<Write>)
    | Toggling(pending: seq<Write>)

  datatype Phase =
    | Off
    | Booting(pending: seq<Write>, target: string)
    | Up(running: Rootfs, marked: bool, job: Job)

  /** `good` holds the rootfs that were marked successful, or are the factory one, and have not been
      overwritten since. */
  datatype State = State(env: Env, phase: Phase, good: set<Rootfs>)

  function ToggleWrites(loader: Loader, other: string): seq<Write> {
    if loader == Grub then GrubToggle(other) else UbootToggle(other)
  }

  // ---------------------------------------------------------------- steps

  ghost predicate Init(s: State) {
    && s.phase == Off
    && s.env.mode in {"", REGULAR}
    && s.env.ab in {"", "a", "b"}
    && ByName(WithDefaults(s.env).ab) in s.good
  }

  predicate PowerCut(s: State, s': State) { s' == s.(phase := Off) }

  predicate PowerOn(s: State, s': State) {
    s.phase == Off && s' == s.(phase := Booting(BootWrites(s.env), BootTarget(s.env)))
  }

  predicate ScriptWrite(s: State, s': State) {
    && s.phase.Booting? && s.phase.pending != []
    && s' == s.(env := Store(s.env, s.phase.pending[0]), phase := s.phase.(pending := s.phase.pending[1..]))
  }

  predicate StartKernel(s: State, s': State) {
    && s.phase.Booting? && s.phase.pending == [] && NamesRootfs(s.phase.target)
    && s' == s.(phase := Up(ByName(s.phase.target), false, Idle))
  }

  predicate BeginMark(s: State, s': State) {
    && s.phase.Up? && s.phase.job == Idle
    && s' == s.(phase := s.phase.(job := Marking(MarkSuccessful(ShortName(s.phase.running)))))
  }

  predicate MarkWrite(s: State, s': State) {
    && s.phase.Up? && s.phase.job.Marking? && s.phase.job.pending != []
    && var rest := s.phase.job.pending[1..];
       var env' := Store(s.env, s.phase.job.pending[0]);
       s' == if rest != [] then s.(env := env', phase := s.phase.(job := Marking(rest)))
             else State(env', Up(s.phase.running, true, Idle), s.good + {s.phase.running})
  }

  predicate BeginToggle(loader: Loader, s: State, s': State) {
    && s.phase.Up? && s.phase.marked && s.phase.job == Idle
    && var ws := ToggleWrites(loader, ShortName(Other(s.phase.running)));
       s' == if loader == UbootAtomic then s.(env := StoreAll(s.env, ws))
             else s.(phase := s.phase.(job := Toggling(ws)))
  }

  predicate ToggleWrite(s: State, s': State) {
    && s.phase.Up? && s.phase.job.Toggling? && s.phase.job.pending != []
    && var rest := s.phase.job.pending[1..];
       s' == s.(env := Store(s.env, s.phase.job.pending[0]),
                phase := s.phase.(job := if rest == [] then Idle else Toggling(rest)))
  }

  /** A write reports an error and the rest of the job is not attempted. */
  predicate Abort(s: State, s': State) {
    s.phase.Up? && s.phase.job != Idle && s' == s.(phase := s.phase.(job := Idle))
  }

  /** The system image updater writes to the other rootfs, completely or not. */
  predicate OverwriteOther(s: State, s': State) {
    && s.phase.Up? && s.phase.marked && s.phase.job == Idle
    && s' == s.(good := s.good - {Other(s.phase.running)})
  }

  predicate Next(loader: Loader, s: State, s': State) {
    || PowerCut(s, s')
    || PowerOn(s, s')
    || ScriptWrite(s, s')
    || StartKernel(s, s')
    || BeginMark(s, s')
    || MarkWrite(s, s')
    || BeginToggle(loader, s, s')
    || ToggleWrite(s, s')
    || Abort(s, s')
    || OverwriteOther(s, s')
  }

  ghost predicate IsRun(loader: Loader, run: seq<State>) {
    && run != []
    && Init(run[0])
    && forall i :: 0 <= i < |run| - 1 ==> Next(loader, run[i], run[i + 1])
  }

  // ---------------------------------------------------------------- crash safety

  /** Outside of a trial, `snappy_ab` names a rootfs that is known to be good. */
  predicate Safe(s: State) {
    && WithDefaults(s.env).ab in {"a", "b"}
    && (s.env.mode != TRY ==> ByName(WithDefaults(s.env).ab) in s.good)
  }

  predicate EnvShape(env: Env) {
    env.mode in {"", REGULAR, TRY} && env.ab in {"", "a", "b"}
  }

  /** The script has done its last write: it starts what `snappy_ab` names, and a trial is armed. */
  predicate IsBooted(env: Env, target: string) {
    env.mode != "" && env.ab == target && target != "" && (env.mode == TRY ==> env.trial == "1")
  }

  predicate BootingShape(env: Env, pending: seq<Write>, target: string) {
    || (pending == BootWrites(env) && target == BootTarget(env))
    || (pending == [] && NamesRootfs(target) && IsBooted(env, target))
  }

  predicate JobShape(env: Env, running: Rootfs, marked: bool, job: Job) {
    match job
    case Idle => true
    case Marking(p) =>
      var ws := MarkSuccessful(ShortName(running));
      || p == ws
      || (p == ws[1..] && env.trial == "0")
      || (p == ws[2..] && env.trial == "0" && env.ab == ShortName(running))
    case Toggling(p) =>
      var ws := GrubToggle(ShortName(Other(running)));
      marked && (p == ws || (p == ws[1..] && env.mode == TRY))
  }

  predicate UpShape(s: State) {
    s.phase.Up? ==>
      && s.env.mode != "" && s.env.ab != ""
      && (s.env.mode != TRY ==> s.env.ab == ShortName(s.phase.running))
      && (s.phase.marked ==> s.phase.running in s.good && s.env.trial == "0")
      && JobShape(s.env, s.phase.running, s.phase.marked, s.phase.job)
  }

  predicate Inv(s: State) {
    && EnvShape(s.env)
    && s.good != {}
    && Safe(s)
    && (s.phase.Booting? ==> BootingShape(s.env, s.phase.pending, s.phase.target))
    && UpShape(s)
  }

  lemma ShortNames(r: Rootfs)
    ensures NamesRootfs(ShortName(r)) && ByName(ShortName(r)) == r
    ensures ShortName(r) != ShortName(Other(r)) && ShortName(r) != "" && TRY != REGULAR && TRY != "" && REGULAR != ""
    ensures "0" != "1" && "a" != "b"
  {
    assert "a"[0] == 'a' && "b"[0] == 'b' && "0"[0] == '0' && "1"[0] == '1';
    assert |TRY| == 3 && |REGULAR| == 7;
  }

  lemma ScriptWriteKeepsInv(s: State, s': State)
    requires Inv(s) && ScriptWrite(s, s')
    ensures Inv(s')
  {
    ShortNames(A);
    AfterBootIs(s.env);
    AfterBootIs(s'.env);
    var e, p := s.env, s.phase.pending;
    assert p == BootWrites(e);
    if e.mode == "" || e.ab == "" {
      assert p[1..] == BootWrites(s'.env);
    } else {
      assert p == TrialWrites(e) && p[1..] == [];
    }
  }

  lemma MarkWriteKeepsInv(s: State, s': State)
    requires Inv(s) && MarkWrite(s, s')
    ensures Inv(s')
  {
    ShortNames(s.phase.running);
    var ws, p := MarkSuccessful(ShortName(s.phase.running)), s.phase.job.pending;
    assert |ws[1..]| == 2 && |ws[2..]| == 1;
    if p == ws {
    } else if p == ws[1..] {
      assert p[1..] == ws[2..] && p[0] == ws[1];
    } else {
      assert p[1..] == [] && p[0] == ws[2];
    }
  }

  lemma ToggleWriteKeepsInv(s: State, s': State)
    requires Inv(s) && ToggleWrite(s, s')
    ensures Inv(s')
  {
    ShortNames(s.phase.running);
    var ws, p := GrubToggle(ShortName(Other(s.phase.running))), s.phase.job.pending;
    if p != ws {
      assert p[1..] == [] && p[0] == ws[1];
    }
  }

  lemma BeginToggleKeepsInv(loader: Loader, s: State, s': State)
    requires loader != Uboot && Inv(s) && BeginToggle(loader, s, s')
    ensures Inv(s')
  {
    ShortNames(s.phase.running);
    ToggleIs(s.env, ShortName(Other(s.phase.running)));
  }

  lemma StepKeepsInv(loader: Loader, s: State, s': State)
    requires loader != Uboot && Inv(s) && Next(loader, s, s')
    ensures Inv(s')
  {
    if ScriptWrite(s, s') {
      ScriptWriteKeepsInv(s, s');
    } else if MarkWrite(s, s') {
      MarkWriteKeepsInv(s, s');
    } else if ToggleWrite(s, s') {
      ToggleWriteKeepsInv(s, s');
    } else if BeginToggle(loader, s, s') {
      BeginToggleKeepsInv(loader, s, s');
    } else if OverwriteOther(s, s') {
      assert s.phase.running in s'.good;
      ShortNames(s.phase.running);
    } else {
      ShortNames(A);
      ShortNames(B);
      AfterBootIs(s.env);
    }
  }

  /** Every state of every run of grub, and of u-boot with an atomic toggle. */
  lemma {:induction false} RunsAreSafe(loader: Loader, run: seq<State>, i: nat)
    requires loader != Uboot && IsRun(loader, run) && i < |run|
    ensures Inv(run[i])
    ensures run[i].env.mode == REGULAR ==> NamesRootfs(run[i].env.ab) || run[i].env.ab == ""
    ensures run[i].env.mode == REGULAR && run[i].env.ab != "" ==> ByName(run[i].env.ab) in run[i].good
  {
    if i == 0 {
      ShortNames(A);
    } else {
      RunsAreSafe(loader, run, i - 1);
      StepKeepsInv(loader, run[i - 1], run[i]);
    }
  }

  // ---------------------------------------------------------------- recovery

  /** Of two consecutive undisturbed boots at least one starts a good rootfs; in a trial they start
      different rootfs, otherwise the same good one. */
  lemma TwoBootsFindAGoodRootfs(loader: Loader, run: seq<State>, i: nat)
    requires loader != Uboot && IsRun(loader, run) && i < |run|
    ensures var env := run[i].env;
      var first, second := BootTarget(env), BootTarget(AfterBoot(env));
      && NamesRootfs(first) && NamesRootfs(second)
      && (ByName(first) in run[i].good || ByName(second) in run[i].good)
      && (first != second <==> env.mode == TRY)
  {
    RunsAreSafe(loader, run, i);
    var env := run[i].env;
    ShortNames(A);
    ShortNames(B);
    AfterBootIs(env);
    AfterBootIs(AfterBoot(env));
    var g :| g in run[i].good;
    assert g == A || g == B;
  }

  /** A step after which the machine has not started a kernel, and neither the environment, except by the
      boot script, nor what is good has changed. */
  predicate Quiet(loader: Loader, s: State, s': State) {
    && Next(loader, s, s') && !StartKernel(s, s')
    && s'.good == s.good
    && (s'.env == s.env || ScriptWrite(s, s'))
  }

  /** Power fails after the script's last write and before the kernel starts. */
  predicate LateCut(s: State, s': State) {
    PowerCut(s, s') && s.phase.Booting? && s.phase.pending == []
  }

  /** The number of late power cuts between two states of a run. */
  function LateCuts(run: seq<State>, i: nat, j: nat): nat
    requires i <= j < |run|
  {
    if i == j then 0 else LateCuts(run, i, j - 1) + if LateCut(run[j - 1], run[j]) then 1 else 0
  }

  /** Kernels are started at steps `i` and `j`, and everything between the two is quiet. */
  ghost predicate ConsecutiveStarts(loader: Loader, run: seq<State>, i: nat, j: nat) {
    && IsRun(loader, run) && i < j < |run| - 1
    && StartKernel(run[i], run[i + 1]) && StartKernel(run[j], run[j + 1])
    && forall k :: i < k < j ==> Quiet(loader, run[k], run[k + 1])
  }

  /** Where a failed trial stands `n` late power cuts after the rootfs named `first` was started: every
      pass of the script exchanges the two, and a late power cut wastes one. */
  predicate TrialShape(s: State, first: string, n: nat) {
    && s.env.mode == TRY && s.env.trial == "1" && NamesRootfs(first) && NamesRootfs(s.env.ab)
    && var passed := s.phase.Booting? && s.phase.pending == [];
       s.env.ab == first <==> (n % 2 == 0) != passed
  }

  lemma TrialStep(loader: Loader, s: State, s': State, first: string, n: nat)
    requires loader != Uboot && Inv(s) && Quiet(loader, s, s') && TrialShape(s, first, n)
    ensures TrialShape(s', first, n + if LateCut(s, s') then 1 else 0)
  {
    ShortNames(A);
    AfterBootIs(s.env);
    if ScriptWrite(s, s') {
      assert s.phase.pending == BootWrites(s.env) == TrialWrites(s.env);
      assert s.phase.pending[1..] == [];
    }
  }

  lemma TrialStarts(s: State, s': State)
    requires Inv(s) && StartKernel(s, s') && s.env.mode == TRY
    ensures TrialShape(s', s.phase.target, 0) && s'.good == s.good
  {
    ShortNames(A);
    AfterBootIs(s.env);
  }

  lemma {:induction false} TrialContinues(loader: Loader, run: seq<State>, i: nat, k: nat)
    requires loader != Uboot && IsRun(loader, run) && i < k < |run|
    requires StartKernel(run[i], run[i + 1]) && run[i].phase.Booting? && run[i].env.mode == TRY
    requires forall l :: i < l < k ==> Quiet(loader, run[l], run[l + 1])
    ensures TrialShape(run[k], run[i].phase.target, LateCuts(run, i + 1, k))
    ensures run[k].good == run[i].good
    decreases k
  {
    hide Inv, TrialShape, StartKernel, Next, LateCut, IsRun, ScriptWrite;
    RunsAreSafe(loader, run, k - 1);
    if k == i + 1 {
      TrialStarts(run[i], run[k]);
    } else {
      TrialContinues(loader, run, i, k - 1);
      TrialStep(loader, run[k - 1], run[k], run[i].phase.target, LateCuts(run, i + 1, k - 1));
    }
  }

  /** Outside of a trial nothing that is quiet changes the environment. */
  predicate SettledShape(s: State, first: string) {
    && s.env.mode != TRY && s.env.mode != "" && s.env.ab == first && first != ""
    && (s.phase.Booting? ==> s.phase.pending == [] && s.phase.target == first)
  }

  lemma RegularStarts(s: State, s': State)
    requires Inv(s) && StartKernel(s, s') && s.env.mode != TRY
    ensures SettledShape(s', s.phase.target) && s'.good == s.good && ByName(s.phase.target) in s.good
  {
    ShortNames(A);
    AfterBootIs(s.env);
  }

  lemma RegularStep(loader: Loader, s: State, s': State, first: string)
    requires loader != Uboot && Inv(s) && Quiet(loader, s, s') && SettledShape(s, first)
    ensures SettledShape(s', first)
  {
    ShortNames(A);
    AfterBootIs(s.env);
  }

  lemma {:induction false} RegularContinues(loader: Loader, run: seq<State>, i: nat, k: nat)
    requires loader != Uboot && IsRun(loader, run) && i < k < |run|
    requires StartKernel(run[i], run[i + 1]) && run[i].phase.Booting? && run[i].env.mode != TRY
    requires forall l :: i < l < k ==> Quiet(loader, run[l], run[l + 1])
    ensures SettledShape(run[k], run[i].phase.target)
    ensures run[k].good == run[i].good
    decreases k
  {
    hide Inv, SettledShape, StartKernel, Next, IsRun, ScriptWrite;
    RunsAreSafe(loader, run, k - 1);
    if k == i + 1 {
      assert StartKernel(run[i], run[i + 1]);
      RegularStarts(run[i], run[k]);
    } else {
      RegularContinues(loader, run, i, k - 1);
      RegularStep(loader, run[k - 1], run[k], run[i].phase.target);
    }
  }

  lemma StartedIsNamed(s: State, s': State)
    requires Inv(s) && StartKernel(s, s')
    ensures s.phase.Booting? && s.phase.pending == [] && s'.phase.Up? && ShortName(s'.phase.running) == s.env.ab
    ensures s.phase.target == s.env.ab && s.good != {}
  {
    ShortNames(A);
    AfterBootIs(s.env);
  }

  /** Two consecutive starts with power cuts anywhere.  Outside of a trial both start the same good rootfs.
      In a trial they start different ones if and only if the number of late power cuts between them is
      even; so one of them is good if and only if that is so or the first one is good. */
  lemma TwoStartsFindAGoodRootfs(loader: Loader, run: seq<State>, i: nat, j: nat)
    requires loader != Uboot && ConsecutiveStarts(loader, run, i, j)
    ensures run[j].good == run[i].good && run[i + 1].phase.Up? && run[j + 1].phase.Up?
    ensures var first, second, good := run[i + 1].phase.running, run[j + 1].phase.running, run[i].good;
      var even := LateCuts(run, i + 1, j) % 2 == 0;
      && (first != second <==> run[i].env.mode == TRY && even)
      && (run[i].env.mode != TRY ==> first in good)
      && (first in good || second in good <==> first in good || even)
  {
    hide Inv, StartKernel, Next, Quiet, LateCuts, IsRun;
    RunsAreSafe(loader, run, i);
    RunsAreSafe(loader, run, j);
    StartedIsNamed(run[i], run[i + 1]);
    StartedIsNamed(run[j], run[j + 1]);
    ShortNames(A);
    ShortNames(B);
    var g :| g in run[i].good;
    assert g == A || g == B;
    if run[i].env.mode == TRY {
      TrialContinues(loader, run, i, j);
    } else {
      RegularStarts(run[i], run[i + 1]);
      RegularContinues(loader, run, i, j);
    }
  }

  /** Completing the mark in any boot ends the trial on the running rootfs: the script then changes
      nothing any more and starts that rootfs at every further boot. */
  lemma MarkEndsTheTrial(env: Env, running: Rootfs)
    ensures var marked := StoreAll(env, MarkSuccessful(ShortName(running)));
      && marked == Env(REGULAR, ShortName(running), "0")
      && BootWrites(marked) == []
      && AfterBoot(marked) == marked
      && BootTarget(marked) == ShortName(running)
  {
    ShortNames(running);
    MarkSuccessfulIs(env, ShortName(running));
    AfterBootIs(Env(REGULAR, ShortName(running), "0"));
  }

  // ---------------------------------------------------------------- progress

  function LastState(run: seq<State>): State
    requires run != []
  {
    run[|run| - 1]
  }

  lemma Extend(loader: Loader, run: seq<State>, s: State)
    requires IsRun(loader, run) && Next(loader, LastState(run), s)
    ensures IsRun(loader, run + [s]) && LastState(run + [s]) == s
  {
    hide Next, Init;
    var longer := run + [s];
    forall i | 0 <= i < |longer| - 1 ensures Next(loader, longer[i], longer[i + 1]) {
      if i < |run| - 1 { assert Next(loader, run[i], run[i + 1]); }
    }
  }

  /** Once the script runs, nothing but power keeps it from starting the rootfs that it has chosen. */
  lemma ScriptCanFinish(loader: Loader, run: seq<State>) returns (longer: seq<State>)
    requires loader != Uboot && IsRun(loader, run) && LastState(run).phase.Booting?
    ensures IsRun(loader, longer) && run <= longer && LastState(longer).good == LastState(run).good
    ensures NamesRootfs(LastState(run).phase.target)
    ensures LastState(longer).phase == Up(ByName(LastState(run).phase.target), false, Idle)
    decreases |LastState(run).phase.pending|
  {
    var s := LastState(run);
    RunsAreSafe(loader, run, |run| - 1);
    TargetIsNamed(s);
    if s.phase.pending == [] {
      var s' := s.(phase := Up(ByName(s.phase.target), false, Idle));
      assert StartKernel(s, s');
      Extend(loader, run, s');
      longer := run + [s'];
    } else {
      var s' := s.(env := Store(s.env, s.phase.pending[0]), phase := s.phase.(pending := s.phase.pending[1..]));
      assert ScriptWrite(s, s');
      Extend(loader, run, s');
      longer := ScriptCanFinish(loader, run + [s']);
    }
  }

  lemma TargetIsNamed(s: State)
    requires Inv(s) && s.phase.Booting?
    ensures NamesRootfs(s.phase.target)
  {
    ShortNames(A);
    AfterBootIs(s.env);
  }

  /** Power can fail in every state, and the machine boots what the script then chooses. */
  lemma CanPowerCycle(loader: Loader, run: seq<State>) returns (longer: seq<State>)
    requires loader != Uboot && IsRun(loader, run)
    ensures IsRun(loader, longer) && run <= longer && LastState(longer).good == LastState(run).good
    ensures NamesRootfs(BootTarget(LastState(run).env))
    ensures LastState(longer).phase == Up(ByName(BootTarget(LastState(run).env)), false, Idle)
  {
    var s := LastState(run);
    hide IsRun, Next;
    var off := s.(phase := Off);
    var on := off.(phase := Booting(BootWrites(s.env), BootTarget(s.env)));
    CutAndOn(loader, s, off, on);
    Extend(loader, run, off);
    Extend(loader, run + [off], on);
    longer := ScriptCanFinish(loader, run + [off] + [on]);
  }

  lemma CutAndOn(loader: Loader, s: State, off: State, on: State)
    requires off == s.(phase := Off) && on == off.(phase := Booting(BootWrites(s.env), BootTarget(s.env)))
    ensures Next(loader, s, off) && Next(loader, off, on)
  {
    assert PowerCut(s, off) && PowerOn(off, on);
  }

  /** A job that is under way can go on, and in the end has written all that it was to write. */
  lemma CanMark(loader: Loader, run: seq<State>) returns (longer: seq<State>)
    requires IsRun(loader, run) && LastState(run).phase.Up? && LastState(run).phase.job == Idle
    ensures IsRun(loader, longer) && run <= longer
    ensures var r := LastState(run).phase.running;
      LastState(longer) == State(Env(REGULAR, ShortName(r), "0"), Up(r, true, Idle), LastState(run).good + {r})
  {
    var s := LastState(run);
    var r := s.phase.running;
    var ws, e := MarkSuccessful(ShortName(r)), s.env;
    var s0 := s.(phase := s.phase.(job := Marking(ws)));
    var s1 := s0.(env := Store(e, ws[0]), phase := s0.phase.(job := Marking(ws[1..])));
    var s2 := s1.(env := Store(s1.env, ws[1]), phase := s1.phase.(job := Marking(ws[2..])));
    var s3 := State(Store(s2.env, ws[2]), Up(r, true, Idle), s.good + {r});
    assert BeginMark(s, s0) && MarkWrite(s0, s1);
    assert ws[1..][1..] == ws[2..] && MarkWrite(s1, s2);
    assert ws[2..][1..] == [] && MarkWrite(s2, s3);
    hide IsRun;
    Extend(loader, run, s0);
    Extend(loader, run + [s0], s1);
    Extend(loader, run + [s0] + [s1], s2);
    Extend(loader, run + [s0] + [s1] + [s2], s3);
    longer := run + [s0] + [s1] + [s2] + [s3];
  }

  /** Whatever has been begun can also fail at any of its writes. */
  lemma CanAbort(loader: Loader, s: State)
    requires s.phase.Up? && s.phase.job != Idle
    ensures Next(loader, s, s.(phase := s.phase.(job := Idle)))
  {
    assert Abort(s, s.(phase := s.phase.(job := Idle)));
  }

  /** From every state of every run the machine can get to a marked boot outside of any trial. */
  lemma CanAlwaysRecover(loader: Loader, run: seq<State>) returns (longer: seq<State>)
    requires loader != Uboot && IsRun(loader, run)
    ensures IsRun(loader, longer) && run <= longer
    ensures var s := LastState(longer);
      s.phase.Up? && s.phase.marked && s.phase.job == Idle && s.phase.running in s.good &&
      s.env == Env(REGULAR, ShortName(s.phase.running), "0")
  {
    hide IsRun;
    var booted := CanPowerCycle(loader, run);
    longer := CanMark(loader, booted);
  }

  /** In a marked boot the other rootfs can be overwritten and asked for, and is then what the script starts. */
  lemma CanUpdate(run: seq<State>) returns (longer: seq<State>)
    requires IsRun(Grub, run)
    requires var s := LastState(run); s.phase.Up? && s.phase.marked && s.phase.job == Idle
    ensures IsRun(Grub, longer) && run <= longer
    ensures var s, r := LastState(longer), LastState(run).phase.running;
      && s.phase == Up(r, true, Idle) && s.good == LastState(run).good - {Other(r)}
      && s.env.mode == TRY && BootTarget(s.env) == ShortName(Other(r))
  {
    var s := LastState(run);
    var r := s.phase.running;
    var ws := GrubToggle(ShortName(Other(r)));
    RunsAreSafe(Grub, run, |run| - 1);
    ShortNames(r);
    var s0 := s.(good := s.good - {Other(r)});
    var s1 := s0.(phase := s.phase.(job := Toggling(ws)));
    var s2 := s1.(env := Store(s.env, ws[0]), phase := s.phase.(job := Toggling(ws[1..])));
    var s3 := s2.(env := Store(s2.env, ws[1]), phase := s.phase.(job := Idle));
    assert OverwriteOther(s, s0) && BeginToggle(Grub, s0, s1) && ToggleWrite(s1, s2);
    assert ws[1..][1..] == [] && ToggleWrite(s2, s3);
    AfterBootIs(s3.env);
    hide IsRun, Inv;
    Extend(Grub, run, s0);
    Extend(Grub, run + [s0], s1);
    Extend(Grub, run + [s0] + [s1], s2);
    Extend(Grub, run + [s0] + [s1] + [s2], s3);
    longer := run + [s0] + [s1] + [s2] + [s3];
  }

  // ---------------------------------------------------------------- interrupted writers

  /** Whatever prefix of its writes a writer or the boot script leaves on disk, the machine is off in a state
      that the invariant covers: for the toggle of a marked boot ... */
  lemma InterruptedToggleIsSafe(s: State, k: nat)
    requires Inv(s) && s.phase.Up? && s.phase.marked && k <= 2
    ensures Inv(State(StoreAll(s.env, GrubToggle(ShortName(Other(s.phase.running)))[..k]), Off, s.good))
  {
    var ws := GrubToggle(ShortName(Other(s.phase.running)));
    ShortNames(s.phase.running);
    assert ws[..2] == ws && ws[..1] == [Write(Mode, TRY)];
    ToggleIs(s.env, ShortName(Other(s.phase.running)));
    StoreOne(s.env, ws[0]);
  }

  /** ... for marking any boot, whose completion makes the running rootfs good ... */
  lemma InterruptedMarkIsSafe(s: State, k: nat)
    requires Inv(s) && s.phase.Up? && k <= 3
    ensures var good := if k == 3 then s.good + {s.phase.running} else s.good;
      Inv(State(StoreAll(s.env, MarkSuccessful(ShortName(s.phase.running))[..k]), Off, good))
  {
    var ws := MarkSuccessful(ShortName(s.phase.running));
    ShortNames(s.phase.running);
    assert ws[..3] == ws && ws[..2] == [ws[0], ws[1]] && ws[..1] == [ws[0]];
    MarkSuccessfulIs(s.env, ShortName(s.phase.running));
    StoreTwo(s.env, ws[0], ws[1]);
    StoreOne(s.env, ws[0]);
    assert k == 3 ==> s.phase.running in s.good + {s.phase.running};
  }

  /** ... and for the script itself. */
  lemma InterruptedBootIsSafe(s: State, k: nat)
    requires Inv(s) && k <= |BootWrites(s.env)|
    ensures Inv(State(StoreAll(s.env, BootWrites(s.env)[..k]), Off, s.good))
  {
    var ws := BootWrites(s.env);
    ShortNames(A);
    ShortNames(B);
    AfterBootIs(s.env);
    assert ws[..|ws|] == ws;
    if 0 < k < |ws| {
      assert |ws| == 2 && ws[..1] == [ws[0]];
      StoreOne(s.env, ws[0]);
    }
  }

  // ---------------------------------------------------------------- u-boot's order of writes

  /** What a caller can check before it toggles or lets the other rootfs be overwritten: a toggle starts in a
      trial or towards a good rootfs, and an overwrite happens in a trial or while the running rootfs is
      the one that is named. */
  predicate Guarded(s: State, s': State) {
    && (BeginToggle(Uboot, s, s') ==> s.env.mode == TRY || Other(s.phase.running) in s.good)
    && (OverwriteOther(s, s') ==> s.env.mode == TRY || WithDefaults(s.env).ab == ShortName(s.phase.running))
  }

  predicate UbootJobShape(s: State, running: Rootfs, marked: bool, job: Job) {
    if job.Toggling? then
      var ws := UbootToggle(ShortName(Other(running)));
      marked && job.pending in {ws, ws[1..]} && (s.env.mode == TRY || Other(running) in s.good)
    else JobShape(s.env, running, marked, job)
  }

  /** Differs from `UpShape` in that a marked boot may find the other, good, rootfs named. */
  predicate UbootUpShape(s: State) {
    s.phase.Up? ==>
      && s.env.mode != "" && s.env.ab != ""
      && (s.env.mode != TRY && !s.phase.marked ==> s.env.ab == ShortName(s.phase.running))
      && (s.phase.marked ==> s.phase.running in s.good && s.env.trial == "0")
      && UbootJobShape(s, s.phase.running, s.phase.marked, s.phase.job)
  }

  predicate UbootInv(s: State) {
    && EnvShape(s.env)
    && s.good != {}
    && Safe(s)
    && (s.phase.Booting? ==> BootingShape(s.env, s.phase.pending, s.phase.target))
    && UbootUpShape(s)
  }

  lemma UbootScriptWriteKeepsInv(s: State, s': State)
    requires UbootInv(s) && ScriptWrite(s, s')
    ensures UbootInv(s')
  {
    assert Inv(s);
    ScriptWriteKeepsInv(s, s');
  }

  lemma UbootMarkWriteKeepsInv(s: State, s': State)
    requires UbootInv(s) && MarkWrite(s, s')
    ensures UbootInv(s')
  {
    ShortNames(s.phase.running);
    var ws, p := MarkSuccessful(ShortName(s.phase.running)), s.phase.job.pending;
    assert |ws[1..]| == 2 && |ws[2..]| == 1;
    if p == ws {
    } else if p == ws[1..] {
      assert p[1..] == ws[2..] && p[0] == ws[1];
    } else {
      assert p[1..] == [] && p[0] == ws[2];
    }
  }

  lemma UbootToggleWriteKeepsInv(s: State, s': State)
    requires UbootInv(s) && ToggleWrite(s, s')
    ensures UbootInv(s')
  {
    ShortNames(s.phase.running);
    ShortNames(Other(s.phase.running));
    var ws, p := UbootToggle(ShortName(Other(s.phase.running))), s.phase.job.pending;
    assert |ws[1..]| == 1;
    if p != ws {
      assert p[1..] == [] && p[0] == ws[1];
    }
  }

  lemma UbootStepKeepsInv(s: State, s': State)
    requires UbootInv(s) && Next(Uboot, s, s') && Guarded(s, s')
    ensures UbootInv(s')
  {
    if ScriptWrite(s, s') {
      UbootScriptWriteKeepsInv(s, s');
    } else if MarkWrite(s, s') {
      UbootMarkWriteKeepsInv(s, s');
    } else if ToggleWrite(s, s') {
      UbootToggleWriteKeepsInv(s, s');
    } else if OverwriteOther(s, s') {
      assert s.phase.running in s'.good;
      ShortNames(s.phase.running);
    } else {
      ShortNames(A);
      ShortNames(B);
      AfterBootIs(s.env);
    }
  }

  ghost predicate AllGuarded(run: seq<State>) {
    forall i :: 0 <= i < |run| - 1 ==> Guarded(run[i], run[i + 1])
  }

  /** Every state is safe, and stays safe if the toggle under way writes once more. */
  ghost predicate SafeThroughout(run: seq<State>) {
    forall i :: 0 <= i < |run| ==> Safe(run[i]) && SafeAfterWrite(run[i])
  }

  predicate SafeAfterWrite(s: State) {
    s.phase.Up? && s.phase.job.Toggling? && s.phase.job.pending != [] ==> Safe(AfterToggleWrite(s))
  }

  /** The one state that a write of the toggle leads to. */
  function AfterToggleWrite(s: State): (s': State)
    requires s.phase.Up? && s.phase.job.Toggling? && s.phase.job.pending != []
    ensures ToggleWrite(s, s') && forall t :: ToggleWrite(s, t) ==> t == s'
  {
    var rest := s.phase.job.pending[1..];
    s.(env := Store(s.env, s.phase.job.pending[0]),
       phase := s.phase.(job := if rest == [] then Idle else Toggling(rest)))
  }

  lemma {:induction false} GuardedRunsAreSafe(run: seq<State>, i: nat)
    requires IsRun(Uboot, run) && AllGuarded(run) && i < |run|
    ensures UbootInv(run[i])
  {
    if i == 0 {
      ShortNames(A);
    } else {
      GuardedRunsAreSafe(run, i - 1);
      UbootStepKeepsInv(run[i - 1], run[i]);
    }
  }

  /** The state itself, or the next write of the toggle that the step has begun, is unsafe. */
  lemma UnguardedStepIsUnsafe(s: State, s': State)
    requires Next(Uboot, s, s') && !Guarded(s, s') && Safe(s)
    ensures !Safe(s') || !SafeAfterWrite(s')
  {
    ShortNames(A);
    ShortNames(B);
    var other := Other(s.phase.running);
    if BeginToggle(Uboot, s, s') && s.env.mode != TRY && other !in s.good {
      assert s'.phase.job.pending[0] == Write(Ab, ShortName(other));
      assert AfterToggleWrite(s').env == s.env.(ab := ShortName(other));
    }
  }

  /** With u-boot's order of writes a run is safe, and one more write of a toggle keeps it so, if and only
      if each of its steps is guarded. */
  lemma UbootRunsAreSafeExactlyWhenGuarded(run: seq<State>)
    requires IsRun(Uboot, run)
    ensures SafeThroughout(run) <==> AllGuarded(run)
  {
    hide Next, Guarded, Safe, SafeAfterWrite, UbootInv;
    if AllGuarded(run) {
      forall i | 0 <= i < |run| ensures Safe(run[i]) && SafeAfterWrite(run[i]) {
        GuardedRunsAreSafe(run, i);
        InvSurvivesAWrite(run[i]);
      }
    }
    if SafeThroughout(run) {
      forall i | 0 <= i < |run| - 1 ensures Guarded(run[i], run[i + 1]) {
        assert Next(Uboot, run[i], run[i + 1]);
        if !Guarded(run[i], run[i + 1]) { UnguardedStepIsUnsafe(run[i], run[i + 1]); }
      }
    }
  }

  lemma InvSurvivesAWrite(s: State)
    requires UbootInv(s)
    ensures Safe(s) && SafeAfterWrite(s)
  {
    if s.phase.Up? && s.phase.job.Toggling? && s.phase.job.pending != [] {
      UbootToggleWriteKeepsInv(s, AfterToggleWrite(s));
    }
  }

  /** Conversely, a run with an unguarded step can be continued, by at most one step, to one that is
      not safe. */
  lemma UnguardedRunGoesWrong(run: seq<State>, i: nat) returns (bad: seq<State>)
    requires IsRun(Uboot, run) && i < |run| - 1 && !Guarded(run[i], run[i + 1])
    ensures IsRun(Uboot, bad) && run[..i + 2] <= bad && |bad| <= i + 3
    ensures exists k :: 0 <= k < |bad| && !Safe(bad[k])
  {
    hide Guarded, Safe, Init, PowerCut, PowerOn, ScriptWrite, StartKernel, BeginMark, MarkWrite, BeginToggle, Abort;
    bad := run[..i + 2];
    assert bad[i] == run[i] && bad[i + 1] == run[i + 1];
    if Safe(run[i]) && Safe(run[i + 1]) {
      assert Next(Uboot, run[i], run[i + 1]);
      UnguardedStepIsUnsafe(run[i], run[i + 1]);
      var next := AfterToggleWrite(run[i + 1]);
      bad := bad + [next];
      assert Next(Uboot, bad[i + 1], bad[i + 2]);
      assert !Safe(bad[i + 2]);
    }
  }

  // ---------------------------------------------------------------- runs that go wrong

  /** The factory rootfs a is booted and marked, with `good` known to be good: seven states. */
  function MarkedBoot(good: set<Rootfs>): (run: seq<State>)
    ensures |run| == 7 && run[6] == State(Env(REGULAR, "a", "0"), Up(A, true, Idle), good)
  {
    var e, f := Env(REGULAR, "a", ""), Env(REGULAR, "a", "0");
    var mark := MarkSuccessful("a");
    [ State(e, Off, good),
      State(e, Booting([], "a"), good),
      State(e, Up(A, false, Idle), good),
      State(e, Up(A, false, Marking(mark)), good),
      State(f, Up(A, false, Marking(mark[1..])), good),
      State(f, Up(A, false, Marking(mark[2..])), good),
      State(f, Up(A, true, Idle), good)
    ]
  }

  lemma MarkedBootBoots(good: set<Rootfs>)
    ensures var run := MarkedBoot(good);
      PowerOn(run[0], run[1]) && StartKernel(run[1], run[2]) && BeginMark(run[2], run[3])
  {
    ShortNames(A);
    AfterBootIs(MarkedBoot(good)[0].env);
  }

  lemma MarkedBootMarks(good: set<Rootfs>)
    requires A in good
    ensures var run := MarkedBoot(good);
      MarkWrite(run[3], run[4]) && MarkWrite(run[4], run[5]) && MarkWrite(run[5], run[6])
  {
    var mark := MarkSuccessful("a");
    ShortNames(A);
    assert mark[1..][1..] == mark[2..] && mark[2..][1..] == [];
    assert good + {A} == good;
  }

  lemma MarkedBootStarts(good: set<Rootfs>)
    requires A in good
    ensures Init(MarkedBoot(good)[0])
  {
    ShortNames(A);
  }

  lemma MarkedBootIsARun(loader: Loader, good: set<Rootfs>)
    requires A in good
    ensures IsRun(loader, MarkedBoot(good))
  {
    MarkedBootStarts(good);
    MarkedBootBoots(good);
    MarkedBootMarks(good);
    hide MarkedBoot, Init;
    hide PowerCut, PowerOn, ScriptWrite, StartKernel, BeginMark, MarkWrite, BeginToggle, ToggleWrite, Abort;
    var run := MarkedBoot(good);
    assert Next(loader, run[0], run[1]) && Next(loader, run[1], run[2]) && Next(loader, run[2], run[3]);
    assert Next(loader, run[3], run[4]) && Next(loader, run[4], run[5]) && Next(loader, run[5], run[6]);
  }

  lemma ContinueRun(loader: Loader, run: seq<State>, more: seq<State>)
    requires IsRun(loader, run)
    requires forall k :: 0 <= k < |more| ==> Next(loader, (run + more)[|run| + k - 1], more[k])
    ensures IsRun(loader, run + more)
  {
    hide Next, Init;
    var all := run + more;
    forall i | 0 <= i < |all| - 1 ensures Next(loader, all[i], all[i + 1]) {
      if i + 1 >= |run| {
        var k := i + 1 - |run|;
        assert all[i + 1] == more[k] && all[|run| + k - 1] == all[i];
      }
    }
  }

  /** Power fails between the two writes of u-boot's toggle, towards a rootfs that was never booted. */
  function TornToggle(): seq<State> {
    var e, f := Env(REGULAR, "a", "0"), Env(REGULAR, "b", "0");
    [ State(e, Up(A, true, Toggling(UbootToggle("b"))), {A}),
      State(f, Up(A, true, Toggling(UbootToggle("b")[1..])), {A}),
      State(f, Off, {A})
    ]
  }

  lemma TornToggleSteps()
    ensures var run := MarkedBoot({A}) + TornToggle();
      BeginToggle(Uboot, run[6], run[7]) && ToggleWrite(run[7], run[8]) && PowerCut(run[8], run[9])
  {
    hide MarkedBoot;
    ShortNames(A);
  }

  /** The first guard is needed.  After this run no boot ever starts the good rootfs again: the script
      sees no trial. */
  lemma UbootCrashIsUnsafe()
    ensures var run := MarkedBoot({A}) + TornToggle();
      var s := run[9];
      && IsRun(Uboot, run)
      && !Safe(s) && AfterBoot(s.env) == s.env && ByName(BootTarget(s.env)) !in s.good
  {
    hide MarkedBoot, IsRun;
    var before, more := MarkedBoot({A}), TornToggle();
    ShortNames(A);
    ShortNames(B);
    MarkedBootIsARun(Uboot, {A});
    TornToggleSteps();
    ContinueRun(Uboot, before, more);
    AfterBootIs(more[2].env);
  }

  /** The second write of the toggle fails, and the other rootfs, good until then, is overwritten. */
  function AbortedToggle(): seq<State> {
    var e, f := Env(REGULAR, "a", "0"), Env(REGULAR, "b", "0");
    [ State(e, Up(A, true, Toggling(UbootToggle("b"))), {A, B}),
      State(f, Up(A, true, Toggling(UbootToggle("b")[1..])), {A, B}),
      State(f, Up(A, true, Idle), {A, B}),
      State(f, Up(A, true, Idle), {A})
    ]
  }

  lemma AbortedToggleSteps()
    ensures var run := MarkedBoot({A, B}) + AbortedToggle();
      && BeginToggle(Uboot, run[6], run[7]) && ToggleWrite(run[7], run[8]) && Abort(run[8], run[9])
      && OverwriteOther(run[9], run[10])
  {
    hide MarkedBoot;
    ShortNames(A);
    assert {A, B} - {B} == {A};
  }

  /** The second guard is needed as well: here only the overwrite is unguarded. */
  lemma UbootAbortIsUnsafe()
    ensures var run := MarkedBoot({A, B}) + AbortedToggle();
      && IsRun(Uboot, run)
      && Guarded(run[6], run[7]) && Safe(run[9]) && !Guarded(run[9], run[10]) && !Safe(run[10])
  {
    hide MarkedBoot, IsRun;
    var before, more := MarkedBoot({A, B}), AbortedToggle();
    ShortNames(A);
    ShortNames(B);
    MarkedBootIsARun(Uboot, {A, B});
    AbortedToggleSteps();
    ContinueRun(Uboot, before, more);
  }

  /** Grub: a trial of b, which is not good, fails; at the next boot power fails after the script has gone
      back to a, and the boot after that goes forward to b again. */
  function WastedPass(): (run: seq<State>)
    ensures |run| == 14
  {
    var e, t, u := Env(REGULAR, "a", "0"), Env(TRY, "a", "0"), Env(TRY, "b", "0");
    var b, a := Env(TRY, "b", "1"), Env(TRY, "a", "1");
    [ State(e, Up(A, true, Toggling(GrubToggle("b"))), {A}),
      State(t, Up(A, true, Toggling(GrubToggle("b")[1..])), {A}),
      State(u, Up(A, true, Idle), {A})
    ] + NextPass(u, Write(Trial, "1"), b) + [State(b, Up(B, false, Idle), {A})] +
    NextPass(b, Write(Ab, "a"), a) + NextPass(a, Write(Ab, "b"), b) + [State(b, Up(B, false, Idle), {A})]
  }

  /** Power is off, the machine boots, and the script's one write is done. */
  function NextPass(e: Env, w: Write, f: Env): seq<State> {
    [State(e, Off, {A}), State(e, Booting([w], f.ab), {A}), State(f, Booting([], f.ab), {A})]
  }

  lemma WastedPassToggle()
    ensures var run := MarkedBoot({A}) + WastedPass();
      BeginToggle(Grub, run[6], run[7]) && ToggleWrite(run[7], run[8]) && ToggleWrite(run[8], run[9])
  {
    hide MarkedBoot;
    ShortNames(A);
  }

  /** A power cut in a trial, and the boot that follows it, up to the start of the kernel. */
  lemma BootInTrial(s: State)
    requires s.env.mode == TRY && NamesRootfs(s.env.ab)
    ensures var e := s.env;
      var flipped := if e.ab == "a" then "b" else "a";
      var w := if e.trial == "1" then Write(Ab, flipped) else Write(Trial, "1");
      var off, on := s.(phase := Off), s.(phase := Booting([w], Store(e, w).ab));
      PowerCut(s, off) && PowerOn(off, on) && ScriptWrite(on, State(Store(e, w), Booting([], Store(e, w).ab), s.good))
  {
    ShortNames(A);
    AfterBootIs(s.env);
    assert BootWrites(s.env) == TrialWrites(s.env);
  }

  lemma WastedPassBoot(k: nat)
    requires k in {9, 13, 16}
    ensures var run := MarkedBoot({A}) + WastedPass();
      PowerCut(run[k], run[k + 1]) && PowerOn(run[k + 1], run[k + 2]) && ScriptWrite(run[k + 2], run[k + 3])
  {
    hide PowerCut, PowerOn, ScriptWrite, MarkedBoot;
    ShortNames(A);
    BootInTrial((MarkedBoot({A}) + WastedPass())[k]);
  }

  lemma QuietBoot(loader: Loader, s: State, s': State)
    requires PowerCut(s, s') || PowerOn(s, s') || ScriptWrite(s, s')
    ensures Quiet(loader, s, s') && Next(loader, s, s')
    ensures s'.phase != Off ==> !LateCut(s, s')
  {}

  lemma WastedPassIsQuiet(k: nat)
    requires 9 <= k < 19 && k != 12
    ensures var run := MarkedBoot({A}) + WastedPass();
      Quiet(Grub, run[k], run[k + 1]) && Next(Grub, run[k], run[k + 1]) && (LateCut(run[k], run[k + 1]) <==> k == 16)
  {
    hide PowerOn, ScriptWrite, Quiet, Next;
    var run := MarkedBoot({A}) + WastedPass();
    WastedPassBoot(if k < 12 then 9 else if k < 16 then 13 else 16);
    QuietBoot(Grub, run[k], run[k + 1]);
  }

  lemma WastedPassStarts()
    ensures var run := MarkedBoot({A}) + WastedPass();
      StartKernel(run[12], run[13]) && StartKernel(run[19], run[20])
  {
    ShortNames(A);
  }

  lemma WastedPassIsARun()
    ensures IsRun(Grub, MarkedBoot({A}) + WastedPass())
  {
    var before, more := MarkedBoot({A}), WastedPass();
    var run := before + more;
    MarkedBootIsARun(Grub, {A});
    WastedPassToggle();
    WastedPassStarts();
    hide IsRun, PowerCut, PowerOn, ScriptWrite, StartKernel, BeginMark, MarkWrite, BeginToggle, ToggleWrite, Abort;
    hide MarkedBoot, WastedPass;
    forall k | 0 <= k < |more| ensures Next(Grub, run[|before| + k - 1], more[k]) {
      assert more[k] == run[7 + k];
      if k >= 3 && k != 6 && k != 13 { WastedPassIsQuiet(6 + k); }
    }
    ContinueRun(Grub, before, more);
  }

  /** So one late power cut is enough for two consecutive starts without a good rootfs. */
  lemma LateCutWastesAPass()
    ensures var run := MarkedBoot({A}) + WastedPass();
      && ConsecutiveStarts(Grub, run, 12, 19) && LateCuts(run, 13, 19) == 1
      && run[13].phase.running == run[20].phase.running == B && B !in run[12].good
  {
    var run := MarkedBoot({A}) + WastedPass();
    hide IsRun, Next, StartKernel, Quiet, LateCut;
    WastedPassIsARun();
    WastedPassStarts();
    forall k | 12 < k < 19
      ensures Quiet(Grub, run[k], run[k + 1]) && (LateCut(run[k], run[k + 1]) <==> k == 16)
    {
      WastedPassIsQuiet(k);
    }
    LateCutsFromTo(run, 13, 16, 19);
  }

  /** A single late power cut is counted once. */
  lemma LateCutsFromTo(run: seq<State>, i: nat, c: nat, j: nat)
    requires i <= c < j < |run|
    requires forall k :: i <= k < j ==> (LateCut(run[k], run[k + 1]) <==> k == c)
    ensures LateCuts(run, i, j) == 1
    decreases j
  {
    hide LateCut;
    if j == c + 1 {
      NoLateCuts(run, i, c);
    } else {
      LateCutsFromTo(run, i, c, j - 1);
    }
    assert LateCut(run[j - 1], run[j]) <==> j - 1 == c;
  }

  lemma NoLateCuts(run: seq<State>, i: nat, j: nat)
    requires i <= j < |run|
    requires forall k :: i <= k < j ==> !LateCut(run[k], run[k + 1])
    ensures LateCuts(run, i, j) == 0
    decreases j
  {
    hide LateCut;
    if i < j {
      NoLateCuts(run, i, j - 1);
      assert !LateCut(run[j - 1], run[j - 1 + 1]);
    }
  }

  // ---------------------------------------------------------------- readers

  /** partition/partition.go, `IsNextBootOther`; a missing variable reads as the empty string here. */
  predicate IsNextBootOther(env: Env, running: Rootfs) {
    env.mode == TRY && env.ab == ShortName(Other(running))
  }

  /** For any environment, whatever it holds: the reader predicts the script exactly when either no trial is
      on and the other rootfs is not named, or a trial is on whose boot has not failed.  An unset
      `snappy_ab` counts as a for the script but not for the reader. */
  lemma PredictionIsRightExactlyWhen(env: Env, running: Rootfs)
    ensures IsNextBootOther(env, running) == (BootTarget(env) == ShortName(Other(running)))
       <==> if env.mode != TRY then WithDefaults(env).ab != ShortName(Other(running))
            else if env.trial != "1" then env.ab != "" || running == A
            else !NamesRootfs(env.ab) && (env.ab == "" <==> running == B)
  {
    ShortNames(A);
    ShortNames(B);
    AfterBootIs(env);
  }

  /** In every reachable state whose running boot has been marked the prediction is right. */
  lemma MarkedBootPredictsNextBoot(loader: Loader, run: seq<State>, i: nat)
    requires loader != Uboot && IsRun(loader, run) && i < |run|
    requires run[i].phase.Up? && run[i].phase.marked
    ensures IsNextBootOther(run[i].env, run[i].phase.running)
       <==> BootTarget(run[i].env) == ShortName(Other(run[i].phase.running))
  {
    RunsAreSafe(loader, run, i);
    ShortNames(A);
    PredictionIsRightExactlyWhen(run[i].env, run[i].phase.running);
  }

  /** snappy/systemimage.go: the part of rootfs `part` on a running system.  `SetActive` toggles on odd
      parity of its three inputs, and a toggle always asks for the other rootfs. */
  method SetActive(file: EnvFile, running: Rootfs, part: Rootfs, active: bool, assetsHandled: bool) returns (ok: bool)
    modifies file
    ensures ok <==> !ToggleIsDue(old(file.env), running, part, active) || (assetsHandled && old(file.budget) >= 2)
    ensures ok ==> file.env == AfterSetActive(old(file.env), running, part, active)
    ensures ToggleIsDue(old(file.env), running, part, active) && assetsHandled ==>
      file.Holds(old(file.env), old(file.budget), old(file.after), GrubToggle(ShortName(Other(running))))
    ensures !ToggleIsDue(old(file.env), running, part, active) || !assetsHandled ==>
      file.env == old(file.env) && file.budget == old(file.budget)
  {
    var isNextBootOther := IsNextBootOther(file.env, running);
    var isActive := part == running;
    if (active != isActive) != isNextBootOther {
      ok := ToggleNextBoot(file, running, true, assetsHandled);
    } else {
      ok := true;
    }
  }

  /** The rows of the table of `SetActive` that toggle: an odd number of its three inputs is true. */
  predicate ToggleIsDue(env: Env, running: Rootfs, part: Rootfs, active: bool) {
    var n := (if active then 1 else 0) + (if part == running then 1 else 0) +
             (if IsNextBootOther(env, running) then 1 else 0);
    n == 1 || n == 3
  }

  /** partition/partition.go, `ToggleNextBoot`: without a second rootfs it succeeds and does nothing. */
  method ToggleNextBoot(file: EnvFile, running: Rootfs, dual: bool, assetsHandled: bool) returns (ok: bool)
    modifies file
    ensures !dual || !assetsHandled ==> ok == !dual && file.env == old(file.env) && file.budget == old(file.budget)
    ensures dual && assetsHandled ==>
      file.Holds(old(file.env), old(file.budget), old(file.after), GrubToggle(ShortName(Other(running))))
    ensures dual && ok ==> file.env == Env(TRY, ShortName(Other(running)), old(file.env.trial))
    ensures dual && assetsHandled ==> (ok <==> old(file.budget) >= 2)
  {
    if !dual { return true; }
    ok := ToggleBootloaderRootfs(file, running, assetsHandled);
  }

  /** `toggleBootloaderRootfs` on a system with two rootfs: the environment is written only after the boot
      assets have been handled. */
  method ToggleBootloaderRootfs(file: EnvFile, running: Rootfs, assetsHandled: bool) returns (ok: bool)
    modifies file
    ensures !assetsHandled ==> !ok && file.env == old(file.env) && file.budget == old(file.budget)
    ensures assetsHandled ==>
      && file.Holds(old(file.env), old(file.budget), old(file.after), GrubToggle(ShortName(Other(running))))
      && (ok <==> old(file.budget) >= 2)
    ensures ok ==> file.env == Env(TRY, ShortName(Other(running)), old(file.env.trial))
  {
    if !assetsHandled { return false; }
    ok := file.GrubToggleRootFS(ShortName(Other(running)));
  }

  /** The environment that a successful `SetActive` leaves. */
  function AfterSetActive(env: Env, running: Rootfs, part: Rootfs, active: bool): Env {
    if ToggleIsDue(env, running, part, active)
    then Env(TRY, ShortName(Other(running)), env.trial)
    else env
  }

  /** In a marked boot, `SetActive` makes the next boot run the part if and only if `active` says so,
      except in the rows FFT and TTT of its table, where it never does. */
  lemma SetActiveDecidesNextBoot(loader: Loader, run: seq<State>, i: nat, part: Rootfs, active: bool)
    requires loader != Uboot && IsRun(loader, run) && i < |run|
    requires run[i].phase.Up? && run[i].phase.marked
    ensures var env, running := run[i].env, run[i].phase.running;
      (BootTarget(AfterSetActive(env, running, part, active)) == ShortName(part)) == active <==>
        !(IsNextBootOther(env, running) && active == (part == running))
  {
    var env, running := run[i].env, run[i].phase.running;
    RunsAreSafe(loader, run, i);
    ShortNames(A);
    ShortNames(B);
    AfterBootIs(env);
    AfterBootIs(Env(TRY, ShortName(Other(running)), env.trial));
  }

  /** Both rows at one reachable state: a trial of b has been asked for while a runs.  Deactivating b and
      activating a toggle once more, and b is started all the same. */
  lemma SetActiveExample()
    ensures var run := MarkedBoot({A}) + WastedPass();
      var s := run[9];
      && IsRun(Grub, run) && s.phase == Up(A, true, Idle)
      && BootTarget(AfterSetActive(s.env, A, B, false)) == "b"
      && BootTarget(AfterSetActive(s.env, A, A, true)) == "b"
  {
    hide MarkedBoot, IsRun;
    WastedPassIsARun();
    ShortNames(A);
    ShortNames(B);
    AfterBootIs(Env(TRY, "b", "0"));
  }

  /** What the steps of an image update before the toggle report. */
  datatype Update = Update(sideloaded: bool, synced: bool, downloaded: bool, verified: bool, assetsHandled: bool)

  predicate Succeeds(u: Update) { !u.sideloaded && u.synced && u.downloaded && u.verified && u.assetsHandled }

  /** snappy/systemimage.go, `Install`: a side-loaded system is refused, boot files are synced, the image is
      written to the other rootfs, the result is verified, and only then is the next boot toggled.  From the
      download on, whatever it reports, the other rootfs is not known to be good any more. */
  method InstallImage(file: EnvFile, running: Rootfs, good: set<Rootfs>, u: Update)
    returns (ok: bool, left: set<Rootfs>)
    modifies file
    ensures ok <==> Succeeds(u) && old(file.budget) >= 2
    ensures !Succeeds(u) ==> file.env == old(file.env)
    ensures Succeeds(u) ==>
      file.Holds(old(file.env), old(file.budget), old(file.after), GrubToggle(ShortName(Other(running))))
    ensures ok && old(file.env.trial) != "1" ==> BootTarget(file.env) == ShortName(Other(running))
    ensures left == if u.sideloaded || !u.synced then good else good - {Other(running)}
    ensures Inv(State(old(file.env), Up(running, true, Idle), good)) ==> Inv(State(file.env, Off, left))
  {
    hide Inv;
    ShortNames(A);
    ShortNames(B);
    left := good;
    ghost var before := State(file.env, Up(running, true, Idle), good);
    if Inv(before) {
      UpdateIsSafe(before, false, 0);
      UpdateIsSafe(before, true, 0);
      UpdateIsSafe(before, true, if file.budget < 2 then file.budget else 2);
    }
    assert GrubToggle(ShortName(Other(running)))[..0] == [];
    AfterBootIs(Env(TRY, ShortName(Other(running)), file.env.trial));
    if u.sideloaded { return false, left; }
    if !u.synced { return false, left; }
    left := left - {Other(running)};
    if !u.downloaded { return false, left; }
    if !u.verified { return false, left; }
    ok := ToggleNextBoot(file, running, true, u.assetsHandled);
  }

  /** A marked boot in which the other rootfs may have been overwritten, and the toggle got `k` writes far. */
  lemma UpdateIsSafe(s: State, overwritten: bool, k: nat)
    requires Inv(s) && s.phase.Up? && s.phase.marked && s.phase.job == Idle && k <= 2
    ensures var good := if overwritten then s.good - {Other(s.phase.running)} else s.good;
      Inv(State(StoreAll(s.env, GrubToggle(ShortName(Other(s.phase.running)))[..k]), Off, good))
  {
    var s' := if overwritten then s.(good := s.good - {Other(s.phase.running)}) else s;
    if overwritten {
      assert OverwriteOther(s, s');
      StepKeepsInv(Grub, s, s');
    }
    InterruptedToggleIsSafe(s', k);
  }
}
