/** Stopping and restarting the services of dependent snaps: snappy/snapp.go, the end of `Install` with the
    two calls that it defers. */
module Services {
  import opened Options
  import opened Lists

  /** A command to systemd; that it was issued does not mean that it succeeded. */
  datatype Command = Start(service: string) | Stop(service: string)

  /** One stop for each of the names, in order. */
  function Stops(names: seq<string>): seq<Command> {
    seq(|names|, i requires 0 <= i < |names| => Stop(names[i]))
  }

  /** One start for each of them. */
  function Starts(names: seq<string>): seq<Command> {
    seq(|names|, i requires 0 <= i < |names| => Start(names[i]))
  }

  function Issued(names: seq<string>, start: bool): seq<Command> { if start then Starts(names) else Stops(names) }

  /** How the pass over the services of the dependents ends; `tried` are the services that it started,
      or tried to start, in this order.  Dependents that cannot be listed end it before it begins. */
  datatype Outcome =
    | NotListed
    | Restarted(tried: seq<string>)
    | StopFailed(k: nat)
    | RefreshFailed
    | RestartFailed(tried: seq<string>)

  /** All commands that the source issues for an outcome: stops in order up to the first failure, starts, and
      then, unless the refresh failed, the deferred calls.  Those stop what has been started again, in
      the order `undo`, and start all that has been stopped, in the order `redo`. */
  ghost predicate IsCycle(
    names: seq<string>, outcome: Outcome, commands: seq<Command>, undo: seq<string>, redo: seq<string>)
  {
    match outcome
    case NotListed => commands == []
    case Restarted(tried) =>
      && commands == Stops(names) + Starts(tried)
      && Distinct(tried) && Members(tried) == Members(names)
    case StopFailed(k) =>
      && k < |names|
      && commands == Stops(names[..k + 1]) + Starts(redo)
      && Distinct(redo) && Members(redo) == Members(names[..k])
    case RefreshFailed =>
      commands == Stops(names)
    case RestartFailed(tried) =>
      && tried != [] && Distinct(tried) && Members(tried) <= Members(names)
      && commands == Stops(names) + Starts(tried) + Stops(undo) + Starts(redo)
      && Distinct(undo) && Members(undo) == Members(tried[..|tried| - 1])
      && Distinct(redo) && Members(redo) == Members(names)
  }

  // ---------------------------------------------------------------- last commands

  /** The last command that was issued for a service. */
  function Last(commands: seq<Command>, service: string): Option<Command> {
    if commands == [] then None
    else
      var c := commands[|commands| - 1];
      if c.service == service then Some(c) else Last(commands[..|commands| - 1], service)
  }

  /** What is issued last decides for the services it is issued for, and for no others. */
  lemma {:induction false} LastOfIssued(before: seq<Command>, names: seq<string>, start: bool, service: string)
    ensures Last(before + Issued(names, start), service)
         == if service !in names then Last(before, service)
            else if start then Some(Start(service)) else Some(Stop(service))
  {
    var all := before + Issued(names, start);
    if names == [] {
      assert all == before;
    } else {
      var rest, last := names[..|names| - 1], names[|names| - 1];
      assert names == rest + [last];
      assert all[..|all| - 1] == before + Issued(rest, start);
      LastOfIssued(before, rest, start, service);
    }
  }

  /** The service was stopped before the outcome was decided. */
  predicate WasStopped(names: seq<string>, outcome: Outcome, i: int) {
    0 <= i < |names| && !outcome.NotListed? && (outcome.StopFailed? ==> i < outcome.k)
  }

  /** The last command for every service that was stopped is a start, unless it was the refresh that failed, and
      then it is the stop. */
  ghost predicate StoppedAreStarted(names: seq<string>, outcome: Outcome, commands: seq<Command>) {
    forall i :: WasStopped(names, outcome, i) ==>
      Last(commands, names[i]) == if outcome.RefreshFailed? then Some(Stop(names[i])) else Some(Start(names[i]))
  }

  /** This holds for every outcome.  A service that was started again before a failure was stopped in between. */
  lemma CycleEndsWithStarts(
    names: seq<string>, outcome: Outcome, commands: seq<Command>, undo: seq<string>, redo: seq<string>)
    requires IsCycle(names, outcome, commands, undo, redo)
    ensures StoppedAreStarted(names, outcome, commands)
    ensures outcome.RestartFailed? ==>
      exists mid :: commands == mid + Starts(redo) && StoppedAgain(mid, outcome.tried)
  {
    hide Last, Starts, Stops;
    forall i | WasStopped(names, outcome, i)
      ensures Last(commands, names[i]) == if outcome.RefreshFailed? then Some(Stop(names[i])) else Some(Start(names[i]))
    {
      var n := names[i];
      assert n in Members(names);
      match outcome
      case Restarted(tried) => LastOfIssued(Stops(names), tried, true, n);
      case StopFailed(k) =>
        assert n in names[..k] && n in Members(names[..k]);
        LastOfIssued(Stops(names[..k + 1]), redo, true, n);
      case RefreshFailed =>
        LastOfIssued([], names, false, n);
        assert [] + Stops(names) == commands;
      case RestartFailed(tried) =>
        LastOfIssued(Stops(names) + Starts(tried) + Stops(undo), redo, true, n);
    }
    if outcome.RestartFailed? {
      var tried := outcome.tried;
      var mid := Stops(names) + Starts(tried) + Stops(undo);
      forall i | 0 <= i < |tried| - 1 ensures Last(mid, tried[i]) == Some(Stop(tried[i])) {
        assert tried[i] in tried[..|tried| - 1] && tried[i] in Members(undo);
        LastOfIssued(Stops(names) + Starts(tried), undo, false, tried[i]);
      }
      assert StoppedAgain(mid, tried);
    }
  }

  /** All but the last of the services that were tried have a stop as their last command. */
  ghost predicate StoppedAgain(commands: seq<Command>, tried: seq<string>) {
    forall i :: 0 <= i < |tried| - 1 ==> Last(commands, tried[i]) == Some(Stop(tried[i]))
  }

  // ---------------------------------------------------------------- the loops

  lemma IssuedStep(names: seq<string>, name: string)
    ensures Stops(names + [name]) == Stops(names) + [Stop(name)]
    ensures Starts(names + [name]) == Starts(names) + [Start(name)]
    ensures Members(names + [name]) == Members(names) + {name}
  {}

  class Systemd {
    /** All commands so far, whether they succeeded or not. */
    var commands: seq<Command>
    /** The number of steps that have failed. */
    ghost var faults: nat

    constructor ()
      ensures commands == [] && faults == 0
    {
      commands, faults := [], 0;
    }

    method Attempt() returns (ok: bool)
      modifies this`faults
      ensures faults == old(faults) + if ok then 0 else 1
    {
      ok := *;
      if !ok { faults := faults + 1; }
    }

    method Issue(c: Command) returns (ok: bool)
      modifies this
      ensures commands == old(commands) + [c]
      ensures faults == old(faults) + if ok then 0 else 1
    {
      commands := commands + [c];
      ok := Attempt();
    }

    /** Issues one command for each service, in any order; failures are only reported. */
    method IssueAll(services: set<string>, start: bool) returns (ghost order: seq<string>)
      modifies this
      ensures commands == old(commands) + if start then Starts(order) else Stops(order)
      ensures Distinct(order) && Members(order) == services
      ensures faults >= old(faults)
    {
      order := [];
      var left := services;
      while left != {}
        invariant commands == old(commands) + if start then Starts(order) else Stops(order)
        invariant Distinct(order) && Members(order) == services - left && left <= services
        invariant faults >= old(faults)
        decreases left
      {
        var s :| s in left;
        IssuedStep(order, s);
        assert s !in Members(order);
        var _ := Issue(if start then Start(s) else Stop(s));
        left, order := left - {s}, order + [s];
      }
    }

    /** Stops services in order, up to the first failure. */
    method StopAll(names: seq<string>) returns (ok: bool, stopped: set<string>, k: nat)
      modifies this
      ensures k <= |names| && (ok <==> k == |names|)
      ensures stopped == Members(names[..k])
      ensures commands == old(commands) + Stops(if ok then names else names[..k + 1])
      ensures |commands| == |old(commands)| + if ok then |names| else k + 1
      ensures forall i :: |old(commands)| <= i < |commands| ==> commands[i] == Stop(names[i - |old(commands)|])
      ensures faults == old(faults) + if ok then 0 else 1
    {
      stopped := {};
      for i := 0 to |names|
        invariant stopped == Members(names[..i]) && commands == old(commands) + Stops(names[..i])
        invariant faults == old(faults)
      {
        assert names[..i + 1] == names[..i] + [names[i]];
        IssuedStep(names[..i], names[i]);
        ok := Issue(Stop(names[i]));
        if !ok {
          k := i;
          return;
        }
        stopped := stopped + {names[i]};
      }
      ok, k := true, |names|;
      assert names[..|names|] == names;
    }

    /** Starts the services again, in any order, up to the first failure. */
    method RestartAll(stopped: set<string>) returns (ok: bool, started: set<string>, tried: seq<string>)
      modifies this
      ensures commands == old(commands) + Starts(tried) && Distinct(tried)
      ensures |commands| >= |old(commands)| && forall i :: |old(commands)| <= i < |commands| ==> commands[i].Start?
      ensures ok ==> Members(tried) == stopped == started
      ensures !ok ==> tried != [] && Members(tried) <= stopped && started == Members(tried[..|tried| - 1])
      ensures faults == old(faults) + if ok then 0 else 1
    {
      started, tried := {}, [];
      var left := stopped;
      while left != {}
        invariant commands == old(commands) + Starts(tried) && Distinct(tried)
        invariant Members(tried) == started == stopped - left && left <= stopped
        invariant faults == old(faults)
        decreases left
      {
        var s :| s in left;
        IssuedStep(tried, s);
        assert s !in Members(tried);
        tried := tried + [s];
        ok := Issue(Start(s));
        if !ok { return; }
        left, started := left - {s}, started + {s};
      }
      ok := true;
    }

    /** If stopping or starting fails, services that were restarted are stopped again and then everything
        that was stopped is started.  If the refresh in between fails, its error lives in an inner scope which
        the deferred calls do not see, and nothing is started. */
    method CycleServices(names: seq<string>)
      returns (outcome: Outcome, ghost undo: seq<string>, ghost redo: seq<string>)
      requires commands == []
      modifies this
      ensures !outcome.NotListed? && IsCycle(names, outcome, commands, undo, redo)
      ensures StoppedAreStarted(names, outcome, commands)
      ensures faults >= old(faults) && (outcome.Restarted? <==> faults == old(faults))
      ensures outcome.RefreshFailed? ==> faults == old(faults) + 1
    {
      hide StoppedAreStarted, Stops, Starts;
      undo, redo := [], [];
      var ok, stopped, k := StopAll(names);
      assert [] + Stops(if ok then names else names[..k + 1]) == commands;
      if !ok {
        redo := IssueAll(stopped, true);
        outcome := StopFailed(k);
      } else {
        assert names[..|names|] == names;
        var refreshed := Attempt();
        if !refreshed {
          outcome := RefreshFailed;
        } else {
          var started, tried;
          ok, started, tried := RestartAll(stopped);
          if ok {
            outcome := Restarted(tried);
          } else {
            undo := IssueAll(started, false);
            redo := IssueAll(stopped, true);
            outcome := RestartFailed(tried);
          }
        }
      }
      CycleEndsWithStarts(names, outcome, commands, undo, redo);
    }
  }

  /** One pass over the services of the dependents, as it went. */
  datatype Cycle = Cycle(
    names: seq<string>, outcome: Outcome, commands: seq<Command>, undo: seq<string>, redo: seq<string>)

  ghost predicate IsSound(c: Cycle) {
    IsCycle(c.names, c.outcome, c.commands, c.undo, c.redo) && StoppedAreStarted(c.names, c.outcome, c.commands)
  }

  lemma NothingCycled(names: seq<string>)
    ensures IsSound(Cycle(names, NotListed, [], [], []))
  {}

  /** One service and a failed refresh: it is stopped, and never started again. */
  lemma FailedRefreshExample()
    ensures var names := ["d.service"];
      var commands := [Stop("d.service")];
      IsCycle(names, RefreshFailed, commands, [], []) && Last(commands, names[0]) == Some(Stop(names[0]))
  {
    var names := ["d.service"];
    assert Stops(names) == [Stop("d.service")];
  }
}
