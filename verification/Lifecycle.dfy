/** Installing, activating, deactivating and removing snaps: snappy/snapp.go and snappy/click.go.

    A file operation or external command is a step that may fail (`Attempt`), and the ghost field `faults`
    counts the steps that did.  Refusals that follow from the state, such as a policy file that exists already,
    are not faults.  Operations whose failure the source only logs are tracked by `clean` as well, which stays
    true as long as none of them failed. */
module Lifecycle {
  import opened Lists
  import opened Options
  import opened Strings
  import opened Version
  import opened VersionOrder
  import opened VersionSort
  import opened Snaps
  import opened Arrangements
  import opened Frameworks
  import opened Upgrades
  import opened Services

  class System {
    /** Base directories that exist, and the parts whose package.yaml is in place. */
    var dirs: set<Dir>
    var meta: map<Dir, Part>
    /** The "current" links of packages and of their data. */
    var current: map<string, string>
    var dataCurrent: map<string, string>
    var data: set<DataDir>
    var files: set<File>
    /** The number of steps that have failed. */
    ghost var faults: nat
    /** The passes over the services of dependents. */
    ghost var log: seq<Cycle>

    constructor ()
      ensures Valid() && Supported(meta) && Now() == State({}, map[], map[], map[], {}, {}, 0, [])
    {
      dirs, meta, current, dataCurrent, data, files := {}, map[], map[], map[], {}, {};
      faults, log := 0, [];
    }

    /** One step that may fail. */
    method Attempt() returns (ok: bool)
      modifies this`faults
      ensures faults == old(faults) + if ok then 0 else 1
    {
      ok := *;
      if !ok { faults := faults + 1; }
    }

    predicate Valid()
      reads this`meta, this`dirs
    {
      forall d :: d in meta ==> d in dirs && DirOf(meta[d]) == d
    }

    /** The whole state as a value. */
    ghost function Now(): State
      reads this
    {
      State(dirs, meta, current, dataCurrent, data, files, faults, log)
    }

    function Active(package: string): Option<Dir>
      reads this`current, this`dirs
    {
      Resolve(package, current, dirs)
    }

    predicate IsActivated(p: Part)
      reads this`current, this`dirs
    {
      IsActive(current, dirs, DirOf(p))
    }

    /** The version that is active, if it can be loaded. */
    function ActivePart(package: string): Option<Part>
      reads this`meta, this`current, this`dirs
    {
      var a := Active(package);
      if a.Some? && a.value in meta then Some(meta[a.value]) else None
    }

    // -------------------------------------------------------------- generated files

    /** Writes a file; if that fails, the file may be left behind. */
    method WriteOne(f: File) returns (ok: bool)
      modifies this`files, this`faults
      ensures files == old(files) || files == old(files) + {f}
      ensures ok ==> files == old(files) + {f}
      ensures faults == old(faults) + if ok then 0 else 1
    {
      ok := Attempt();
      var created: bool := *;
      if ok || created { files := files + {f}; }
    }

    /** Writes files in order, up to the first failure. */
    method WriteAll(fs: seq<File>) returns (ok: bool)
      modifies this`files, this`faults
      ensures exists k :: 0 <= k <= |fs| && files == old(files) + Members(fs[..k])
      ensures ok ==> files == old(files) + Members(fs)
      ensures faults == old(faults) + if ok then 0 else 1
    {
      for k := 0 to |fs|
        invariant files == old(files) + Members(fs[..k]) && faults == old(faults)
      {
        PrefixStep(fs, k);
        ok := WriteOne(fs[k]);
        if !ok { return; }
      }
      assert fs[..|fs|] == fs;
      ok := true;
    }

    /** Removes files in order; one that is not there is no failure, and a failed removal is only logged. */
    method RemoveLogged(fs: seq<File>) returns (clean: bool)
      modifies this`files, this`faults
      ensures old(files) - Members(fs) <= files <= old(files)
      ensures clean ==> files == old(files) - Members(fs)
      ensures faults >= old(faults) && (clean <==> faults == old(faults))
    {
      clean := true;
      for k := 0 to |fs|
        invariant old(files) - Members(fs[..k]) <= files <= old(files)
        invariant clean ==> files == old(files) - Members(fs[..k])
        invariant faults >= old(faults) && (clean <==> faults == old(faults))
      {
        PrefixStep(fs, k);
        var removed := Attempt();
        if removed { files := files - {fs[k]}; }
        clean := clean && removed;
      }
      assert fs[..|fs|] == fs;
    }

    /** `removePackageServices`: each service is disabled and stopped, which may fail, and then its three files
        are removed; in the end systemd is reloaded. */
    method RemoveServices(y: Yaml) returns (ok: bool, clean: bool, ghost done: nat)
      modifies this`files, this`faults
      ensures done <= |ServiceRemoves(y, y.services)| && done % 3 == 0
      ensures ok ==> done == |ServiceRemoves(y, y.services)|
      ensures Cleaned(old(files), files, ServiceRemoves(y, y.services), done, clean)
      ensures faults >= old(faults) + (if ok then 0 else 1) + (if clean then 0 else 1)
      ensures ok && clean ==> faults == old(faults)
      ensures y.services == [] ==> ok && clean
    {
      ghost var all := ServiceRemoves(y, y.services);
      ThreeRemovesEach(y, y.services);
      clean, done := true, 0;
      assert all[..0] == [];
      for k := 0 to |y.services|
        invariant done == 3 * k && (k == 0 ==> clean)
        invariant Cleaned(old(files), files, all, done, clean)
        invariant faults >= old(faults) + (if clean then 0 else 1) && (clean ==> faults == old(faults))
      {
        var s := y.services[k];
        ok := Attempt();
        if !ok { return; }
        ok := Attempt();
        if !ok { return; }
        RemovesOfService(y, y.services, k);
        ghost var first := files;
        var three := [UnitFile(y, s), SocketFile(y, s), BusPolicyFile(y, s)];
        var removed := RemoveLogged(three);
        assert three[..3] == three;
        ThreeMore(old(files), first, files, all, done, clean, removed);
        clean, done := clean && removed, done + 3;
      }
      ok := true;
      if y.services != [] { ok := Attempt(); }
    }

    /** `removeSecurityPolicy` ends at the first profile that cannot be removed. */
    method RemoveProfiles(p: Part) returns (ok: bool, ghost done: nat)
      modifies this`files, this`faults
      ensures done <= |Profiles(p)| && (ok ==> done == |Profiles(p)|)
      ensures files == old(files) - Members(Profiles(p)[..done])
      ensures faults == old(faults) + if ok then 0 else 1
    {
      var fs := Profiles(p);
      done := 0;
      for k := 0 to |fs|
        invariant done == k && faults == old(faults)
        invariant files == old(files) - Members(fs[..k])
      {
        PrefixStep(fs, k);
        ok := Attempt();
        if !ok { return; }
        files := files - {fs[k]};
        done := done + 1;
      }
      ok := true;
    }

    /** policy/policy.go: a source that is not a regular file is an error, and so is an existing target. */
    method InstallPolicy(y: Yaml) returns (ok: bool)
      modifies this`files, this`faults
      ensures old(files) <= files <= old(files) + PolicyTargets(y)
      ensures ok ==> files == old(files) + PolicyTargets(y) && Installable(y, old(files))
      ensures old(faults) <= faults <= old(faults) + 1 && (ok ==> faults == old(faults))
      ensures faults == old(faults) ==> (ok <==> Installable(y, old(files)))
    {
      var fs, targets := PolicyList(y), Policies(y);
      for k := 0 to |fs|
        invariant files == old(files) + Members(targets[..k]) && faults == old(faults)
        invariant forall i :: 0 <= i < k ==> fs[i].regular && targets[i] !in old(files)
        invariant Distinct(targets[..k])
      {
        PrefixStep(targets, k);
        assert fs[k] in fs;
        if !fs[k].regular || targets[k] in files { return false; }
        ok := WriteOne(targets[k]);
        if !ok { return; }
      }
      assert targets[..|fs|] == targets;
      ok := true;
    }

    /** Here a missing target is the error. */
    method RemovePolicy(y: Yaml) returns (ok: bool, ghost done: nat)
      modifies this`files, this`faults
      ensures done <= |Policies(y)| && files == old(files) - Members(Policies(y)[..done])
      ensures ok ==> done == |Policies(y)| && Removable(y, old(files))
      ensures old(faults) <= faults <= old(faults) + 1 && (ok ==> faults == old(faults))
      ensures faults == old(faults) ==> (ok <==> Removable(y, old(files)))
    {
      var fs, targets := PolicyList(y), Policies(y);
      done := 0;
      for k := 0 to |fs|
        invariant done == k
        invariant files == old(files) - Members(targets[..k]) && faults == old(faults)
        invariant forall i :: 0 <= i < k ==> fs[i].regular && targets[i] in old(files)
        invariant Distinct(targets[..k])
      {
        PrefixStep(targets, k);
        assert fs[k] in fs;
        if !fs[k].regular || targets[k] !in files { return false, done; }
        ok := Attempt();
        if !ok { return; }
        files := files - {targets[k]};
        done := done + 1;
      }
      assert targets[..|fs|] == targets;
      ok := true;
    }

    // -------------------------------------------------------------- activation

    /** `os.Remove` of a link, failure only logged. */
    method RemoveCurrent(package: string, wasClean: bool) returns (clean: bool)
      modifies this`current, this`faults
      ensures current == old(current) - {package} || current == old(current)
      ensures clean <==> wasClean && package !in current
      ensures old(faults) <= faults <= old(faults) + 1
      ensures current == if faults == old(faults) then old(current) - {package} else old(current)
    {
      var removed := Attempt();
      if removed { current := current - {package}; }
      clean := wasClean && package !in current;
    }

    method RemoveDataCurrent(package: string)
      modifies this`dataCurrent, this`faults
      ensures dataCurrent == old(dataCurrent) - {package} || dataCurrent == old(dataCurrent)
      ensures old(faults) <= faults <= old(faults) + 1
      ensures dataCurrent == if faults == old(faults) then old(dataCurrent) - {package} else old(dataCurrent)
    {
      var removed := Attempt();
      if removed { dataCurrent := dataCurrent - {package}; }
    }

    /** Removes the generated files of a part, apart from its policies, in order. */
    method ClearFirst(p: Part) returns (ok: bool, clean: bool, ghost done: nat)
      modifies this`files, this`faults
      ensures CanStopAt(p, done) && done <= |FirstRemovals(p)| && (ok ==> done == |FirstRemovals(p)|)
      ensures Cleaned(old(files), files, FirstRemovals(p), done, clean)
      ensures faults >= old(faults) + (if ok then 0 else 1) + (if clean then 0 else 1)
      ensures ok && clean ==> faults == old(faults)
    {
      ghost var w, r, f := Wrappers(p.yaml), ServiceRemoves(p.yaml, p.yaml.services), Profiles(p);
      RemovalsLength(p);
      ThreeRemovesEach(p.yaml, p.yaml.services);
      clean := RemoveLogged(Wrappers(p.yaml));
      ghost var first := files;
      assert w[..|w|] == w;
      var cleanServices;
      ghost var more;
      ok, cleanServices, more := RemoveServices(p.yaml);
      CleanedSum(old(files), first, files, w, r, more, clean, cleanServices);
      clean, done := clean && cleanServices, |w| + more;
      CleanedPrefix(old(files), files, w + r, f, done, clean);
      if !ok { return; }
      ghost var second := files;
      ok, more := RemoveProfiles(p);
      CleanedSum(old(files), second, files, w + r, f, more, clean, true);
      done := done + more;
    }

    /** Removes all generated files of a part, in order. */
    method ClearAll(p: Part) returns (ok: bool, clean: bool, ghost done: nat)
      modifies this`files, this`faults
      ensures CanStopAt(p, done) && Cleaned(old(files), files, Removals(p), done, clean)
      ensures ok ==> done == |Removals(p)| && Removable(p.yaml, old(files)) && PolicyTargets(p.yaml) !! files
      ensures faults >= old(faults) + if clean then 0 else 1
      ensures ok && clean ==> faults == old(faults)
      ensures faults == old(faults) ==> clean && (ok <==> Removable(p.yaml, old(files)))
      ensures !ok && Removable(p.yaml, old(files)) ==> faults >= old(faults) + 1 + if clean then 0 else 1
    {
      hide FirstRemovals, Policies, PolicyIsRegular;
      PoliciesApart(p);
      RemovalsLength(p);
      ok, clean, done := ClearFirst(p);
      CleanedPrefix(old(files), files, FirstRemovals(p), Policies(p.yaml), done, clean);
      if !ok { return; }
      assert Members(FirstRemovals(p)[..done]) !! PolicyTargets(p.yaml);
      assert Removable(p.yaml, files) <==> Removable(p.yaml, old(files));
      ghost var first, more := files, 0;
      ok, more := RemovePolicy(p.yaml);
      CleanedSum(old(files), first, files, FirstRemovals(p), Policies(p.yaml), more, clean, true);
      done := done + more;
      if ok { assert Policies(p.yaml)[..more] == Policies(p.yaml); }
    }

    /** If a single step fails, and the policies can be removed, exactly a prefix of the part's paths is gone. */
    method Deactivate(p: Part) returns (ok: bool, clean: bool, ghost done: nat)
      modifies this`files, this`current, this`dataCurrent, this`faults
      ensures DeactivationKeeps(old(Now()), Now(), p)
      ensures !ok ==> current == old(current)
      ensures ok ==> old(IsActivated(p)) && Removable(p.yaml, old(files)) && PolicyTargets(p.yaml) !! files
      ensures ok && clean ==> current == old(current) - {QualifiedName(p)} && files == old(files) - Cleared(p)
      ensures faults == old(faults) ==> clean && (ok <==> old(IsActivated(p)) && Removable(p.yaml, old(files)))
      ensures ok && faults == old(faults) ==> QualifiedName(p) !in dataCurrent
      ensures ok && QualifiedName(p) in current ==>
        faults > old(faults) && (faults == old(faults) + 1 ==> files == old(files) - Cleared(p))
      ensures !ok && old(IsActivated(p)) && Removable(p.yaml, old(files)) && faults == old(faults) + 1 ==>
        StoppedAt(p, done, old(files), files)
    {
      hide Removals, Removable, PolicyTargets, CanStopAt;
      if !IsActivated(p) { return false, true, 0; }
      ok, clean, done := ClearAll(p);
      PrefixIsCleared(p, done);
      if !ok { return; }
      ok := Attempt();
      if !ok { return; }
      clean := RemoveCurrent(QualifiedName(p), clean);
      RemoveDataCurrent(QualifiedName(p));
    }

    /** The steps of `activate` that generate files. */
    method Generate(p: Part) returns (ok: bool)
      modifies this`files, this`faults
      ensures old(files) <= files <= old(files) + Generated(p)
      ensures ok ==> files == old(files) + Generated(p) && Installable(p.yaml, old(files))
      ensures old(faults) <= faults <= old(faults) + 1 && (ok ==> faults == old(faults))
      ensures faults == old(faults) ==> (ok <==> Installable(p.yaml, old(files)))
    {
      hide Wrappers, ServiceWrites, Profiles, PolicyTargets;
      ok := InstallPolicy(p.yaml);
      if !ok { return; }
      ok := Attempt();
      if !ok { return; }
      ok := WriteAll(Profiles(p));
      if !ok { return; }
      ok := WriteAll(Wrappers(p.yaml));
      if !ok { return; }
      ok := WriteAll(ServiceWrites(p.yaml, p.yaml.services));
      if !ok { return; }
      ok := Attempt();
    }

    /** The steps of `activate` that set the links; `t` says which of them succeed. */
    method LinkCurrent(p: Part) returns (ok: bool, ghost t: LinkSteps)
      requires DirOf(p) in dirs
      modifies this`current, this`data, this`dataCurrent, this`faults
      ensures IsLinking(old(Now()), Now(), p, t, ok)
      ensures faults >= old(faults) && (!ok ==> faults > old(faults))
    {
      var package := QualifiedName(p);
      t := LinkSteps(false, false, false, false, false);
      ghost var before := faults;
      var _ := RemoveCurrent(package, true);
      t := t.(removed := faults == before);
      before := faults;
      RemoveDataCurrent(package);
      t := t.(dataRemoved := faults == before);
      ok := Attempt();
      t := t.(linked := ok);
      if !ok || package in current { return false, t; }
      current := current[package := p.yaml.version];
      ok := Attempt();
      t := t.(made := ok);
      if !ok { return; }
      data := data + {DataDir("", package, p.yaml.version)};
      ok := Attempt();
      t := t.(dataLinked := ok);
      if !ok || package in dataCurrent { return false, t; }
      dataCurrent := dataCurrent[package := p.yaml.version];
    }

    /** All steps of `activate` once nothing else is active. */
    method GenerateAndLink(p: Part) returns (ok: bool)
      requires DirOf(p) in dirs
      modifies this`files, this`current, this`data, this`dataCurrent, this`faults
      ensures LinksFramed(old(Now()), Now(), QualifiedName(p), {p.yaml.version})
      ensures old(data) <= data <= old(data) + {DataDir("", QualifiedName(p), p.yaml.version)}
      ensures old(files) <= files <= old(files) + Generated(p)
      ensures ok ==> IsActivated(p) && IsComplete(Now(), p)
      ensures ok || current != old(current) ==> files == old(files) + Generated(p) && Installable(p.yaml, old(files))
      ensures faults >= old(faults) && (faults == old(faults) ==> (ok <==> Installable(p.yaml, old(files))))
      ensures !ok && faults == old(faults) ==> current == old(current)
    {
      hide Installable, Generated, IsComplete, IsLinking, OnlyLinkChanged;
      NoLinkChanged(Now(), p);
      ok := Generate(p);
      if !ok { return; }
      ghost var t, generated := LinkSteps(false, false, false, false, false), Now();
      ok, t := LinkCurrent(p);
      LinkingMeans(generated, Now(), p, t, ok);
      if ok { MakesComplete(Now(), p); }
    }

    /** Nothing in the state stands in the way of activating the part. */
    ghost predicate Activatable(p: Part)
      reads this
    {
      CanActivate(Now(), p)
    }

    method Activate(p: Part) returns (ok: bool, clean: bool)
      requires Valid() && DirOf(p) in dirs
      modifies this`files, this`current, this`data, this`dataCurrent, this`faults
      ensures ActivationKeeps(old(Now()), Now(), p)
      ensures ok ==> IsActivated(p) && HasFiles(p, old(IsActivated(p)), old(Now()), Now())
      ensures faults == old(faults) ==> clean && (ok <==> old(Activatable(p)))
      ensures IsBlocked(old(Now()), p) ==> !ok
      // the part is active already
      ensures old(IsActivated(p)) ==> ok && Now() == old(Now())
      // nothing is active
      ensures old(Active(QualifiedName(p))) == None ==>
        FreshlyActivated(old(files), files, Active(QualifiedName(p)), p, ok)
      ensures old(Active(QualifiedName(p))) == None && !ok && faults == old(faults) ==> current == old(current)
      // another version is active
      ensures var a := old(ActivePart(QualifiedName(p)));
        a.Some? && !old(IsActivated(p)) && ok && clean ==>
          files == (old(files) - Cleared(a.value)) + Generated(p)
      ensures old(ActivePart(QualifiedName(p))) == None &&
              old(Active(QualifiedName(p))).Some? && !old(IsActivated(p)) ==>
        !ok && files == old(files) && current == old(current) && data == old(data)
    {
      hide Installable, Removable, Generated, Cleared, ActivationKeeps, FilesFramed, Touched, DeactivationKeeps;
      hide IsComplete;
      clean := true;
      if IsActivated(p) {
        AlreadyActive(Now(), p);
        return true, true;
      }
      ghost var before := Now();
      var active := Active(QualifiedName(p));
      if active.Some? {
        var loaded := Attempt();
        ActivationIsFramed(before, Now(), Now(), p);
        if !loaded || active.value !in meta { return false, true; }
        ghost var done;
        ok, clean, done := Deactivate(meta[active.value]);
        ActivationIsFramed(before, Now(), Now(), p);
        if !ok { return; }
      }
      ghost var cleared := Now();
      ok := GenerateAndLink(p);
      ActivationIsFramed(before, cleared, Now(), p);
    }

    /** From a state without an active version and without any of the snap's paths: activating and then
        deactivating it restores the generated files. */
    method ActivateThenDeactivate(p: Part) returns (ok: bool, clean: bool)
      requires Valid() && DirOf(p) in dirs
      requires Active(QualifiedName(p)) == None && files !! Cleared(p)
      modifies this`files, this`current, this`data, this`dataCurrent, this`faults
      ensures ok && clean ==> files == old(files) && Active(QualifiedName(p)) == None
      ensures faults == old(faults) ==> clean && (ok <==> PolicyIsRegular(p.yaml))
    {
      PoliciesApart(p);
      var activated, cleanOn := Activate(p);
      if !activated { return false, cleanOn; }
      assert Removable(p.yaml, files);
      var deactivated, cleanOff, _ := Deactivate(p);
      ActivateDeactivateRestores(old(files), p);
      ok, clean := deactivated, cleanOn && cleanOff;
    }

    // -------------------------------------------------------------- what is installed

    method Parts() returns (ds: seq<Dir>)
      ensures forall d :: d in ds <==> d in meta
      ensures Distinct(ds)
    {
      ds := [];
      var left := meta.Keys;
      while left != {}
        invariant left <= meta.Keys
        invariant forall d :: d in ds <==> d in meta && d !in left
        invariant Distinct(ds)
        decreases left
      {
        var d :| d in left;
        left := left - {d};
        ds := ds + [d];
      }
    }

    ghost function ActiveFrameworkNames(): set<string>
      reads this`meta, this`current, this`dirs
    {
      set d | d in meta && meta[d].yaml.kind == Framework && Active(d.package) == Some(d) :: meta[d].yaml.name
    }

    method ActiveFrameworks() returns (names: seq<string>)
      ensures forall f :: f in names <==> f in ActiveFrameworkNames()
    {
      names := [];
      var ds := Parts();
      for k := 0 to |ds|
        invariant forall f :: f in names <==>
          exists i :: 0 <= i < k && IsActiveFramework(ds[i]) && meta[ds[i]].yaml.name == f
      {
        if IsActiveFramework(ds[k]) {
          names := names + [meta[ds[k]].yaml.name];
        }
      }
    }

    predicate IsActiveFramework(d: Dir)
      reads this`meta, this`current, this`dirs
    {
      d in meta && meta[d].yaml.kind == Framework && Active(d.package) == Some(d)
    }

    /** Sort the names, then look each wanted one up by binary search: reports exactly the missing
        frameworks, in the order in which they were declared. */
    method CheckForFrameworks(wanted: seq<string>) returns (missing: seq<string>)
      ensures missing == Missing(wanted, ActiveFrameworkNames())
    {
      var installed := ActiveFrameworks();
      SortStringsSorts(installed);
      ghost var unsorted := installed;
      installed := SortStrings(installed);
      assert forall f :: f in installed <==> f in unsorted by {
        assert forall f :: f in installed <==> f in multiset(installed);
      }
      missing := [];
      for k := 0 to |wanted|
        invariant missing == Missing(wanted[..k], ActiveFrameworkNames())
      {
        assert wanted[..k + 1][..k] == wanted[..k];
        var i := SearchStrings(installed, wanted[k]);
        FoundIffMember(installed, wanted[k], i);
        if i >= |installed| || installed[i] != wanted[k] {
          missing := missing + [wanted[k]];
        }
      }
      assert wanted[..|wanted|] == wanted;
    }

    /** One entry for every mention of the framework by an installed part. */
    method Dependents(p: Part) returns (deps: seq<Dir>)
      ensures forall d :: d in deps <==> IsDependent(meta, p, d)
    {
      deps := [];
      if p.yaml.kind != Framework { return; }
      var ds := Parts();
      for k := 0 to |ds|
        invariant forall d :: d in deps <==> d in ds[..k] && p.yaml.name in meta[d].yaml.frameworks
      {
        assert ds[..k + 1] == ds[..k] + [ds[k]];
        var fmks := meta[ds[k]].yaml.frameworks;
        for j := 0 to |fmks|
          invariant forall d :: d in deps <==>
            (d in ds[..k] && p.yaml.name in meta[d].yaml.frameworks) || (d == ds[k] && p.yaml.name in fmks[..j])
        {
          if fmks[j] == p.yaml.name {
            deps := deps + [ds[k]];
          }
          assert fmks[..j + 1] == fmks[..j] + [fmks[j]];
        }
        assert fmks[..|fmks|] == fmks;
      }
      assert ds[..|ds|] == ds;
    }

    // -------------------------------------------------------------- services of dependents

    /** The last part of `Install`, together with the calls it defers: the services of active dependents
        are stopped, the dependents' security is refreshed, and the services are started again. */
    method RefreshDependents(p: Part) returns (ok: bool)
      modifies this`faults, this`log
      ensures LogKeeps(old(Now()), Now(), p, ok)
      ensures log != old(log) ==> |log| == |old(log)| + 1 && IsPass(Now(), p, log[|old(log)|])
      ensures faults == old(faults) + if ok then 0 else 1
    {
      hide IsCycle, StoppedAreStarted, ServiceNames, IsDependentService;
      var dependents := Dependents(p);
      var listed := Attempt();
      if !listed { return false; }
      ServiceNamesAre(p, dependents);
      ghost var before := Now();
      var systemd := new Systemd();
      var outcome, undo, redo := systemd.CycleServices(ServiceNames(dependents));
      log := log + [Cycle(ServiceNames(dependents), outcome, systemd.commands, undo, redo)];
      ok := outcome.Restarted?;
      if !ok { faults := faults + 1; }
      SameDependents(before, Now(), p);
    }

    /** The names are those of the services of exactly the active dependents. */
    lemma ServiceNamesAre(p: Part, deps: seq<Dir>)
      requires forall d :: d in deps ==> d in meta
      requires forall d :: d in deps <==> IsDependent(meta, p, d)
      ensures forall n :: n in ServiceNames(deps) <==> IsDependentService(Now(), p, n)
    {
      NamesOfServices(deps);
      forall n ensures n in ServiceNames(deps) <==> IsDependentService(Now(), p, n) {
        if n in ServiceNames(deps) {
          var d, service :| d in deps && IsActiveService(d, service, n);
          assert IsServiceOf(Now(), p, d, service);
        }
        if d, service :| IsServiceOf(Now(), p, d, service) && n == UnitFile(meta[d].yaml, service).name {
          assert d in deps && IsActiveService(d, service, n);
        }
      }
    }

    lemma {:induction false} NamesOfServices(deps: seq<Dir>)
      requires forall d :: d in deps ==> d in meta
      ensures forall n :: n in ServiceNames(deps) <==> exists d, service :: d in deps && IsActiveService(d, service, n)
    {
      if deps != [] {
        var first, rest := deps[0], deps[1..];
        NamesOfServices(rest);
        forall n ensures n in ServiceNames(deps) <==> exists d, service :: d in deps && IsActiveService(d, service, n) {
          NamesOfFirst(deps, n);
          if d, service :| d in deps && IsActiveService(d, service, n) { assert d == first || d in rest; }
          if service :| IsActiveService(first, service, n) { assert first in deps; }
          if d, service :| d in rest && IsActiveService(d, service, n) { assert d in deps; }
        }
      }
    }

    /** The part is active and has the service, whose unit has this name. */
    predicate IsActiveService(d: Dir, service: Service, name: string)
      reads this`meta, this`current, this`dirs
    {
      && d in meta && Active(d.package) == Some(d) && service in meta[d].yaml.services
      && name == UnitFile(meta[d].yaml, service).name
    }

    lemma NamesOfFirst(deps: seq<Dir>, n: string)
      requires deps != [] && forall d :: d in deps ==> d in meta
      ensures n in ServiceNames(deps) <==>
        (exists service :: IsActiveService(deps[0], service, n)) || n in ServiceNames(deps[1..])
    {
      var d, y := deps[0], meta[deps[0]].yaml;
      var names := seq(|y.services|, i requires 0 <= i < |y.services| => UnitFile(y, y.services[i]).name);
      if service :| service in y.services && n == UnitFile(y, service).name {
        var i :| 0 <= i < |y.services| && y.services[i] == service;
        assert names[i] == n;
      }
      if n in names {
        var i :| 0 <= i < |names| && names[i] == n;
        assert Active(d.package) == Some(d) ==> IsActiveService(d, y.services[i], n);
      }
      assert ServiceNames(deps) == (if Active(d.package) == Some(d) then names else []) + ServiceNames(deps[1..]);
    }

    /** Unit names of the services of those dependents that are active, in order. */
    function ServiceNames(deps: seq<Dir>): seq<string>
      requires forall d :: d in deps ==> d in meta
      reads this`meta, this`current, this`dirs
    {
      if deps == [] then []
      else
        var d, y := deps[0], meta[deps[0]].yaml;
        (if Active(d.package) == Some(d) then
           seq(|y.services|, i requires 0 <= i < |y.services| => UnitFile(y, y.services[i]).name)
         else []) + ServiceNames(deps[1..])
    }

    // -------------------------------------------------------------- install

    /** Copies every data directory of the old version that the new one does not have yet. */
    method CopySnapData(package: string, oldVersion: string, newVersion: string) returns (ok: bool)
      modifies this`data, this`faults
      ensures old(data) <= data
      ensures forall d :: d in data && d !in old(data) ==> d.package == package && d.version == newVersion
      ensures ok ==> forall d :: d in old(data) && d.package == package && d.version == oldVersion ==>
        DataDir(d.home, package, newVersion) in data
      ensures faults == old(faults) + if ok then 0 else 1
    {
      var left := set d | d in data && d.package == package && d.version == oldVersion;
      while left != {}
        invariant old(data) <= data && faults == old(faults)
        invariant forall d :: d in data && d !in old(data) ==> d.package == package && d.version == newVersion
        invariant forall d :: d in old(data) && d.package == package && d.version == oldVersion ==>
          d in left || DataDir(d.home, package, newVersion) in data
        decreases left
      {
        var d :| d in left;
        ok := Attempt();
        var partial: bool := *;
        if ok || partial { data := data + {DataDir(d.home, package, newVersion)}; }
        if !ok { return; }
        left := left - {d};
      }
      ok := true;
    }

    method RemoveSnapData(package: string, version: string) returns (ok: bool)
      modifies this`data, this`faults
      ensures data <= old(data)
      ensures forall d :: d in old(data) && d !in data ==> d.package == package && d.version == version
      ensures ok ==> NoData(data, package, version)
      ensures faults == old(faults) + if ok then 0 else 1
    {
      var left := set d | d in data && d.package == package && d.version == version;
      while left != {}
        invariant data <= old(data) && faults == old(faults)
        invariant forall d :: d in old(data) && d !in data ==> d.package == package && d.version == version
        invariant forall d :: d in data && d.package == package && d.version == version ==> d in left
        decreases left
      {
        var d :| d in left;
        ok := Attempt();
        if !ok { return; }
        data, left := data - {d}, left - {d};
      }
      ok := true;
    }

    method CopyOrCreateData(p: Part, oldPart: Option<Part>) returns (ok: bool)
      modifies this`data, this`faults
      ensures old(data) <= data
      ensures forall d :: d in data && d !in old(data) ==> d.package == QualifiedName(p) && d.version == p.yaml.version
      ensures ok && oldPart.Some? ==> DataCopied(old(data), data, p, oldPart.value)
      ensures ok && oldPart.None? ==> DataDir("", QualifiedName(p), p.yaml.version) in data
      ensures faults == old(faults) + if ok then 0 else 1
    {
      if oldPart.Some? {
        ok := CopySnapData(QualifiedName(p), oldPart.value.yaml.version, p.yaml.version);
      } else {
        ok := Attempt();
        if ok { data := data + {DataDir("", QualifiedName(p), p.yaml.version)}; }
      }
    }

    // -------------------------------------------------------------- deferred calls

    /** A deferred call that makes the old version, if there is one, active again. */
    method Reactivate(oldPart: Option<Part>, package: string, soFar: bool) returns (compensated: bool)
      requires Valid() && (oldPart.Some? ==> DirOf(oldPart.value) in dirs && QualifiedName(oldPart.value) == package)
      modifies this`files, this`current, this`data, this`dataCurrent, this`faults
      ensures oldPart.None? ==> compensated == soFar && Now() == old(Now())
      ensures oldPart.Some? ==> ActivationKeeps(old(Now()), Now(), oldPart.value)
      ensures compensated ==> soFar
      ensures compensated && oldPart.Some? ==> IsActivated(oldPart.value)
      ensures oldPart.Some? && old(IsActivated(oldPart.value)) ==> compensated == soFar && Now() == old(Now())
      ensures oldPart.Some? && faults == old(faults) ==>
        UndoResult(old(Now()), Now(), oldPart.value, soFar, compensated)
    {
      hide Installable, Removable, Generated, Cleared, ActivationKeeps;
      compensated := soFar;
      if oldPart.Some? {
        var ok, _ := Activate(oldPart.value);
        compensated := compensated && ok;
      }
    }

    /** The two deferred calls that are registered by the time data has been copied: the new version's data
        is removed, then the old version made active. */
    method Compensate(p: Part, oldPart: Option<Part>, soFar: bool) returns (compensated: bool)
      requires Valid() && (oldPart.Some? ==> WasActivePart(oldPart.value, p))
      modifies this`files, this`current, this`data, this`dataCurrent, this`faults
      ensures UndoKeeps(old(Now()), Now(), p, oldPart)
      ensures compensated ==> soFar && NoData(data, QualifiedName(p), p.yaml.version)
      ensures compensated && oldPart.Some? ==> IsActivated(oldPart.value)
      ensures faults == old(faults) ==> NoData(data, QualifiedName(p), p.yaml.version)
      ensures oldPart.None? && faults == old(faults) ==> compensated == soFar
      ensures oldPart.Some? && faults == old(faults) ==>
        UndoResult(old(Now()), Now(), oldPart.value, soFar, compensated)
    {
      hide Installable, Removable, Generated, Cleared;
      var removed := RemoveSnapData(QualifiedName(p), p.yaml.version);
      compensated := Reactivate(oldPart, QualifiedName(p), soFar && removed);
    }

    /** All three deferred calls, which run when the activation of the new version, or what follows it, fails. */
    method CompensateAll(p: Part, oldPart: Option<Part>) returns (compensated: bool)
      requires Valid() && (oldPart.Some? ==> WasActivePart(oldPart.value, p))
      modifies this`files, this`current, this`data, this`dataCurrent, this`faults
      ensures faults >= old(faults) && LinksFramed(old(Now()), Now(), QualifiedName(p), OldVersion(oldPart))
      ensures OtherDataKept(old(data), data, p)
      ensures old(ActivePart(QualifiedName(p))) in {None, Some(p), oldPart} ==>
        FilesFramed(old(files), files, Touched(p, oldPart))
      ensures oldPart.None? ==> files == old(files) && current == old(current)
      ensures compensated ==> NoData(data, QualifiedName(p), p.yaml.version)
      ensures compensated && oldPart.Some? ==> IsActivated(oldPart.value)
      ensures faults == old(faults) ==> NoData(data, QualifiedName(p), p.yaml.version)
      ensures oldPart.None? && faults == old(faults) ==> compensated
      ensures oldPart.Some? && faults == old(faults) ==>
        && (old(Activatable(oldPart.value)) ==>
              && compensated
              && IsRestored(oldPart.value, old(IsActivated(oldPart.value)), old(Now()), Now()))
        && (old(Active(QualifiedName(p))) == None ==> old(files) <= files)
        && (old(Active(QualifiedName(p))) == None && !old(Activatable(oldPart.value)) ==>
              !compensated && Active(QualifiedName(p)) == None)
    {
      hide Removable, Generated, PolicyIsRegular, PolicyTargets, Cleared;
      compensated := Reactivate(oldPart, QualifiedName(p), true);
      compensated := Compensate(p, oldPart, compensated);
    }

    /** An installed version of the same package, other than the new one. */
    predicate WasActivePart(oldPart: Part, p: Part)
      reads this`meta
    {
      && QualifiedName(oldPart) == QualifiedName(p) && oldPart.yaml.version != p.yaml.version
      && DirOf(oldPart) in meta && meta[DirOf(oldPart)] == oldPart
    }

    // -------------------------------------------------------------- install

    /** Activation of the new version and all that follows it. */
    method ActivateNew(p: Part) returns (ok: bool)
      requires Valid() && DirOf(p) in dirs
      modifies this`files, this`current, this`data, this`dataCurrent, this`faults, this`log
      ensures LogKeeps(old(Now()), Now(), p, ok)
      ensures faults >= old(faults) && LinksFramed(old(Now()), Now(), QualifiedName(p), {p.yaml.version})
      ensures old(data) <= data <= old(data) + {DataDir("", QualifiedName(p), p.yaml.version)}
      ensures FilesFramed(old(files), files, Touched(p, old(ActivePart(QualifiedName(p)))))
      ensures IsBlocked(old(Now()), p) ==> StaysBlocked(old(Now()), Now())
      ensures ok ==> IsActivated(p) && HasFiles(p, old(IsActivated(p)), old(Now()), Now())
      ensures faults == old(faults) ==> (ok <==> old(Activatable(p)))
      ensures old(Active(QualifiedName(p))) == None ==>
        FreshlyActivated(old(files), files, Active(QualifiedName(p)), p, ok)
      ensures old(IsActivated(p)) ==> current == old(current)
    {
      hide Installable, Removable, Generated, Cleared;
      var activated, _ := Activate(p);
      if !activated { return false; }
      ok := RefreshDependents(p);
    }

    /** The last third of the switch, once data has been copied. */
    method ActivateOrCompensate(p: Part, oldPart: Option<Part>)
      returns (ok: bool, compensated: bool, ghost failure: Failure)
      requires Valid() && DirOf(p) in meta && meta[DirOf(p)] == p
      requires oldPart.None? ==> Active(QualifiedName(p)) in {None, Some(DirOf(p))}
      requires oldPart.Some? ==> IsDeactivated(oldPart.value, p)
      modifies this`files, this`current, this`data, this`dataCurrent, this`faults, this`log
      ensures faults >= old(faults) && LinksFramed(old(Now()), Now(), QualifiedName(p), Versions(p, oldPart))
      ensures FilesFramed(old(files), files, Touched(p, oldPart)) && OtherDataKept(old(data), data, p)
      ensures LogKeeps(old(Now()), Now(), p, ok)
      ensures ok ==> IsActivated(p) && old(data) <= data
      ensures ok ==> HasFiles(p, old(IsActivated(p)), old(Now()), Now())
      ensures !ok && compensated ==> NoData(data, QualifiedName(p), p.yaml.version)
      ensures !ok && compensated && oldPart.Some? ==> IsActivated(oldPart.value)
      ensures Installable(p.yaml, old(files)) && faults == old(faults) ==>
        ok || (oldPart.Some? && old(Active(QualifiedName(p))).Some? && failure == Stuck)
      ensures Installable(p.yaml, old(files)) && !ok &&
              faults <= old(faults) + (if oldPart.Some? && old(Active(QualifiedName(p))).Some? then 0 else 1) ==>
        && NoData(data, QualifiedName(p), p.yaml.version)
        && LateFailure(old(Now()), Now(), p, oldPart, compensated, failure)
    {
      hide Cleared, Generated, PolicyTargets, PolicyIsRegular, LinksFramed, FilesFramed, OtherDataKept, Touched;
      failure, compensated := Linking, true;
      ghost var part := ActivePart(QualifiedName(p));
      ghost var stuck := oldPart.Some? && Active(QualifiedName(p)).Some?;
      ok := ActivateNew(p);
      ghost var activated := Now();
      FramesAdd(old(Now()), activated, activated, p, oldPart, part);
      if !ok {
        ghost var left := files * PolicyTargets(p.yaml);
        failure := if stuck then Stuck else if IsActivated(p) then Linking else Generating(left);
        if oldPart.Some? && !stuck {
          if IsActivated(p) {
            RemovalMakesRoom(old(files), oldPart.value, p);
          } else {
            OnlyPoliciesBlock(old(files), files, oldPart.value, p);
          }
        }
        ActiveAfter(old(Now()), activated, p);
        compensated := CompensateAll(p, oldPart);
        FramesAdd(old(Now()), activated, Now(), p, oldPart, part);
      }
    }

    /** The old version has been deactivated, though its link may still be there. */
    ghost predicate IsDeactivated(oldPart: Part, p: Part)
      reads this`meta, this`files, this`current, this`dirs
    {
      && WasActivePart(oldPart, p)
      && PolicyIsRegular(oldPart.yaml) && PolicyTargets(oldPart.yaml) !! files
      && Active(QualifiedName(p)) in {None, Some(DirOf(oldPart))}
    }

    /** The second half of the switch, after the old version's deactivation.  That may have left the old version's
        link, in which case a second deactivation is attempted. */
    method FinishSwitch(p: Part, oldPart: Option<Part>) returns (ok: bool, compensated: bool, ghost failure: Failure)
      requires Valid() && DirOf(p) in meta && meta[DirOf(p)] == p
      requires oldPart.None? ==> Active(QualifiedName(p)) in {None, Some(DirOf(p))}
      requires oldPart.Some? ==> IsDeactivated(oldPart.value, p)
      modifies this`files, this`current, this`data, this`dataCurrent, this`faults, this`log
      ensures SwitchKeeps(old(Now()), Now(), p, oldPart, ok, compensated)
      ensures ok ==> HasFiles(p, old(IsActivated(p)), old(Now()), Now())
      ensures Installable(p.yaml, old(files)) && faults == old(faults) ==>
        ok || (oldPart.Some? && old(Active(QualifiedName(p))).Some? && failure == Stuck)
      ensures Installable(p.yaml, old(files)) && !ok &&
              faults <= old(faults) + (if oldPart.Some? && old(Active(QualifiedName(p))).Some? then 0 else 1) ==>
        && (NoData(old(data), QualifiedName(p), p.yaml.version) ==> NoData(data, QualifiedName(p), p.yaml.version))
        && LateFailure(old(Now()), Now(), p, oldPart, compensated, failure)
    {
      hide Cleared, Generated, PolicyTargets, PolicyIsRegular, Removable, SwitchKeeps, UndoKeeps, Touched;
      hide OtherDataKept, LinksFramed, FilesFramed, DataCopied;
      failure := Copying;
      ghost var before := Now();
      ok := CopyOrCreateData(p, oldPart);
      ghost var copied := Now();
      if !ok {
        compensated := Compensate(p, oldPart, true);
        CopyFailed(before, copied, Now(), p, oldPart, compensated);
        return false, compensated, failure;
      }
      ok, compensated, failure := ActivateOrCompensate(p, oldPart);
      CopyKeeps(before, copied, Now(), p, oldPart, ok, compensated);
    }

    /** The switch from the old version to the new one, with the compensations that are deferred on the
        way.  They run in reverse order of registration, and each may fail in its turn. */
    method SwitchTo(p: Part, oldPart: Option<Part>) returns (ok: bool, compensated: bool, ghost failure: Failure)
      requires Valid() && DirOf(p) in meta && meta[DirOf(p)] == p
      requires oldPart.None? ==> Active(QualifiedName(p)) in {None, Some(DirOf(p))}
      requires oldPart.Some? ==> WasActivePart(oldPart.value, p) && IsActivated(oldPart.value)
      modifies this`files, this`current, this`data, this`dataCurrent, this`faults, this`log
      ensures SwitchKeeps(old(Now()), Now(), p, oldPart, ok, compensated)
      ensures ok ==> HasFiles(p, old(IsActivated(p)), old(Now()), Now())
      ensures CanSwitch(old(files), p, oldPart) ==> OneFault(old(Now()), Now(), p, oldPart, ok, compensated, failure)
      ensures oldPart.Some? && !Removable(oldPart.value.yaml, old(files)) ==> !ok && StaysBlocked(old(Now()), Now())
    {
      hide PolicyIsRegular, Generated, PolicyTargets, Cleared, SwitchKeeps;
      ghost var before := Now();
      if oldPart.Some? {
        var deactivated, _, done := Deactivate(oldPart.value);
        ghost var stopped := Now();
        if !deactivated {
          FailedStopKeeps(before, stopped, p, oldPart.value);
          failure := Stopping(done);
          compensated := Reactivate(oldPart, QualifiedName(p), true);
          return false, compensated, failure;
        }
        if CanSwitch(old(files), p, oldPart) { StillInstallable(old(files), files, oldPart.value, p); }
      }
      ghost var stopped := Now();
      ok, compensated, failure := FinishSwitch(p, oldPart);
      if oldPart.Some? { StopKeeps(before, stopped, Now(), p, oldPart.value, ok, compensated); }
    }

    /** Everything that `Install` does once the base directory exists. */
    method InstallUnpacked(p: Part, oldPart: Option<Part>) returns (ok: bool, compensated: bool, ghost failure: Failure)
      requires Valid() && DirOf(p) in dirs && DirOf(p) !in meta
      requires oldPart.None? ==> Active(QualifiedName(p)) in {None, Some(DirOf(p))}
      requires oldPart.Some? ==> WasActivePart(oldPart.value, p) && IsActivated(oldPart.value)
      modifies this`meta, this`files, this`current, this`data, this`dataCurrent, this`faults, this`log
      ensures Valid()
      ensures meta == old(meta) || meta == old(meta)[DirOf(p) := p]
      ensures ok ==> DirOf(p) in meta
      ensures SwitchKeeps(old(Now()), Now(), p, oldPart, ok, compensated)
      ensures ok ==> HasFiles(p, old(IsActivated(p)), old(Now()), Now())
      ensures CanSwitch(old(files), p, oldPart) ==> OneFault(old(Now()), Now(), p, oldPart, ok, compensated, failure)
      ensures oldPart.Some? && !Removable(oldPart.value.yaml, old(files)) ==> !ok && StaysBlocked(old(Now()), Now())
    {
      hide Installable, Removable, SwitchKeeps, OneFault, StaysBlocked, HasFiles;
      ghost var before := Now();
      ok := Attempt();
      var unpacked: bool := *;
      if ok || unpacked { meta := meta[DirOf(p) := p]; }
      ghost var unpackedState := Now();
      if !ok {
        NothingSwitched(before, unpackedState, p, oldPart);
        return false, true, Unpacking;
      }
      ok, compensated, failure := SwitchTo(p, oldPart);
      UnpackedKeeps(before, unpackedState, Now(), p, oldPart, ok, compensated, failure);
    }

    /** `os.RemoveAll` of a base directory; a failure may or may not have taken the metadata with it. */
    method RemoveBasedir(d: Dir) returns (removed: bool)
      requires Valid()
      modifies this`meta, this`dirs, this`faults
      ensures Valid()
      ensures meta == old(meta) || meta == old(meta) - {d}
      ensures dirs == if removed then old(dirs) - {d} else old(dirs)
      ensures removed ==> d !in meta
      ensures faults == old(faults) + if removed then 0 else 1
    {
      removed := Attempt();
      var partly: bool := *;
      if removed || partly { meta := meta - {d}; }
      if removed { dirs := dirs - {d}; }
    }

    /** Unpacking and switching, with the base directory removed at the end if anything goes wrong. */
    method InstallOrRemove(p: Part, oldPart: Option<Part>) returns (ok: bool, compensated: bool, ghost failure: Failure)
      requires Valid() && DirOf(p) in dirs && DirOf(p) !in meta
      requires oldPart.None? ==> Active(QualifiedName(p)) in {None, Some(DirOf(p))}
      requires oldPart.Some? ==> WasActivePart(oldPart.value, p) && IsActivated(oldPart.value)
      modifies this
      ensures Valid()
      ensures meta == old(meta) || meta == old(meta)[DirOf(p) := p]
      ensures dirs == old(dirs) || (!ok && dirs == old(dirs) - {DirOf(p)})
      ensures ok ==> DirOf(p) in meta
      ensures !ok && compensated ==> DirOf(p) !in dirs
      ensures SwitchKeeps(old(Now()), Now(), p, oldPart, ok, compensated)
      ensures ok ==> HasFiles(p, old(IsActivated(p)), old(Now()), Now())
      ensures CanSwitch(old(files), p, oldPart) ==> OneFault(old(Now()), Now(), p, oldPart, ok, compensated, failure)
      ensures CanSwitch(old(files), p, oldPart) && !ok && faults == old(faults) + 1 ==>
        DirOf(p) !in meta && DirOf(p) !in dirs
      ensures oldPart.Some? && !Removable(oldPart.value.yaml, old(files)) ==> !ok && StaysBlocked(old(Now()), Now())
    {
      hide Installable, Removable, SwitchKeeps, OneFault, StaysBlocked, HasFiles, CanSwitch, Resolve;
      ghost var before := Now();
      ok, compensated, failure := InstallUnpacked(p, oldPart);
      ghost var switched := Now();
      if !ok {
        var removed := RemoveBasedir(DirOf(p));
        BasedirKeeps(before, switched, Now(), p, oldPart, compensated, removed, failure);
        AddedAndRemoved(old(meta), DirOf(p), p);
        compensated := compensated && removed;
      }
    }

    /** The same with the base directory made first. */
    method UnpackAndSwitch(p: Part, oldPart: Option<Part>) returns (ok: bool, compensated: bool, ghost failure: Failure)
      requires Valid() && DirOf(p) !in meta
      requires oldPart.None? ==> Active(QualifiedName(p)) == None
      requires oldPart.Some? ==> WasActivePart(oldPart.value, p) && IsActivated(oldPart.value)
      modifies this
      ensures Valid()
      ensures meta == old(meta) || meta == old(meta)[DirOf(p) := p]
      ensures dirs - {DirOf(p)} == old(dirs) - {DirOf(p)}
      ensures ok ==> DirOf(p) in meta
      ensures !ok && compensated ==> Active(QualifiedName(p)) == old(Active(QualifiedName(p))) && DirOf(p) !in dirs
      ensures SwitchKeeps(old(Now()), Now(), p, oldPart, ok, compensated)
      ensures ok ==> HasFiles(p, LinkOf(old(current), QualifiedName(p)) == Some(p.yaml.version), old(Now()), Now())
      ensures CanSwitch(old(files), p, oldPart) ==> OneFault(old(Now()), Now(), p, oldPart, ok, compensated, failure)
      ensures CanSwitch(old(files), p, oldPart) && !ok && faults == old(faults) + 1 ==>
        DirOf(p) !in meta && DirOf(p) !in dirs
      ensures oldPart.Some? && !Removable(oldPart.value.yaml, old(files)) ==> !ok && StaysBlocked(old(Now()), Now())
    {
      hide Installable, Removable, SwitchKeeps, OneFault, StaysBlocked, HasFiles, CanSwitch, Resolve;
      ghost var before := Now();
      dirs := dirs + {DirOf(p)};
      ghost var made := Now();
      BasedirMade(before, made, p);
      ok, compensated, failure := InstallOrRemove(p, oldPart);
      UnpackedKeeps(before, made, Now(), p, oldPart, ok, compensated, failure);
      if !ok && compensated { UndoneIsSame(before, Now(), p, oldPart); }
    }

    /** What a caller can check before an install: the part is not installed, its frameworks are there, what is
        active can be loaded, and no policy file is in the way. */
    ghost predicate CanInstall(p: Part)
      reads this`files, this`meta, this`current, this`dirs
    {
      && DirOf(p) !in meta
      && Missing(p.yaml.frameworks, ActiveFrameworkNames()) == []
      && (Active(QualifiedName(p)).Some? ==> Active(QualifiedName(p)).value in meta)
      && CanSwitch(files, p, ActivePart(QualifiedName(p)))
    }

    /** `SnapPart.Install`.  When it fails and all compensations that ran succeeded, the package is as
        active as before and nothing is left of a fresh version.  Where nothing stands in its way, it succeeds
        unless a step fails, and after a single failing step the compensations succeed if and only if no
        policy file that the new version left over is one of the old version's. */
    method Install(p: Part) returns (ok: bool, compensated: bool, ghost failure: Failure)
      requires Valid()
      modifies this
      ensures Valid()
      ensures DirOf(p) in old(meta) || Missing(p.yaml.frameworks, old(ActiveFrameworkNames())) != [] ==>
        !ok && Now() == old(Now())
      ensures meta == old(meta) || meta == old(meta)[DirOf(p) := p]
      ensures dirs - {DirOf(p)} == old(dirs) - {DirOf(p)}
      ensures ok ==> DirOf(p) in meta
      ensures SwitchKeeps(old(Now()), Now(), p, old(ActivePart(QualifiedName(p))), ok, compensated)
      ensures ok ==> HasFiles(p, LinkOf(old(current), QualifiedName(p)) == Some(p.yaml.version), old(Now()), Now())
      ensures ok && old(Active(QualifiedName(p))).Some? ==> old(ActivePart(QualifiedName(p))).Some?
      ensures !ok && compensated && DirOf(p) !in old(dirs) ==>
        Active(QualifiedName(p)) == old(Active(QualifiedName(p))) && DirOf(p) !in dirs
      ensures old(Supported(meta)) ==> Supported(meta)
      ensures old(CanInstall(p)) ==>
        OneFault(old(Now()), Now(), p, old(ActivePart(QualifiedName(p))), ok, compensated, failure)
      ensures old(CanInstall(p)) && !ok && faults == old(faults) + 1 ==>
        DirOf(p) !in meta && (DirOf(p) !in old(dirs) ==> DirOf(p) !in dirs)
      ensures IsBlocked(old(Now()), p) ==> !ok && StaysBlocked(old(Now()), Now())
    {
      hide Supported, Provides, Missing, ActiveFrameworkNames, DataCopied;
      hide Installable, Removable, SwitchKeeps, OneFault, StaysBlocked, HasFiles;
      compensated, failure := true, Unpacking;
      ghost var before, part := Now(), ActivePart(QualifiedName(p));
      NothingSwitched(before, before, p, part);
      if DirOf(p) in meta { return false, true, failure; }
      var missing := CheckForFrameworks(p.yaml.frameworks);
      if missing != [] { return false, true, failure; }
      var allowed := Attempt();
      NothingSwitched(before, Now(), p, part);
      if !allowed { return false, true, failure; }
      FrameworksAreProvided(p.yaml.frameworks);
      var oldPart: Option<Part> := None;
      var active := Active(QualifiedName(p));
      if active.Some? {
        var loaded := Attempt();
        NothingSwitched(before, Now(), p, part);
        if !loaded || active.value !in meta { return false, true, failure; }
        oldPart := Some(meta[active.value]);
      }
      ok := Attempt();
      NothingSwitched(before, Now(), p, part);
      if !ok { return; }
      ok, compensated, failure := UnpackAndSwitch(p, oldPart);
      StillSupported(old(meta), p);
    }

    /** No framework is missing: each wanted one is provided by something installed. */
    lemma FrameworksAreProvided(wanted: seq<string>)
      requires Missing(wanted, ActiveFrameworkNames()) == []
      ensures forall f :: f in wanted ==> Provides(meta, f)
    {
      MissingAreAbsent(wanted, ActiveFrameworkNames());
      forall f | f in wanted ensures Provides(meta, f) {
        assert f in ActiveFrameworkNames();
      }
    }

    // -------------------------------------------------------------- removal

    /** `remove`: click hooks, then deactivation (a part that is not active is fine), then the directory. */
    method Remove(p: Part) returns (ok: bool)
      requires Valid()
      modifies this
      ensures Valid() && RemovalKeeps(old(Now()), Now(), p)
      ensures ok ==> DirOf(p) !in meta && DirOf(p) !in dirs
      ensures ok && !old(IsActivated(p)) ==> faults == old(faults)
      ensures faults == old(faults) ==>
        && (ok <==> (old(IsActivated(p)) ==> Removable(p.yaml, old(files))))
        && (ok && old(IsActivated(p)) ==> QualifiedName(p) !in current && files == old(files) - Cleared(p))
    {
      hide Removable, Cleared;
      ok := Attempt();
      if !ok { return; }
      var wasActive := IsActivated(p);
      var deactivated, _, _ := Deactivate(p);
      if !deactivated && wasActive { return false; }
      ok := RemoveBasedir(DirOf(p));
    }

    /** `Uninstall`: refused for an active OEM or built-in snap and for a framework that any installed snap
        depends on. */
    method Uninstall(p: Part, builtIn: bool) returns (ok: bool)
      requires Valid() && DirOf(p) in meta && meta[DirOf(p)] == p
      modifies this
      ensures Valid() && RemovalKeeps(old(Now()), Now(), p)
      ensures ok ==> DirOf(p) !in meta
      ensures meta != old(meta) ==> !InUse(old(meta), p)
      ensures meta != old(meta) ==> !((p.yaml.kind == Oem || builtIn) && old(IsActivated(p)))
      ensures old(Supported(meta)) ==> Supported(meta)
      ensures faults == old(faults) ==>
        (ok <==> !InUse(old(meta), p) && (old(IsActivated(p)) ==>
          p.yaml.kind != Oem && !builtIn && Removable(p.yaml, old(files))))
    {
      hide Removable, Cleared;
      if p.yaml.kind == Oem && IsActivated(p) { return false; }
      if builtIn && IsActivated(p) { return false; }
      var deps := Dependents(p);
      if |deps| != 0 {
        assert deps[0] in deps;
        return false;
      }
      assert forall d :: d in meta ==> d !in deps;
      RemovalKeepsSupport(meta, DirOf(p));
      ok := Remove(p);
      if !ok { return; }
      ok := Attempt();
    }

    /** The parts whose name, and origin if one is given, are the given ones. */
    method FindSnapsByName(name: string, origin: string) returns (found: seq<Dir>)
      ensures forall d :: d in found <==> d in meta && Matches(meta[d], name, origin)
      ensures forall d :: d in found <==>
        d in meta && meta[d].yaml.name == name && (origin == "" || meta[d].origin == origin)
      ensures Distinct(found)
    {
      found := [];
      var ds := Parts();
      for k := 0 to |ds|
        invariant forall d :: d in found <==> d in ds[..k] && Matches(meta[d], name, origin)
        invariant Distinct(found)
      {
        assert ds[..k + 1] == ds[..k] + [ds[k]];
        if Matches(meta[ds[k]], name, origin) {
          found := found + [ds[k]];
        }
      }
      assert ds[..|ds|] == ds;
    }

    /** `order` is some arrangement by version of what is installed under a name. */
    ghost predicate IsArrangement(order: seq<Dir>, name: string, origin: string)
      reads this`meta
    {
      && Distinct(order)
      && (forall d :: d in order <==> d in meta && Matches(meta[d], name, origin))
      && (AllVersionsFit(order, VersionOf) ==> InOrder(order, VersionOf, false))
    }

    method Arrange(name: string, origin: string) returns (order: seq<Dir>)
      ensures IsArrangement(order, name, origin)
    {
      var found := FindSnapsByName(name, origin);
      order := SortByVersion(found, VersionOf, false);
      assert forall d :: d in order <==> d in multiset(order);
      DistinctArrangement(found, order);
    }

    /** `GarbageCollect`: with one active part at index `a` of the arrangement, all parts before its
        immediate predecessor are uninstalled; otherwise none is.  The first `m` parts are gone in the end. */
    method GarbageCollect(name: string, origin: string, requested: bool)
      returns (ok: bool, ghost order: seq<Dir>, ghost a: int, ghost m: nat)
      requires Valid()
      modifies this
      ensures Valid()
      ensures old(IsArrangement(order, name, origin)) && -1 <= a < |order|
      ensures a >= 0 ==> IsActiveIndex(order, old(current), old(dirs), a)
      ensures if requested && |order| >= 3 then ok ==> IsActiveIndex(order, old(current), old(dirs), a) else a == -1
      ensures m <= Doomed(order, requested, a) && (ok ==> m == Doomed(order, requested, a))
      ensures CollectionKeeps(old(Now()), Now(), order[..m])
      ensures old(Supported(meta)) ==> Supported(meta)
      ensures faults == old(faults) ==>
        (ok <==> requested && |order| >= 3 ==>
          && AtMostOneActive(order, old(current), old(dirs))
          && Collectable(old(meta), order, Doomed(order, requested, a)))
    {
      hide InOrder, InUse;
      var parts := Arrange(name, origin);
      order, a, m := parts, -1, 0;
      NothingCollected(Now(), parts);
      if !requested { return true, order, a, m; }
      if |parts| < 3 { return true, order, a, m; }
      var unique, active := FindActive(parts);
      if !unique { return false, order, a, m; }
      a := active;
      if active < 1 { return true, order, a, m; }
      ok, m := UninstallFirst(parts, active - 1);
    }

    /** The index of the active part, or -1; several active parts are an error. */
    method FindActive(parts: seq<Dir>) returns (unique: bool, active: int)
      ensures -1 <= active < |parts|
      ensures unique ==> IsActiveIndex(parts, current, dirs, active)
      ensures !unique ==> 0 <= active && IsActive(current, dirs, parts[active])
      ensures !unique ==> exists j :: active < j < |parts| && IsActive(current, dirs, parts[j])
    {
      active := -1;
      for i := 0 to |parts|
        invariant -1 <= active < i
        invariant active >= 0 ==> IsActive(current, dirs, parts[active])
        invariant forall k :: 0 <= k < i && k != active ==> !IsActive(current, dirs, parts[k])
      {
        if IsActive(current, dirs, parts[i]) {
          if active > -1 { return false, active; }
          active := i;
        }
      }
      unique := true;
    }

    /** Uninstalls the first `n` parts, none of which is active, in order, up to the first failure. */
    method UninstallFirst(parts: seq<Dir>, n: nat) returns (ok: bool, ghost m: nat)
      requires Valid() && n <= |parts| && Distinct(parts) && forall d :: d in parts ==> d in meta
      requires forall i :: 0 <= i < n ==> !IsActive(current, dirs, parts[i])
      modifies this
      ensures Valid()
      ensures m <= n && (ok ==> m == n) && CollectionKeeps(old(Now()), Now(), parts[..m])
      ensures old(Supported(meta)) ==> Supported(meta)
      ensures faults == old(faults) ==> (ok <==> Collectable(old(meta), parts, n))
    {
      hide Supported, InUse, Collectable, CollectionKeeps, RemovalKeeps, Distinct;
      m := 0;
      ghost var before := Now();
      NothingCollected(Now(), parts);
      for k := 0 to n
        invariant Valid() && m == k && CollectionKeeps(before, Now(), parts[..k])
        invariant old(Supported(meta)) ==> Supported(meta)
        invariant faults >= before.faults && (faults == before.faults && k > 0 ==> Collectable(before.meta, parts, k))
      {
        var builtIn: bool := *;
        ghost var middle := Now();
        assert parts[k] in parts && !IsActive(before.current, before.dirs, parts[k]);
        NextToCollect(before, middle, parts, k);
        CollectableStep(before.meta, parts, k);
        ok := Uninstall(meta[parts[k]], builtIn);
        OneMoreCollected(before, middle, Now(), parts, k);
        if !ok {
          if meta != middle.meta { m := k + 1; }
          return;
        }
        m := k + 1;
      }
      ok := true;
      if n == 0 { NothingToCollect(before.meta, parts); }
    }

    /** Two collections in a row.  After a successful first one, the second removes nothing unless a version
        behind the active one compares equal to it. */
    method CollectTwice(name: string, origin: string)
      returns (ok: bool, ghost order: seq<Dir>, ghost a: int, ghost between: map<Dir, Part>)
      requires Valid()
      modifies this
      ensures Valid()
      ensures old(IsArrangement(order, name, origin)) && -1 <= a < |order|
      ensures ok && AllVersionsFit(order, VersionOf) && !Tie(order, a) ==>
        && (a >= 0 ==> IsActiveIndex(order, old(current), old(dirs), a) && IsActive(current, dirs, order[a]))
        && meta == between == old(meta) - Members(order[..Doomed(order, true, a)])
    {
      hide InOrder, Compare, VersionFits, Supported, Tie, Matches, Collectable, AtMostOneActive;
      ghost var m;
      ok, order, a, m := GarbageCollect(name, origin, true);
      between := meta;
      ghost var first := Now();
      var _, again, b, n := GarbageCollect(name, origin, true);
      if a >= 0 {
        CollectionKeepsActive(old(Now()), first, order[..m], order[a].package);
        CollectionKeepsActive(first, Now(), again[..n], order[a].package);
      }
      if ok && AllVersionsFit(order, VersionOf) && !Tie(order, a) {
        SameParts(order, m, again, old(meta), name, origin);
        DistinctIsShortest(again, order);
        ActiveIsSame(order, a, again, b, current, old(dirs), first.dirs);
        SecondRunRemovesNothing(order, a, again, b);
      }
    }

    /** The one part with a name and a version is made active; none or several are an error. */
    method MakeSnapActive(name: string, origin: string, version: string) returns (ok: bool, ghost found: Option<Dir>)
      requires Valid()
      modifies this`files, this`current, this`data, this`dataCurrent, this`faults
      ensures found.None? ==> !ok && Now() == old(Now()) && forall e :: !IsOnlyMatch(e, name, origin, version)
      ensures found.Some? ==>
        && IsOnlyMatch(found.value, name, origin, version)
        && found.value in meta && ActivationKeeps(old(Now()), Now(), meta[found.value])
        && (ok ==> IsActive(current, dirs, found.value))
        && (faults == old(faults) ==> (ok <==> old(Activatable(meta[found.value]))))
    {
      hide Matches, CanActivate, ActivationKeeps, FreshlyActivated, HasFiles, Generated, Cleared;
      var parts := FindSnapsByName(name, origin);
      var matching: seq<Dir> := [];
      for k := 0 to |parts|
        invariant forall e :: e in matching <==> e in parts[..k] && e.version == version
        invariant Distinct(matching)
      {
        assert parts[..k + 1] == parts[..k] + [parts[k]];
        if parts[k].version == version { matching := matching + [parts[k]]; }
      }
      assert parts[..|parts|] == parts;
      found := None;
      if |matching| != 1 {
        assert |matching| >= 2 ==> matching[0] in matching && matching[1] in matching;
        assert forall e :: e in matching <==> e in meta && Matches(meta[e], name, origin) && e.version == version;
        forall e ensures !IsOnlyMatch(e, name, origin, version) {
          assert e in meta && Matches(meta[e], name, origin) && e.version == version ==> e in matching;
        }
        return false, found;
      }
      assert matching[0] in matching;
      found := Some(matching[0]);
      var activated, _ := Activate(meta[matching[0]]);
      ok := activated;
    }

    /** The only installed part with a name, and origin if one is given, and a version. */
    ghost predicate IsOnlyMatch(d: Dir, name: string, origin: string, version: string)
      reads this`meta
    {
      forall e :: e in meta && Matches(meta[e], name, origin) && e.version == version <==> e == d
    }

    /** `Rollback`: without a version, the second highest one that is installed. */
    method Rollback(name: string, origin: string, version: string)
      returns (ok: bool, chosen: string, ghost order: seq<Dir>, ghost found: Option<Dir>)
      requires Valid()
      modifies this`files, this`current, this`data, this`dataCurrent, this`faults
      ensures old(IsArrangement(order, name, origin))
      ensures chosen == if version != "" || |order| < 2 then version else order[|order| - 2].version
      ensures version == "" && |order| < 2 ==> found.None?
      ensures found.None? ==> !ok && Now() == old(Now())
      ensures found.Some? ==>
        && IsOnlyMatch(found.value, name, origin, chosen) && found.value in order
        && found.value in meta && ActivationKeeps(old(Now()), Now(), meta[found.value])
        && (ok ==> IsActive(current, dirs, found.value))
        && (faults == old(faults) ==> (ok <==> old(Activatable(meta[found.value]))))
      ensures (version != "" || |order| >= 2) && found.None? ==> forall e :: !IsOnlyMatch(e, name, origin, chosen)
    {
      hide CanActivate, ActivationKeeps;
      var snaps := Arrange(name, origin);
      order, chosen, found := snaps, version, None;
      if version == "" {
        if |snaps| < 2 { return false, "", order, found; }
        chosen := snaps[|snaps| - 2].version;
      }
      ok, found := MakeSnapActive(name, origin, chosen);
    }

    // -------------------------------------------------------------- collecting and rolling back

    /** Two versions, the second above the first, are all that is installed under the name. */
    ghost predicate IsPair(pair: seq<Dir>, name: string, origin: string)
      reads this`meta
    {
      && |pair| == 2 && IsSortedList(pair) && Compare(pair[0].version, pair[1].version) < 0
      && forall d :: d in meta && Matches(meta[d], name, origin) <==> d in pair
    }

    /** Rolling back without a version.  With two versions under the name it activates the lower one, unless a
        step fails or the state stands in the way. */
    method RollbackLatest(name: string, origin: string, ghost pair: seq<Dir>)
      returns (ok: bool, ghost found: Option<Dir>)
      requires Valid()
      modifies this`files, this`current, this`data, this`dataCurrent, this`faults
      ensures RollbackKeeps(old(Now()), Now(), found)
      ensures found.Some? ==> Matches(meta[found.value], name, origin)
      ensures old(IsPair(pair, name, origin)) ==>
        && found == Some(pair[0])
        && (ok ==> IsActive(current, dirs, pair[0]))
        && (faults == old(faults) ==> (ok <==> old(pair[0] in meta && Activatable(meta[pair[0]]))))
    {
      hide Compare, VersionFits, Matches, CanActivate;
      var rolledBack, chosen, order, target := Rollback(name, origin, "");
      ok, found := rolledBack, target;
      if old(IsPair(pair, name, origin)) {
        assert pair[0..] == pair;
        RollbackFindsPredecessor(pair, order);
        assert pair[0] in pair && pair[1] in pair;
        assert IsOnlyMatch(pair[0], name, origin, chosen);
      }
    }

    /** What a collection leaves for a rollback, with the active version above all others. */
    method CollectOnTop(name: string, origin: string) returns (ok: bool, ghost order: seq<Dir>, ghost m: nat)
      requires Valid()
      modifies this
      ensures Valid() && m <= |order|
      ensures old(IsArrangement(order, name, origin)) && CollectionKeeps(old(Now()), Now(), order[..m])
      ensures OnTop(order, old(current), old(dirs)) ==>
        && |order| >= 2 && order[|order| - 2] in meta && order[|order| - 2] in old(meta)
        && (faults == old(faults) ==> (ok <==> Collectable(old(meta), order, |order| - 2)))
        && (ok ==> IsPair(order[|order| - 2..], name, origin))
    {
      hide Compare, VersionFits, Matches, IsPair, OnTop, IsActiveIndex, AtMostOneActive, InOrder;
      hide Supported, IsActive, Collectable;
      ghost var a;
      ok, order, a, m := GarbageCollect(name, origin, true);
      if OnTop(order, old(current), old(dirs)) {
        OnTopIsLast(order, old(current), old(dirs), a);
        NothingToCollect(old(meta), order);
        ghost var n := |order| - 2;
        assert Doomed(order, true, a) <= n;
        assert order[n] in order && order[n] !in order[..m];
        if ok { KeptIsPair(order, n, old(meta), name, origin); }
      }
    }

    lemma KeptIsPair(order: seq<Dir>, n: nat, before: map<Dir, Part>, name: string, origin: string)
      requires n + 2 == |order| && IsSortedList(order) && Compare(order[n].version, order[n + 1].version) < 0
      requires forall d :: d in order <==> d in before && Matches(before[d], name, origin)
      requires meta == before - Members(order[..n])
      ensures IsPair(order[n..], name, origin)
    {
      hide Compare, VersionFits, Matches;
      var pair := order[n..];
      forall d ensures d in meta && Matches(meta[d], name, origin) <==> d in pair {
        if d in meta && Matches(meta[d], name, origin) {
          assert d in order && d !in order[..n];
          var i :| 0 <= i < |order| && order[i] == d;
          assert order[i] !in order[..n];
        }
        if d in pair {
          var i :| n <= i < |order| && order[i] == d;
          assert d in order && d !in order[..n];
        }
      }
      assert forall d :: d in pair ==> d in order;
      assert forall i, j :: 0 <= i < j < |pair| ==> Ordered(VersionOf(pair[i]), VersionOf(pair[j]), false);
    }

    /** Collecting garbage and then rolling back: if the active version is above all others, the rollback
        activates exactly the predecessor that the collection has kept. */
    method CollectThenRollback(name: string, origin: string)
      returns (ok: bool, ghost order: seq<Dir>, ghost found: Option<Dir>)
      requires Valid()
      modifies this
      ensures Valid() && old(IsArrangement(order, name, origin))
      ensures RollbackKeeps(old(Now()), Now(), found)
      ensures found.Some? ==> found.value in order
      ensures ok && OnTop(order, old(current), old(dirs)) ==> IsActive(current, dirs, order[|order| - 2])
      ensures OnTop(order, old(current), old(dirs)) && faults == old(faults) ==>
        (ok <==> Collectable(old(meta), order, |order| - 2) && old(Activatable(meta[order[|order| - 2]])))
    {
      hide CanActivate, IsPair, Collectable, InOrder, OnTop, IsActive, Matches;
      ghost var m;
      found := None;
      ok, order, m := CollectOnTop(name, origin);
      ghost var collected := Now();
      if !ok { return; }
      ghost var pair := if |order| >= 2 then order[|order| - 2..] else [];
      if |order| >= 2 { CollectionKeepsActive(old(Now()), collected, order[..m], order[|order| - 2].package); }
      ok, found := RollbackLatest(name, origin, pair);
      if found.Some? { CollectionKeepsActive(old(Now()), collected, order[..m], found.value.package); }
    }

    /** Installing a version above all others of its name, collecting garbage and rolling back: the version that
        was the highest before is active again, and its data is still there. */
    method InstallCollectRollback(p: Part, origin: string)
      returns (ok: bool, ghost predecessor: Dir, ghost order: seq<Dir>, ghost middle: State)
      requires Valid()
      modifies this
      ensures ok && old(IsNewest(p, origin)) ==>
        && predecessor in old(meta) && Matches(old(meta)[predecessor], p.yaml.name, origin)
        && (forall d :: d in old(meta) && Matches(old(meta)[d], p.yaml.name, origin) ==>
              Compare(d.version, predecessor.version) <= 0)
        && IsActive(current, dirs, predecessor)
      ensures old(IsNewest(p, origin)) ==>
        forall d :: d in old(data) && !(d.package == QualifiedName(p) && d.version == p.yaml.version) ==> d in data
      ensures old(IsNewest(p, origin)) && old(CanInstall(p)) && faults == old(faults) ==>
        && middle.meta == old(meta)[DirOf(p) := p] && ActiveIn(middle, QualifiedName(p)) == Some(DirOf(p))
        && |order| >= 2 && order[|order| - 2] in middle.meta
        && (ok <==> Collectable(middle.meta, order, |order| - 2) &&
                    CanActivate(middle, middle.meta[order[|order| - 2]]))
    {
      hide Compare, VersionFits, InOrder, Collectable, Supported, CanActivate, OneFault, OnTop;
      hide SwitchKeeps, RollbackKeeps, HasFiles, StaysBlocked, IsBlocked, CanSwitch;
      predecessor, order := DirOf(p), [];
      var installed, compensated, _ := Install(p);
      middle := Now();
      SwitchMeans(old(Now()), middle, p, old(ActivePart(QualifiedName(p))), installed, compensated);
      if old(CanInstall(p)) { OneFaultMeans(old(Now()), middle, p, old(ActivePart(QualifiedName(p)))); }
      if !installed { return false, predecessor, order, middle; }
      var rolledBack, arranged, found := CollectThenRollback(p.yaml.name, origin);
      ok, order := rolledBack, arranged;
      RollbackMeans(middle, Now(), found);
      if old(IsNewest(p, origin)) {
        NewestIsOnTop(p, origin, order, old(meta), middle.meta, middle.current, middle.dirs);
        predecessor := order[|order| - 2];
      }
    }

    /** The part's version is above all installed ones of its name, of which there are some, all of one origin. */
    ghost predicate IsNewest(p: Part, origin: string)
      reads this`meta
    {
      && (origin == "" || origin == p.origin) && VersionFits(p.yaml.version) && DirOf(p) !in meta
      && (exists d :: d in meta && Matches(meta[d], p.yaml.name, origin))
      && forall d :: d in meta && Matches(meta[d], p.yaml.name, origin) ==>
           d.package == QualifiedName(p) && VersionFits(d.version) && Compare(d.version, p.yaml.version) < 0
    }

    // -------------------------------------------------------------- runs

    method SetActive(p: Part, active: bool) returns (ok: bool)
      requires Valid() && DirOf(p) in dirs
      modifies this`files, this`current, this`data, this`dataCurrent, this`faults
      ensures if active then ActivationKeeps(old(Now()), Now(), p) else DeactivationKeeps(old(Now()), Now(), p)
      ensures ok && active ==> IsActivated(p) && HasFiles(p, old(IsActivated(p)), old(Now()), Now())
      ensures ok && !active ==> old(IsActivated(p)) && PolicyTargets(p.yaml) !! files
      ensures faults == old(faults) ==>
        (ok <==> if active then old(Activatable(p)) else old(IsActivated(p)) && Removable(p.yaml, old(files)))
      ensures faults == old(faults) && ok && !active ==>
        Active(QualifiedName(p)) == None && files == old(files) - Cleared(p)
    {
      hide Removable, Installable, Generated, Cleared, PolicyTargets;
      if active {
        var activated, _ := Activate(p);
        ok := activated;
      } else {
        var deactivated, _, _ := Deactivate(p);
        ok := deactivated;
      }
    }

    /** One operation.  A part that is active without one of its policy files stays so: it can be neither
        deactivated nor removed nor replaced. */
    method Step(op: Operation)
      requires Valid() && Supported(meta)
      modifies this
      ensures Valid() && Supported(meta)
      ensures KeepsWedges(old(Now()), Now(), [op])
    {
      hide Supported, IsWedged, OwnedBy, ActivationKeeps, DeactivationKeeps, RemovalKeeps, CollectionKeeps, SwitchKeeps;
      ghost var b := Now();
      match op
      case InstallSnap(p) =>
        var ok, compensated, _ := Install(p);
        forall d, t | IsWedged(b, d, t) && OwnedBy(b, t, d.package) && AllRespect([op], t, d.package)
          ensures IsWedged(Now(), d, t) && OwnedBy(Now(), t, d.package)
        {
          assert op in [op];
          InstallKeepsWedge(b, Now(), p, ok, compensated, d, t);
        }
      case UninstallSnap(d, builtIn) =>
        if d in meta {
          var _ := Uninstall(meta[d], builtIn);
          forall e, t | IsWedged(b, e, t) && OwnedBy(b, t, e.package)
            ensures IsWedged(Now(), e, t) && OwnedBy(Now(), t, e.package)
          {
            RemovalKeepsWedge(b, Now(), b.meta[d], e, t);
          }
        }
      case Switch(d, active) =>
        if d in meta {
          var _ := SetActive(meta[d], active);
          forall e, t | IsWedged(b, e, t) && OwnedBy(b, t, e.package)
            ensures IsWedged(Now(), e, t) && OwnedBy(Now(), t, e.package)
          {
            if active {
              ActivationKeepsWedge(b, Now(), b.meta[d], e, t);
            } else {
              DeactivationKeepsWedge(b, Now(), b.meta[d], e, t);
            }
          }
        }
      case Collect(name, origin) =>
        var _, order, _, m := GarbageCollect(name, origin, true);
        forall e, t | IsWedged(b, e, t) && OwnedBy(b, t, e.package)
          ensures IsWedged(Now(), e, t) && OwnedBy(Now(), t, e.package)
        {
          CollectionKeepsWedge(b, Now(), order[..m], e, t);
        }
      case RollBack(name, origin, version) =>
        var _, _, _, found := Rollback(name, origin, version);
        if found.Some? {
          forall e, t | IsWedged(b, e, t) && OwnedBy(b, t, e.package)
            ensures IsWedged(Now(), e, t) && OwnedBy(Now(), t, e.package)
          {
            ActivationKeepsWedge(b, Now(), b.meta[found.value], e, t);
          }
        }
    }

    /** Any sequence of operations, each of which may fail anywhere, keeps every framework that an
        installed snap names installed, and repairs no part that is active without one of its policy files, as
        long as no other package has a policy file of that name. */
    method Run(ops: seq<Operation>)
      requires Valid() && Supported(meta)
      modifies this
      ensures Valid() && Supported(meta)
      ensures KeepsWedges(old(Now()), Now(), ops)
    {
      hide IsWedged, OwnedBy, Respects, Supported;
      for k := 0 to |ops|
        invariant Valid() && Supported(meta)
        invariant KeepsWedges(old(Now()), Now(), ops)
      {
        assert ops[k] in ops && ops[k] in [ops[k]];
        Step(ops[k]);
      }
    }
  }

  /** A first install that failed after its link was written has left the link.  Installing the same version again
      succeeds unless a step fails, and generates none of its files. */
  method DanglingLinkExample() returns (ok: bool, files: set<File>, ghost faults: nat)
    ensures ok ==> files == {} && !(Generated(AppWithBinary()) <= files)
    ensures faults == 0 ==> ok
  {
    var p := AppWithBinary();
    var system := new System();
    system.current := map[QualifiedName(p) := p.yaml.version];
    var installed, _, _ := system.Install(p);
    assert Wrappers(p.yaml)[0] in Generated(p);
    ok, files, faults := installed, system.files, system.faults;
  }

  // ---------------------------------------------------------------- parts that nothing can repair

  datatype Operation =
    | InstallSnap(part: Part)
    | UninstallSnap(dir: Dir, builtIn: bool)
    | Switch(dir: Dir, active: bool)
    | Collect(name: string, origin: string)
    | RollBack(name: string, origin: string, version: string)

  /** The operation brings no policy file of this name into another package. */
  ghost predicate Respects(op: Operation, t: File, package: string) {
    op.InstallSnap? && t in PolicyTargets(op.part.yaml) ==> QualifiedName(op.part) == package
  }

  ghost predicate AllRespect(ops: seq<Operation>, t: File, package: string) {
    forall op :: op in ops ==> Respects(op, t, package)
  }

  /** A part that is active without a policy file that is its package's alone stays so. */
  ghost predicate KeepsWedges(b: State, a: State, ops: seq<Operation>) {
    forall d, t :: IsWedged(b, d, t) && OwnedBy(b, t, d.package) && AllRespect(ops, t, d.package) ==>
      IsWedged(a, d, t) && OwnedBy(a, t, d.package)
  }
}
