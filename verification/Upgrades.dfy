/** What the operations on snaps may change, whatever fails, and what one failing step leaves of an upgrade:
    snappy/snapp.go, `Install`, `activate` and `deactivate`. */
module Upgrades {
  import opened Lists
  import opened Options
  import opened Snaps
  import opened Arrangements
  import opened Frameworks
  import opened Services

  /** All that the operations change.  `faults` is the number of steps that have failed, and `log` holds the
      passes over the services of dependents. */
  datatype State = State(
    dirs: set<Dir>, meta: map<Dir, Part>, current: map<string, string>, dataCurrent: map<string, string>,
    data: set<DataDir>, files: set<File>, faults: nat, log: seq<Cycle>)

  function ActiveIn(s: State, package: string): Option<Dir> { Resolve(package, s.current, s.dirs) }

  /** The version that is active, if it can be loaded. */
  function PartIn(s: State, package: string): Option<Part> {
    var a := ActiveIn(s, package);
    if a.Some? && a.value in s.meta then Some(s.meta[a.value]) else None
  }

  /** Nothing in the state stands in the way of activating the part. */
  ghost predicate CanActivate(s: State, p: Part) {
    var q := QualifiedName(p);
    match ActiveIn(s, q)
    case None => Installable(p.yaml, s.files)
    case Some(d) =>
      || d == DirOf(p)
      || (PartIn(s, q).Some? &&
          var o := PartIn(s, q).value;
          Removable(o.yaml, s.files) && Installable(p.yaml, s.files - Cleared(o)))
  }

  // ---------------------------------------------------------------- frames

  /** At most the link of one package has changed, to nothing or to one of the given versions. */
  ghost predicate OnlyLinkChanged(
    before: map<string, string>, after: map<string, string>, package: string, versions: set<string>)
  {
    && (forall q :: q != package ==> LinkOf(after, q) == LinkOf(before, q))
    && (package in after ==> LinkOf(after, package) == LinkOf(before, package) || after[package] in versions)
  }

  function OldVersion(oldPart: Option<Part>): set<string> {
    if oldPart.Some? then {oldPart.value.yaml.version} else {}
  }

  function Versions(p: Part, oldPart: Option<Part>): set<string> { {p.yaml.version} + OldVersion(oldPart) }

  lemma LinkReplaced(before: map<string, string>, after: map<string, string>, package: string, version: string)
    requires after in {before, before - {package}, before[package := version], (before - {package})[package := version]}
    ensures OnlyLinkChanged(before, after, package, {version})
  {}

  ghost predicate LinksFramed(b: State, a: State, package: string, versions: set<string>) {
    OnlyLinkChanged(b.current, a.current, package, versions) &&
    OnlyLinkChanged(b.dataCurrent, a.dataCurrent, package, versions)
  }

  /** Which steps of linking succeed: removing the two links, and making the link, the data directory and
      the data link. */
  datatype LinkSteps = LinkSteps(removed: bool, dataRemoved: bool, linked: bool, made: bool, dataLinked: bool)

  /** A link is not made over one that could not be removed, and no step is taken after one that failed. */
  ghost predicate IsLinking(b: State, a: State, p: Part, t: LinkSteps, ok: bool) {
    var q, v := QualifiedName(p), p.yaml.version;
    var cleared := if t.removed then b.current - {q} else b.current;
    var dataCleared := if t.dataRemoved then b.dataCurrent - {q} else b.dataCurrent;
    var linked := t.linked && q !in cleared;
    var made := linked && t.made;
    var dataLinked := made && t.dataLinked && q !in dataCleared;
    && a.current == (if linked then cleared[q := v] else cleared)
    && a.data == (if made then b.data + {DataDir("", q, v)} else b.data)
    && a.dataCurrent == (if dataLinked then dataCleared[q := v] else dataCleared)
    && ok == dataLinked
  }

  /** What it amounts to: success activates the part and links its data. */
  lemma LinkingMeans(b: State, a: State, p: Part, t: LinkSteps, ok: bool)
    requires IsLinking(b, a, p, t, ok) && a.dirs == b.dirs && DirOf(p) in a.dirs
    ensures LinksFramed(b, a, QualifiedName(p), {p.yaml.version})
    ensures b.data <= a.data <= b.data + {DataDir("", QualifiedName(p), p.yaml.version)}
    ensures ok ==> ActiveIn(a, QualifiedName(p)) == Some(DirOf(p))
    ensures ok ==> LinkOf(a.dataCurrent, QualifiedName(p)) == Some(p.yaml.version)
    ensures ok ==> DataDir("", QualifiedName(p), p.yaml.version) in a.data
  {
    LinkReplaced(b.current, a.current, QualifiedName(p), p.yaml.version);
    LinkReplaced(b.dataCurrent, a.dataCurrent, QualifiedName(p), p.yaml.version);
    hide OnlyLinkChanged;
  }

  lemma NoLinkChanged(s: State, p: Part)
    ensures OnlyLinkChanged(s.current, s.current, QualifiedName(p), {p.yaml.version})
    ensures OnlyLinkChanged(s.dataCurrent, s.dataCurrent, QualifiedName(p), {p.yaml.version})
  {}

  /** No other files than these have come or gone. */
  ghost predicate FilesFramed(before: set<File>, after: set<File>, touched: set<File>) {
    before - touched <= after <= before + touched
  }

  /** The paths of a part and, if there is one, of the version that it replaces. */
  function Touched(p: Part, oldPart: Option<Part>): set<File> {
    Cleared(p) + if oldPart.Some? then Cleared(oldPart.value) else {}
  }

  lemma PathsAreTouched(p: Part, oldPart: Option<Part>)
    ensures Generated(p) <= Touched(p, oldPart)
    ensures oldPart.Some? ==>
      Cleared(oldPart.value) <= Touched(p, oldPart) && Generated(oldPart.value) <= Touched(p, oldPart)
  {
    PoliciesApart(p);
    if oldPart.Some? { PoliciesApart(oldPart.value); }
  }

  predicate NoData(data: set<DataDir>, package: string, version: string) {
    forall d :: d in data ==> !(d.package == package && d.version == version)
  }

  /** Every data directory of the old version has a counterpart for the new one. */
  ghost predicate DataCopied(before: set<DataDir>, after: set<DataDir>, p: Part, oldPart: Part) {
    forall d :: d in before && d.package == QualifiedName(p) && d.version == oldPart.yaml.version ==>
      DataDir(d.home, d.package, p.yaml.version) in after
  }

  /** No data directory is lost, except possibly those of the version in question, and only directories of
      its package are new. */
  ghost predicate OtherDataKept(before: set<DataDir>, after: set<DataDir>, p: Part) {
    && (forall d :: d in before && !(d.package == QualifiedName(p) && d.version == p.yaml.version) ==> d in after)
    && (forall d :: d in after && d.package != QualifiedName(p) ==> d in before)
  }

  lemma ActiveAfter(b: State, a: State, p: Part)
    requires a.dirs == b.dirs && a.meta == b.meta && LinksFramed(b, a, QualifiedName(p), {p.yaml.version})
    ensures ActiveIn(a, QualifiedName(p)) in {None, ActiveIn(b, QualifiedName(p)), Some(DirOf(p))}
  {}

  /** An activation followed by the deferred calls, or by nothing, stays within the frame of the upgrade. */
  lemma FramesAdd(b: State, m: State, a: State, p: Part, oldPart: Option<Part>, part: Option<Part>)
    requires part in {None, Some(p), oldPart} && FilesFramed(b.files, m.files, Touched(p, part))
    requires LinksFramed(b, m, QualifiedName(p), {p.yaml.version})
    requires b.data <= m.data <= b.data + {DataDir("", QualifiedName(p), p.yaml.version)}
    requires a == m || (
      && FilesFramed(m.files, a.files, Touched(p, oldPart))
      && LinksFramed(m, a, QualifiedName(p), OldVersion(oldPart)) && OtherDataKept(m.data, a.data, p))
    ensures FilesFramed(b.files, a.files, Touched(p, oldPart))
    ensures LinksFramed(b, a, QualifiedName(p), Versions(p, oldPart)) && OtherDataKept(b.data, a.data, p)
  {
    hide Cleared;
  }

  /** The version that is active cannot be deactivated, so that nothing can take its place. */
  ghost predicate IsBlocked(s: State, p: Part) {
    var o := PartIn(s, QualifiedName(p));
    o.Some? && ActiveIn(s, QualifiedName(p)) != Some(DirOf(p)) && !Removable(o.value.yaml, s.files)
  }

  /** The state differs at most in files that are gone and data that is new. */
  ghost predicate StaysBlocked(b: State, a: State) {
    a.current == b.current && a.files <= b.files
  }

  /** What `activate` may change, whatever fails. */
  ghost predicate ActivationKeeps(b: State, a: State, p: Part) {
    var q := QualifiedName(p);
    && a.dirs == b.dirs && a.meta == b.meta && a.faults >= b.faults && a.log == b.log
    && LinksFramed(b, a, q, {p.yaml.version})
    && b.data <= a.data <= b.data + {DataDir("", q, p.yaml.version)}
    && FilesFramed(b.files, a.files, Touched(p, PartIn(b, q)))
    && (IsBlocked(b, p) ==> StaysBlocked(b, a) && a.data == b.data)
    && (ActiveIn(b, q) == Some(DirOf(p)) ==> a == b.(faults := a.faults))
  }

  /** What `deactivate` may change, whatever fails. */
  ghost predicate DeactivationKeeps(b: State, a: State, p: Part) {
    && a.dirs == b.dirs && a.meta == b.meta && a.data == b.data && a.faults >= b.faults && a.log == b.log
    && LinksFramed(b, a, QualifiedName(p), {})
    && b.files - Cleared(p) <= a.files <= b.files
    && (!Removable(p.yaml, b.files) ==> a.current == b.current)
    && (ActiveIn(b, QualifiedName(p)) != Some(DirOf(p)) ==>
          a.current == b.current && a.dataCurrent == b.dataCurrent && a.files == b.files && a.faults == b.faults)
  }

  lemma AlreadyActive(s: State, p: Part)
    requires ActiveIn(s, QualifiedName(p)) == Some(DirOf(p))
    ensures ActivationKeeps(s, s, p)
  {
    hide Cleared;
  }

  /** An activation is a deactivation of what is active, if anything is, followed by new files and a new link. */
  lemma ActivationIsFramed(b: State, m: State, a: State, p: Part)
    requires ActiveIn(b, QualifiedName(p)) != Some(DirOf(p))
    requires var o := PartIn(b, QualifiedName(p));
      (m == b.(faults := m.faults) && m.faults >= b.faults) ||
      (o.Some? && QualifiedName(o.value) == QualifiedName(p) && DeactivationKeeps(b, m, o.value))
    requires a == m || (
      && !IsBlocked(b, p) && m.files <= a.files <= m.files + Generated(p)
      && LinksFramed(m, a, QualifiedName(p), {p.yaml.version})
      && m.data <= a.data <= m.data + {DataDir("", QualifiedName(p), p.yaml.version)}
      && a.dirs == m.dirs && a.meta == m.meta && a.faults >= m.faults && a.log == m.log)
    ensures ActivationKeeps(b, a, p) && a.faults >= b.faults
  {
    PathsAreTouched(p, PartIn(b, QualifiedName(p)));
    hide Cleared, Generated, Removable;
  }

  /** What `remove` may change, whatever fails: an inactive part leaves no trace but its own directory, and an
      active one that cannot be deactivated stays. */
  ghost predicate RemovalKeeps(b: State, a: State, p: Part) {
    var q := QualifiedName(p);
    && (a.meta == b.meta || a.meta == b.meta - {DirOf(p)})
    && (a.dirs == b.dirs || (a.dirs == b.dirs - {DirOf(p)} && a.meta == b.meta - {DirOf(p)}))
    && a.data == b.data && a.faults >= b.faults && a.log == b.log
    && LinksFramed(b, a, q, {})
    && b.files - Cleared(p) <= a.files <= b.files
    && (ActiveIn(b, q) != Some(DirOf(p)) ==>
          a.current == b.current && a.dataCurrent == b.dataCurrent && a.files == b.files)
    && (ActiveIn(b, q) == Some(DirOf(p)) && !Removable(p.yaml, b.files) ==>
          a.meta == b.meta && a.dirs == b.dirs && a.current == b.current)
  }

  /** What a rollback to the given part may change, whatever fails. */
  ghost predicate RollbackKeeps(b: State, a: State, found: Option<Dir>) {
    && a.faults >= b.faults && a.log == b.log && b.data <= a.data
    && match found
       case None => a.current == b.current && a.dataCurrent == b.dataCurrent && a.data == b.data && a.files == b.files
       case Some(d) =>
         && d in b.meta && d in a.meta && a.meta[d] == b.meta[d]
         && LinksFramed(b, a, d.package, {d.version})
         && a.data <= b.data + {DataDir("", d.package, d.version)}
         && FilesFramed(b.files, a.files, Touched(b.meta[d], PartIn(b, d.package)))
  }

  /** What uninstalling these inactive parts changes. */
  ghost predicate CollectionKeeps(b: State, a: State, gone: seq<Dir>) {
    && a.meta == b.meta - Members(gone)
    && b.dirs - Members(gone) <= a.dirs <= b.dirs
    && a.current == b.current && a.dataCurrent == b.dataCurrent && a.data == b.data && a.files == b.files
    && a.faults >= b.faults && a.log == b.log
    && forall d :: d in gone ==> ActiveIn(b, d.package) != Some(d)
  }

  lemma NothingCollected(s: State, parts: seq<Dir>)
    ensures CollectionKeeps(s, s, parts[..0])
  {
    assert Members(parts[..0]) == {};
    assert s.meta - {} == s.meta;
  }

  /** The next part is still there, and not active. */
  lemma NextToCollect(b: State, m: State, parts: seq<Dir>, k: nat)
    requires k < |parts| && Distinct(parts) && parts[k] in b.meta && CollectionKeeps(b, m, parts[..k])
    requires ActiveIn(b, parts[k].package) != Some(parts[k])
    ensures parts[k] in m.meta && m.meta[parts[k]] == b.meta[parts[k]]
    ensures ActiveIn(m, parts[k].package) != Some(parts[k])
    ensures m.meta == b.meta - Members(parts[..k]) && m.faults >= b.faults
  {
    assert parts[k] !in parts[..k];
    CollectionKeepsActive(b, m, parts[..k], parts[k].package);
  }

  /** The next part goes, or stays if its removal fails. */
  lemma OneMoreCollected(b: State, m: State, a: State, parts: seq<Dir>, k: nat)
    requires k < |parts| && CollectionKeeps(b, m, parts[..k])
    requires parts[k] in m.meta && DirOf(m.meta[parts[k]]) == parts[k]
    requires RemovalKeeps(m, a, m.meta[parts[k]]) && ActiveIn(b, parts[k].package) != Some(parts[k])
    ensures a.faults >= m.faults
    ensures a.meta == m.meta ==> CollectionKeeps(b, a, parts[..k])
    ensures a.meta != m.meta ==> CollectionKeeps(b, a, parts[..k + 1])
  {
  }

  /** A collection changes nothing for what is active or can be activated. */
  lemma CollectionKeepsActive(b: State, a: State, gone: seq<Dir>, package: string)
    requires CollectionKeeps(b, a, gone)
    ensures ActiveIn(a, package) == ActiveIn(b, package) && PartIn(a, package) == PartIn(b, package)
    ensures forall p :: QualifiedName(p) == package ==> (CanActivate(a, p) <==> CanActivate(b, p))
  {
    hide Installable, Removable, Cleared;
  }

  // ---------------------------------------------------------------- removals in order

  /** The first `done` paths have been tried, nothing else is gone, and if clean, all of them are. */
  ghost predicate Cleaned(before: set<File>, after: set<File>, fs: seq<File>, done: nat, clean: bool) {
    && done <= |fs|
    && before - Members(fs[..done]) <= after <= before
    && (clean ==> after == before - Members(fs[..done]))
  }

  lemma CleanedSum(
    before: set<File>, between: set<File>, after: set<File>,
    fs: seq<File>, gs: seq<File>, k: nat, clean: bool, rest: bool)
    requires Cleaned(before, between, fs, |fs|, clean) && Cleaned(between, after, gs, k, rest)
    ensures Cleaned(before, after, fs + gs, |fs| + k, clean && rest)
  {
    assert fs[..|fs|] == fs;
    MembersOfSum(fs, gs, k);
  }

  lemma CleanedPrefix(before: set<File>, after: set<File>, fs: seq<File>, gs: seq<File>, done: nat, clean: bool)
    requires Cleaned(before, after, fs, done, clean)
    ensures Cleaned(before, after, fs + gs, done, clean)
  {
    assert (fs + gs)[..done] == fs[..done];
  }

  lemma ThreeMore(
    before: set<File>, between: set<File>, after: set<File>, fs: seq<File>, k: nat, clean: bool, rest: bool)
    requires k + 3 <= |fs| && Cleaned(before, between, fs, k, clean) && Cleaned(between, after, fs[k..k + 3], 3, rest)
    ensures Cleaned(before, after, fs, k + 3, clean && rest)
  {
    assert fs[..k + 3] == fs[..k] + fs[k..k + 3];
    CleanedSum(before, between, after, fs[..k], fs[k..k + 3], 3, clean, rest);
  }

  lemma PrefixIsCleared(p: Part, done: nat)
    requires done <= |Removals(p)|
    ensures Members(Removals(p)[..done]) <= Cleared(p)
    ensures done == |Removals(p)| ==> Members(Removals(p)[..done]) == Cleared(p)
  {}

  // ---------------------------------------------------------------- upgrades

  /** The name of a unit of a service of an active part that depends on this one. */
  ghost predicate IsDependentService(s: State, p: Part, name: string) {
    exists d, service :: IsServiceOf(s, p, d, service) && name == UnitFile(s.meta[d].yaml, service).name
  }

  predicate IsServiceOf(s: State, p: Part, d: Dir, service: Service) {
    && p.yaml.kind == Framework && d in s.meta && p.yaml.name in s.meta[d].yaml.frameworks
    && ActiveIn(s, d.package) == Some(d)
    && service in s.meta[d].yaml.services
  }

  lemma SameDependents(s: State, t: State, p: Part)
    requires s.meta == t.meta && s.current == t.current && s.dirs == t.dirs
    ensures forall n :: IsDependentService(s, p, n) <==> IsDependentService(t, p, n)
  {
    forall n ensures IsDependentService(s, p, n) <==> IsDependentService(t, p, n) {
      if d, service :| IsServiceOf(s, p, d, service) && n == UnitFile(s.meta[d].yaml, service).name {
        assert IsServiceOf(t, p, d, service);
      }
      if d, service :| IsServiceOf(t, p, d, service) && n == UnitFile(t.meta[d].yaml, service).name {
        assert IsServiceOf(s, p, d, service);
      }
    }
  }

  /** One pass over the services of exactly the active dependents. */
  ghost predicate IsPass(s: State, p: Part, c: Cycle) {
    IsSound(c) && forall n :: n in c.names <==> IsDependentService(s, p, n)
  }

  /** Success means that all these services have been stopped and started again around the refresh; a pass with
      any other outcome means failure. */
  ghost predicate LogKeeps(b: State, a: State, p: Part, ok: bool) {
    if ok then
      && |a.log| == |b.log| + 1 && b.log <= a.log
      && a.log[|b.log|].outcome.Restarted? && IsPass(a, p, a.log[|b.log|])
    else
      a.log == b.log || (|a.log| == |b.log| + 1 && b.log <= a.log && !a.log[|b.log|].outcome.Restarted?)
  }

  /** What a switch to the new version, or its undoing, may change and achieves, whatever fails. */
  ghost predicate SwitchKeeps(b: State, a: State, p: Part, oldPart: Option<Part>, ok: bool, compensated: bool) {
    var q, v := QualifiedName(p), p.yaml.version;
    && a.faults >= b.faults
    && LinksFramed(b, a, q, Versions(p, oldPart))
    && FilesFramed(b.files, a.files, Touched(p, oldPart))
    && OtherDataKept(b.data, a.data, p)
    && LogKeeps(b, a, p, ok)
    && (ok ==> ActiveIn(a, q) == Some(DirOf(p)) && DataDir("", q, v) in a.data)
    && (ok && oldPart.Some? ==> DataCopied(b.data, a.data, p, oldPart.value))
    && (!ok && compensated && oldPart.Some? ==> ActiveIn(a, q) == Some(DirOf(oldPart.value)))
    && (!ok && compensated && NoData(b.data, q, v) ==> NoData(a.data, q, v))
  }

  /** The old version could not be deactivated, and is still active. */
  lemma FailedStopKeeps(b: State, a: State, p: Part, oldPart: Part)
    requires DeactivationKeeps(b, a, oldPart) && QualifiedName(oldPart) == QualifiedName(p)
    requires a.current == b.current && ActiveIn(b, QualifiedName(p)) == Some(DirOf(oldPart))
    ensures SwitchKeeps(b, a, p, Some(oldPart), false, true) && StaysBlocked(b, a)
  {
    hide Cleared, Removable;
  }

  /** The old version was deactivated before the rest of the switch. */
  lemma StopKeeps(b: State, m: State, a: State, p: Part, oldPart: Part, ok: bool, compensated: bool)
    requires DeactivationKeeps(b, m, oldPart) && QualifiedName(oldPart) == QualifiedName(p)
    requires SwitchKeeps(m, a, p, Some(oldPart), ok, compensated)
    ensures SwitchKeeps(b, a, p, Some(oldPart), ok, compensated) && a.faults >= m.faults
  {
    hide Cleared, Removable, DataCopied, NoData;
  }

  /** Data of the new version was made before the rest of the switch. */
  ghost predicate OnlyNewData(b: State, m: State, p: Part) {
    && m == b.(data := m.data, faults := m.faults) && m.faults >= b.faults && b.data <= m.data
    && forall d :: d in m.data && d !in b.data ==> d.package == QualifiedName(p) && d.version == p.yaml.version
  }

  lemma CopyFailed(b: State, m: State, a: State, p: Part, oldPart: Option<Part>, compensated: bool)
    requires OnlyNewData(b, m, p) && UndoKeeps(m, a, p, oldPart)
    requires PartIn(b, QualifiedName(p)) in {None, oldPart, Some(p)}
    requires compensated ==> NoData(a.data, QualifiedName(p), p.yaml.version)
    requires compensated && oldPart.Some? ==> ActiveIn(a, QualifiedName(p)) == Some(DirOf(oldPart.value))
    ensures SwitchKeeps(b, a, p, oldPart, false, compensated) && a.faults >= m.faults
  {
    hide Cleared, DataCopied;
  }

  lemma CopyKeeps(b: State, m: State, a: State, p: Part, oldPart: Option<Part>, ok: bool, compensated: bool)
    requires OnlyNewData(b, m, p) && a.faults >= m.faults
    requires LinksFramed(m, a, QualifiedName(p), Versions(p, oldPart))
    requires FilesFramed(m.files, a.files, Touched(p, oldPart)) && OtherDataKept(m.data, a.data, p)
    requires LogKeeps(m, a, p, ok)
    requires ok ==> m.data <= a.data && ActiveIn(a, QualifiedName(p)) == Some(DirOf(p))
    requires ok ==> DataDir("", QualifiedName(p), p.yaml.version) in a.data
    requires ok && oldPart.Some? ==> DataCopied(b.data, m.data, p, oldPart.value)
    requires !ok && compensated ==> NoData(a.data, QualifiedName(p), p.yaml.version)
    requires !ok && compensated && oldPart.Some? ==> ActiveIn(a, QualifiedName(p)) == Some(DirOf(oldPart.value))
    ensures SwitchKeeps(b, a, p, oldPart, ok, compensated)
  {
    hide Cleared, OnlyLinkChanged;
  }

  /** Metadata and directories before the switch do not matter for this. */
  lemma UnpackedKeeps(
    b: State, m: State, a: State, p: Part, oldPart: Option<Part>, ok: bool, compensated: bool, failure: Failure)
    requires m == b.(meta := m.meta, dirs := m.dirs) && SwitchKeeps(m, a, p, oldPart, ok, compensated)
    ensures SwitchKeeps(b, a, p, oldPart, ok, compensated)
    ensures OneFault(m, a, p, oldPart, ok, compensated, failure) ==>
      OneFault(b, a, p, oldPart, ok, compensated, failure)
    ensures StaysBlocked(m, a) ==> StaysBlocked(b, a)
    ensures forall linked: bool :: HasFiles(p, linked, m, a) ==> HasFiles(p, linked, b, a)
  {
    hide OtherDataKept, DataCopied, OnlyLinkChanged, FilesFramed, AfterFailure, Clash, NoData;
  }

  /** Removing the new version's base directory in the end. */
  lemma BasedirKeeps(
    b: State, m: State, a: State, p: Part, oldPart: Option<Part>, compensated: bool, removed: bool, failure: Failure)
    requires SwitchKeeps(b, m, p, oldPart, false, compensated)
    requires a == m.(meta := a.meta, dirs := a.dirs, faults := m.faults + if removed then 0 else 1)
    requires a.dirs == m.dirs - {DirOf(p)} || (!removed && a.dirs == m.dirs)
    requires oldPart.Some? ==> QualifiedName(oldPart.value) == QualifiedName(p) && DirOf(oldPart.value) != DirOf(p)
    ensures SwitchKeeps(b, a, p, oldPart, false, compensated && removed)
    ensures OneFault(b, m, p, oldPart, false, compensated, failure) ==>
      OneFault(b, a, p, oldPart, false, compensated && removed, failure)
    ensures StaysBlocked(b, m) ==> StaysBlocked(b, a)
    ensures OneFault(b, m, p, oldPart, false, compensated, failure) && a.faults == b.faults + 1 ==> removed
  {
    hide OtherDataKept, DataCopied, OnlyLinkChanged, FilesFramed, NoData;
    hide Generated, PolicyTargets, StoppedAt;
  }

  /** The new version's base directory has been made, perhaps under a dangling link. */
  lemma BasedirMade(b: State, m: State, p: Part)
    requires m == b.(dirs := b.dirs + {DirOf(p)})
    ensures var q := QualifiedName(p);
      && (ActiveIn(b, q).Some? ==> ActiveIn(m, q) == ActiveIn(b, q))
      && (ActiveIn(b, q).None? ==> ActiveIn(m, q) in {None, Some(DirOf(p))})
      && (ActiveIn(m, q) == Some(DirOf(p)) <==> LinkOf(b.current, q) == Some(p.yaml.version))
  {}

  /** An install that is undone leaves active what was, though perhaps, for a first one, a dangling link. */
  lemma UndoneIsSame(b: State, a: State, p: Part, oldPart: Option<Part>)
    requires SwitchKeeps(b, a, p, oldPart, false, true) && a.dirs == b.dirs - {DirOf(p)}
    requires ActiveIn(b, QualifiedName(p)) == if oldPart.Some? then Some(DirOf(oldPart.value)) else None
    ensures ActiveIn(a, QualifiedName(p)) == ActiveIn(b, QualifiedName(p))
  {
    hide OtherDataKept, NoData, FilesFramed;
  }

  /** A step before the switch has failed, or the switch was refused. */
  lemma NothingSwitched(b: State, a: State, p: Part, oldPart: Option<Part>)
    requires a == b.(meta := a.meta, faults := a.faults) && a.faults >= b.faults
    requires oldPart.Some? ==> ActiveIn(b, QualifiedName(p)) == Some(DirOf(oldPart.value))
    ensures SwitchKeeps(b, a, p, oldPart, false, true) && StaysBlocked(b, a)
    ensures a.faults > b.faults ==> OneFault(b, a, p, oldPart, false, true, Unpacking)
  {
    hide Cleared, PolicyTargets, Generated;
  }

  /** Nothing in the state stands in the way of the switch. */
  ghost predicate CanSwitch(files: set<File>, p: Part, oldPart: Option<Part>) {
    match oldPart
    case None => Installable(p.yaml, files)
    case Some(o) => Removable(o.yaml, files) && Installable(p.yaml, files - Cleared(o))
  }

  /** A switch that nothing stands in the way of succeeds unless a step fails, and what one failing step does. */
  ghost predicate OneFault(
    b: State, a: State, p: Part, oldPart: Option<Part>, ok: bool, compensated: bool, failure: Failure)
  {
    var q, v := QualifiedName(p), p.yaml.version;
    && (a.faults == b.faults ==> ok)
    && (!ok && a.faults == b.faults + 1 ==>
          && (NoData(b.data, q, v) ==> NoData(a.data, q, v))
          && (compensated <==> !Clash(failure, oldPart))
          && (oldPart.Some? ==> AfterFailure(failure, p, oldPart.value, b.files, a.files, ActiveIn(a, q)))
          && (oldPart.None? && failure == Linking ==> LinkOf(a.current, q) == Some(v)))
  }

  /** Data is never lost by a rollback. */
  lemma RollbackMeans(b: State, a: State, found: Option<Dir>)
    requires RollbackKeeps(b, a, found)
    ensures a.faults >= b.faults && b.data <= a.data
  {}

  lemma SwitchMeans(b: State, a: State, p: Part, oldPart: Option<Part>, ok: bool, compensated: bool)
    requires SwitchKeeps(b, a, p, oldPart, ok, compensated)
    ensures a.faults >= b.faults && (ok ==> ActiveIn(a, QualifiedName(p)) == Some(DirOf(p)))
    ensures forall d :: d in b.data && !(d.package == QualifiedName(p) && d.version == p.yaml.version) ==> d in a.data
  {}

  lemma OneFaultMeans(b: State, a: State, p: Part, oldPart: Option<Part>)
    ensures forall ok, compensated, failure ::
      OneFault(b, a, p, oldPart, ok, compensated, failure) && a.faults == b.faults ==> ok
  {}

  /** How far the switch to the new version has come when it fails: the old version could not be deactivated, and
      so many removals had been done; it was deactivated, but its link could not be removed; data could not be
      copied; files were being generated, and these policy targets of the new version are left over; the new
      version's link was in place. */
  datatype Failure = Unpacking | Stopping(done: nat) | Stuck | Copying | Generating(left: set<File>) | Linking

  /** A policy target that is left over is one of the old version's as well. */
  ghost predicate Clash(failure: Failure, oldPart: Option<Part>) {
    failure.Generating? && oldPart.Some? && !(failure.left !! PolicyTargets(oldPart.value.yaml))
  }

  /** What one activation of a part does where nothing was active. */
  ghost predicate FreshlyActivated(before: set<File>, after: set<File>, active: Option<Dir>, p: Part, ok: bool) {
    && before <= after <= before + Generated(p)
    && (active == None || active == Some(DirOf(p)))
    && (active == Some(DirOf(p)) ==> after == before + Generated(p) && Installable(p.yaml, before))
    && (ok ==> active == Some(DirOf(p)))
  }

  /** A part that has become active has its files, its data directory and its data link. */
  ghost predicate IsComplete(s: State, p: Part) {
    && Generated(p) <= s.files && IsEquipped(p, s.files)
    && LinkOf(s.dataCurrent, QualifiedName(p)) == Some(p.yaml.version)
    && DataDir("", QualifiedName(p), p.yaml.version) in s.data
  }

  lemma MakesComplete(s: State, p: Part)
    requires Generated(p) <= s.files && LinkOf(s.dataCurrent, QualifiedName(p)) == Some(p.yaml.version)
    requires DataDir("", QualifiedName(p), p.yaml.version) in s.data
    ensures IsComplete(s, p)
  {
    GeneratedEquips(p, s.files);
    hide IsEquipped;
  }

  /** What becoming active has done.  If the part's link was there before, even dangling until its directory was
      created, then nothing has been generated. */
  ghost predicate HasFiles(p: Part, wasLinked: bool, b: State, a: State) {
    if wasLinked then a.files == b.files && a.dataCurrent == b.dataCurrent else IsComplete(a, p)
  }

  /** The part is active again; unless it was so all the time, everything has been made anew. */
  ghost predicate IsRestored(p: Part, wasActive: bool, b: State, a: State) {
    ActiveIn(a, QualifiedName(p)) == Some(DirOf(p)) && HasFiles(p, wasActive, b, a)
  }

  /** What the deferred calls may change, whatever fails. */
  ghost predicate UndoKeeps(b: State, a: State, p: Part, oldPart: Option<Part>) {
    var q := QualifiedName(p);
    && a.dirs == b.dirs && a.meta == b.meta && a.faults >= b.faults && a.log == b.log
    && LinksFramed(b, a, q, OldVersion(oldPart))
    && OtherDataKept(b.data, a.data, p)
    && if oldPart.Some? then FilesFramed(b.files, a.files, Touched(oldPart.value, PartIn(b, q)))
       else a.files == b.files && a.current == b.current
  }

  /** What a deferred activation of the old version does if no step of it fails. */
  ghost predicate UndoResult(b: State, a: State, oldPart: Part, soFar: bool, compensated: bool) {
    var q := QualifiedName(oldPart);
    && (compensated <==> soFar && CanActivate(b, oldPart))
    && (CanActivate(b, oldPart) ==>
          IsRestored(oldPart, ActiveIn(b, q) == Some(DirOf(oldPart)), b, a))
    && (ActiveIn(b, q) == None ==> b.files <= a.files)
    && (ActiveIn(b, q) == None && !CanActivate(b, oldPart) ==> ActiveIn(a, q) == None)
  }

  /** Exactly the first `done` paths have been cleared, and a deactivation can end there. */
  ghost predicate StoppedAt(p: Part, done: nat, before: set<File>, after: set<File>) {
    CanStopAt(p, done) && after == before - Members(Removals(p)[..done])
  }

  /** The old version after an upgrade that failed in one step.  It is active again, unless there is a clash.
      Its generated files are all there, unless its own deactivation went wrong. */
  ghost predicate AfterFailure(
    failure: Failure, p: Part, oldPart: Part, before: set<File>, after: set<File>, active: Option<Dir>)
  {
    && (if Clash(failure, Some(oldPart)) then active == None else active == Some(DirOf(oldPart)))
    && match failure
       case Unpacking => after == before
       case Stopping(done) => StoppedAt(oldPart, done, before, after)
       case Stuck => PolicyTargets(oldPart.yaml) != {} && PolicyTargets(oldPart.yaml) !! after
       case Copying => Generated(oldPart) <= after
       case Generating(left) =>
         && left <= PolicyTargets(p.yaml) && left <= after
         && (!Clash(failure, Some(oldPart)) ==> Generated(oldPart) <= after)
       case Linking => Generated(oldPart) <= after
  }

  /** What one failing step after the old version's deactivation does. */
  ghost predicate LateFailure(b: State, a: State, p: Part, oldPart: Option<Part>, compensated: bool, failure: Failure) {
    var q := QualifiedName(p);
    && !failure.Unpacking? && !failure.Stopping?
    && (compensated <==> !Clash(failure, oldPart))
    && (oldPart.Some? ==> AfterFailure(failure, p, oldPart.value, b.files, a.files, ActiveIn(a, q)))
    && (oldPart.None? && failure == Linking ==> LinkOf(a.current, q) == Some(p.yaml.version))
  }

  // ---------------------------------------------------------------- parts that nothing can repair

  /** The part is active, and one of its policy files is gone. */
  ghost predicate IsWedged(s: State, d: Dir, t: File) {
    && d in s.meta && DirOf(s.meta[d]) == d && ActiveIn(s, d.package) == Some(d)
    && t in PolicyTargets(s.meta[d].yaml) && t !in s.files
  }

  /** No installed part of another package has a policy file of this name. */
  ghost predicate OwnedBy(s: State, t: File, package: string) {
    forall e :: e in s.meta && t in PolicyTargets(s.meta[e].yaml) ==> QualifiedName(s.meta[e]) == package
  }

  /** Only the paths of the parts themselves matter, and among them only policies. */
  lemma NotTouched(p: Part, oldPart: Option<Part>, t: File)
    requires t.directory.PolicyArea? && t !in PolicyTargets(p.yaml)
    requires oldPart.Some? ==> t !in PolicyTargets(oldPart.value.yaml)
    ensures t !in Touched(p, oldPart)
  {
    PoliciesApart(p);
    if oldPart.Some? { PoliciesApart(oldPart.value); }
  }

  lemma TargetArea(y: Yaml, t: File)
    requires t in PolicyTargets(y)
    ensures t.directory.PolicyArea?
  {}

  lemma WedgedIsNotRemovable(s: State, d: Dir, t: File)
    requires IsWedged(s, d, t)
    ensures !Removable(s.meta[d].yaml, s.files) && PartIn(s, d.package) == Some(s.meta[d])
  {}

  /** Neither the link nor the directory of the part has changed, and the file has not come back. */
  lemma StillWedged(b: State, a: State, d: Dir, t: File)
    requires IsWedged(b, d, t) && LinkOf(a.current, d.package) == LinkOf(b.current, d.package)
    requires d in a.dirs && d in a.meta && a.meta[d] == b.meta[d] && t !in a.files
    ensures IsWedged(a, d, t)
  {
    hide PolicyTargets;
  }

  /** In a package of its own: neither its link nor the file is touched. */
  lemma OtherPackageKeepsWedge(b: State, a: State, p: Part, versions: set<string>, d: Dir, t: File)
    requires IsWedged(b, d, t) && OwnedBy(b, t, d.package) && QualifiedName(p) != d.package
    requires t !in PolicyTargets(p.yaml) && LinksFramed(b, a, QualifiedName(p), versions)
    requires FilesFramed(b.files, a.files, Touched(p, PartIn(b, QualifiedName(p))))
    requires d in a.dirs && d in a.meta && a.meta[d] == b.meta[d]
    requires forall e :: e in b.meta ==> DirOf(b.meta[e]) == e
    ensures IsWedged(a, d, t)
  {
    hide PolicyTargets, Cleared;
    TargetArea(b.meta[d].yaml, t);
    NotTouched(p, PartIn(b, QualifiedName(p)), t);
    StillWedged(b, a, d, t);
  }

  lemma ActivationKeepsWedge(b: State, a: State, p: Part, d: Dir, t: File)
    requires ActivationKeeps(b, a, p) && IsWedged(b, d, t) && OwnedBy(b, t, d.package)
    requires DirOf(p) in b.meta && b.meta[DirOf(p)] == p
    requires forall e :: e in b.meta ==> DirOf(b.meta[e]) == e
    ensures IsWedged(a, d, t) && OwnedBy(a, t, d.package)
  {
    hide Cleared, PolicyTargets, Removable, FilesFramed, Touched;
    WedgedIsNotRemovable(b, d, t);
    if QualifiedName(p) != d.package {
      OtherPackageKeepsWedge(b, a, p, {p.yaml.version}, d, t);
    } else {
      StillWedged(b, a, d, t);
    }
  }

  lemma DeactivationKeepsWedge(b: State, a: State, p: Part, d: Dir, t: File)
    requires DeactivationKeeps(b, a, p) && IsWedged(b, d, t)
    requires DirOf(p) in b.meta && b.meta[DirOf(p)] == p
    ensures IsWedged(a, d, t) && (OwnedBy(b, t, d.package) ==> OwnedBy(a, t, d.package))
  {
    WedgedIsNotRemovable(b, d, t);
    hide Cleared, PolicyTargets, Removable;
    StillWedged(b, a, d, t);
  }

  lemma RemovalKeepsWedge(b: State, a: State, p: Part, d: Dir, t: File)
    requires RemovalKeeps(b, a, p) && IsWedged(b, d, t)
    requires DirOf(p) in b.meta && b.meta[DirOf(p)] == p
    ensures IsWedged(a, d, t) && (OwnedBy(b, t, d.package) ==> OwnedBy(a, t, d.package))
  {
    WedgedIsNotRemovable(b, d, t);
    hide Cleared, PolicyTargets, Removable;
    StillWedged(b, a, d, t);
  }

  lemma CollectionKeepsWedge(b: State, a: State, gone: seq<Dir>, d: Dir, t: File)
    requires CollectionKeeps(b, a, gone) && IsWedged(b, d, t)
    ensures IsWedged(a, d, t) && (OwnedBy(b, t, d.package) ==> OwnedBy(a, t, d.package))
  {
    hide PolicyTargets;
    StillWedged(b, a, d, t);
  }

  lemma InstallKeepsWedge(b: State, a: State, p: Part, ok: bool, compensated: bool, d: Dir, t: File)
    requires SwitchKeeps(b, a, p, PartIn(b, QualifiedName(p)), ok, compensated)
    requires IsBlocked(b, p) ==> StaysBlocked(b, a)
    requires if DirOf(p) in b.meta then a == b else a.meta == b.meta || a.meta == b.meta[DirOf(p) := p]
    requires forall e :: e in a.meta ==> e in a.dirs
    requires IsWedged(b, d, t) && OwnedBy(b, t, d.package)
    requires t in PolicyTargets(p.yaml) ==> QualifiedName(p) == d.package
    requires forall e :: e in b.meta ==> DirOf(b.meta[e]) == e
    ensures IsWedged(a, d, t) && OwnedBy(a, t, d.package)
  {
    hide Cleared, PolicyTargets, Removable, FilesFramed, Touched, OtherDataKept, DataCopied, NoData;
    WedgedIsNotRemovable(b, d, t);
    if QualifiedName(p) != d.package {
      OtherPackageKeepsWedge(b, a, p, Versions(p, PartIn(b, QualifiedName(p))), d, t);
    } else if DirOf(p) !in b.meta {
      StillWedged(b, a, d, t);
    }
  }

  // ---------------------------------------------------------------- what one failing step costs

  /** An old version that is active again has all its generated files, if it had them before, if and only if its
      own deactivation neither failed after the first removal nor left the link behind. */
  lemma FilesAreBackExactlyWhen(
    failure: Failure, p: Part, oldPart: Part, before: set<File>, after: set<File>, active: Option<Dir>)
    requires AfterFailure(failure, p, oldPart, before, after, active) && active == Some(DirOf(oldPart))
    requires Generated(oldPart) <= before
    ensures Generated(oldPart) <= after <==> failure != Stuck && (failure.Stopping? ==> failure.done == 0)
  {
    PoliciesApart(oldPart);
    match failure
    case Stuck =>
      var f :| f in PolicyTargets(oldPart.yaml);
      assert f in Generated(oldPart) && f !in after;
    case Stopping(done) =>
      if done > 0 {
        FirstRemovalIsGenerated(oldPart);
        assert Removals(oldPart)[0] in Removals(oldPart)[..done];
      }
    case _ =>
  }

  /** A caller can tell beforehand: a version with binaries loses all its wrappers wherever its deactivation
      fails, and a version without paths loses nothing. */
  lemma BinariesAreLost(p: Part, done: nat, before: set<File>, after: set<File>)
    requires StoppedAt(p, done, before, after)
    ensures Members(Wrappers(p.yaml)) !! after
    ensures p.yaml.binaries != [] ==> !(Generated(p) <= after)
    ensures Removals(p) == [] ==> after == before
  {
    var w := Wrappers(p.yaml);
    forall f | f in w ensures f in Removals(p)[..done] {
      var i :| 0 <= i < |w| && w[i] == f;
      assert Removals(p)[..done][i] == f;
    }
    if w != [] { assert w[0] in Generated(p); }
  }

  /** The old version is active but can never be deactivated again if and only if its policies were touched. */
  lemma BlockedExactlyWhen(
    failure: Failure, p: Part, oldPart: Part, before: set<File>, after: set<File>, active: Option<Dir>)
    requires AfterFailure(failure, p, oldPart, before, after, active) && active == Some(DirOf(oldPart))
    requires Removable(oldPart.yaml, before)
    ensures !Removable(oldPart.yaml, after)
       <==> failure == Stuck || (failure.Stopping? && failure.done > |FirstRemovals(oldPart)|)
  {
    PoliciesApart(oldPart);
    match failure
    case Stopping(done) =>
      var n := |FirstRemovals(oldPart)|;
      if done > n {
        var t := Policies(oldPart.yaml)[0];
        assert Removals(oldPart)[..done][n] == t;
        assert t in PolicyTargets(oldPart.yaml) && t !in after;
      } else {
        assert Removals(oldPart)[..done] == FirstRemovals(oldPart)[..done];
      }
    case _ =>
  }

  /** In terms of the whole state: the upgrade has left a part that nothing can repair. */
  lemma WedgedExactlyWhen(a: State, failure: Failure, p: Part, oldPart: Part, before: set<File>)
    requires AfterFailure(failure, p, oldPart, before, a.files, ActiveIn(a, QualifiedName(oldPart)))
    requires ActiveIn(a, QualifiedName(oldPart)) == Some(DirOf(oldPart)) && Removable(oldPart.yaml, before)
    requires DirOf(oldPart) in a.meta && a.meta[DirOf(oldPart)] == oldPart
    ensures (exists t :: IsWedged(a, DirOf(oldPart), t))
       <==> failure == Stuck || (failure.Stopping? && failure.done > |FirstRemovals(oldPart)|)
  {
    BlockedExactlyWhen(failure, p, oldPart, before, a.files, ActiveIn(a, QualifiedName(oldPart)));
    if !(PolicyTargets(oldPart.yaml) <= a.files) {
      var t :| t in PolicyTargets(oldPart.yaml) && t !in a.files;
      assert IsWedged(a, DirOf(oldPart), t);
    }
  }

  /** Without an underscore in any name, a policy file belongs to one package only. */
  lemma NamesWithoutUnderscore(s: State, d: Dir, t: File)
    requires d in s.meta && DirOf(s.meta[d]) == d && t in PolicyTargets(s.meta[d].yaml)
    requires forall e :: e in s.meta ==> '_' !in s.meta[e].yaml.name
    ensures OwnedBy(s, t, d.package)
  {
    forall e | e in s.meta && t in PolicyTargets(s.meta[e].yaml) ensures QualifiedName(s.meta[e]) == d.package {
      TargetTellsName(s.meta[d].yaml, s.meta[e].yaml, t);
    }
  }

  /** An app with one binary, and one with a service only. */
  function AppWithBinary(): Part { Part(Yaml("hello", "1", App, [], ["run"], [], []), "org") }

  function AppWithService(): Part { Part(Yaml("hello", "1", App, [], [], [Service("d", false, "")], []), "org") }

  /** Wherever the deactivation of the first fails it loses a file; that of the second may lose none. */
  lemma LostFilesExample()
    ensures var p := AppWithBinary();
      forall done, after :: StoppedAt(p, done, Generated(p), after) ==> !(Generated(p) <= after)
    ensures var p := AppWithService();
      StoppedAt(p, 0, Generated(p), Generated(p)) && Generated(p) != {}
  {
    var p, s := AppWithBinary(), AppWithService();
    forall done, after | StoppedAt(p, done, Generated(p), after) ensures !(Generated(p) <= after) {
      BinariesAreLost(p, done, Generated(p), after);
    }
    RemovalsLength(s);
    assert ServiceWrites(s.yaml, s.yaml.services)[0] in Generated(s);
    assert Members(Removals(s)[..0]) == {};
  }

  /** A framework whose click hooks cannot be removed stays active without its policies. */
  lemma BlockedExample()
    ensures var p := ClashingFramework("1");
      StoppedAt(p, 1, Generated(p), {}) && Removable(p.yaml, Generated(p)) && !Removable(p.yaml, {})
  {
    var p := ClashingFramework("1");
    RemovalsLength(p);
    var t := Policies(p.yaml)[0];
    assert Removals(p) == [t] && Removals(p)[..1] == [t] && Generated(p) == {t};
    assert PolicyList(p.yaml)[0].regular && t in PolicyTargets(p.yaml);
  }
}
