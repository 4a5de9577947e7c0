/** Installed snaps and the files that are generated for them: snappy/parts.go, snappy/click.go,
    snappy/security.go and policy/policy.go. */
module Snaps {
  import opened Lists

  datatype Kind = App | Framework | Oem

  datatype Service = Service(name: string, socket: bool, busName: string)

  /** A file that a framework ships below meta/framework-policy. */
  datatype PolicyFile = PolicyFile(area: string, name: string, regular: bool)

  /** The part of package.yaml that matters here.  Names of binaries are base names. */
  datatype Yaml = Yaml(
    name: string, version: string, kind: Kind,
    frameworks: seq<string>, binaries: seq<string>, services: seq<Service>, policies: seq<PolicyFile>)

  datatype Part = Part(yaml: Yaml, origin: string)

  function QualifiedName(p: Part): string {
    if p.yaml.kind == App then p.yaml.name + "." + p.origin else p.yaml.name
  }

  /** The base directory of one version of a package. */
  datatype Dir = Dir(package: string, version: string)

  function DirOf(p: Part): Dir { Dir(QualifiedName(p), p.yaml.version) }

  /** A data directory of one version of a package; the system's has the empty home. */
  datatype DataDir = DataDir(home: string, package: string, version: string)

  // ---------------------------------------------------------------- generated files

  /** Where generated files are kept; framework policies go to one directory per area. */
  datatype Directory = Binaries | Units | BusPolicies | SeccompProfiles | PolicyArea(area: string)

  datatype File = File(directory: Directory, name: string)

  function WrapperFile(y: Yaml, binary: string): File {
    File(Binaries, if y.kind == Framework then binary else y.name + "." + binary)
  }

  function Stem(y: Yaml, s: Service): string { y.name + "_" + s.name + "_" + y.version }

  function UnitFile(y: Yaml, s: Service): File { File(Units, Stem(y, s) + ".service") }

  function SocketFile(y: Yaml, s: Service): File { File(Units, Stem(y, s) + ".socket") }

  function BusPolicyFile(y: Yaml, s: Service): File { File(BusPolicies, Stem(y, s) + ".conf") }

  function ProfileFile(p: Part, app: string): File {
    File(SeccompProfiles, QualifiedName(p) + "_" + app + "_" + p.yaml.version)
  }

  function PolicyTarget(y: Yaml, f: PolicyFile): File { File(PolicyArea(f.area), y.name + "_" + f.name) }

  function Wrappers(y: Yaml): seq<File> {
    seq(|y.binaries|, i requires 0 <= i < |y.binaries| => WrapperFile(y, y.binaries[i]))
  }

  /** Everything that gets a security profile: services first, then binaries. */
  function Apps(y: Yaml): seq<string> {
    seq(|y.services|, i requires 0 <= i < |y.services| => y.services[i].name) + y.binaries
  }

  function Profiles(p: Part): seq<File> {
    seq(|Apps(p.yaml)|, i requires 0 <= i < |Apps(p.yaml)| => ProfileFile(p, Apps(p.yaml)[i]))
  }

  function PolicyList(y: Yaml): seq<PolicyFile> { if y.kind == Framework then y.policies else [] }

  function Policies(y: Yaml): seq<File> {
    seq(|PolicyList(y)|, i requires 0 <= i < |PolicyList(y)| => PolicyTarget(y, PolicyList(y)[i]))
  }

  /** What `addPackageServices` writes for its services ... */
  function ServiceWrites(y: Yaml, ss: seq<Service>): seq<File> {
    if ss == [] then []
    else
      [UnitFile(y, ss[0])] +
      (if ss[0].socket then [SocketFile(y, ss[0])] else []) +
      (if y.kind == Framework && ss[0].busName != "" then [BusPolicyFile(y, ss[0])] else []) +
      ServiceWrites(y, ss[1..])
  }

  /** ... and what `removePackageServices` removes. */
  function ServiceRemoves(y: Yaml, ss: seq<Service>): seq<File> {
    if ss == [] then []
    else [UnitFile(y, ss[0]), SocketFile(y, ss[0]), BusPolicyFile(y, ss[0])] + ServiceRemoves(y, ss[1..])
  }

  function PolicyTargets(y: Yaml): set<File> { Members(Policies(y)) }

  /** All files that activating a snap creates. */
  function Generated(p: Part): set<File> {
    PolicyTargets(p.yaml) + Members(Profiles(p)) + Members(Wrappers(p.yaml)) +
    Members(ServiceWrites(p.yaml, p.yaml.services))
  }

  /** The file is one that activation writes for the service. */
  predicate IsServiceFile(y: Yaml, s: Service, f: File) {
    || f == UnitFile(y, s)
    || (s.socket && f == SocketFile(y, s))
    || (y.kind == Framework && s.busName != "" && f == BusPolicyFile(y, s))
  }

  lemma {:induction false} ServiceWritesAre(y: Yaml, ss: seq<Service>)
    ensures forall f :: f in ServiceWrites(y, ss) <==> exists s :: s in ss && IsServiceFile(y, s, f)
  {
    if ss != [] {
      var rest := ServiceWrites(y, ss[1..]);
      ServiceWritesAre(y, ss[1..]);
      forall f ensures f in ServiceWrites(y, ss) <==> exists s :: s in ss && IsServiceFile(y, s, f) {
        assert f in ServiceWrites(y, ss) <==> IsServiceFile(y, ss[0], f) || f in rest;
        if s :| s in ss && IsServiceFile(y, s, f) { assert s == ss[0] || s in ss[1..]; }
        if IsServiceFile(y, ss[0], f) { assert ss[0] in ss; }
      }
    }
  }

  /** Why a file is generated for a part: as a wrapper of a binary, a file of a service, the profile of a service
      or a binary, or, for a framework, the copy of a policy file. */
  ghost predicate IsDue(p: Part, f: File) {
    || (exists b :: b in p.yaml.binaries && f == WrapperFile(p.yaml, b))
    || (exists s :: s in p.yaml.services && IsServiceFile(p.yaml, s, f))
    || (exists s :: s in p.yaml.services && f == ProfileFile(p, s.name))
    || (exists b :: b in p.yaml.binaries && f == ProfileFile(p, b))
    || (p.yaml.kind == Framework && exists g :: g in p.yaml.policies && f == PolicyTarget(p.yaml, g))
  }

  lemma WrappersAre(y: Yaml)
    ensures forall f :: f in Wrappers(y) <==> exists b :: b in y.binaries && f == WrapperFile(y, b)
  {
    forall b | b in y.binaries ensures WrapperFile(y, b) in Wrappers(y) {
      var i :| 0 <= i < |y.binaries| && y.binaries[i] == b;
      assert Wrappers(y)[i] == WrapperFile(y, b);
    }
  }

  lemma PoliciesAre(y: Yaml)
    ensures forall f :: f in Policies(y) <==>
      y.kind == Framework && exists g :: g in y.policies && f == PolicyTarget(y, g)
  {
    forall g | y.kind == Framework && g in y.policies ensures PolicyTarget(y, g) in Policies(y) {
      var i :| 0 <= i < |y.policies| && y.policies[i] == g;
      assert Policies(y)[i] == PolicyTarget(y, g);
    }
  }

  lemma AppsAre(y: Yaml)
    ensures forall a :: a in Apps(y) <==> a in y.binaries || exists s :: s in y.services && a == s.name
  {
    var names := seq(|y.services|, i requires 0 <= i < |y.services| => y.services[i].name);
    forall s | s in y.services ensures s.name in names {
      var i :| 0 <= i < |y.services| && y.services[i] == s;
      assert names[i] == s.name;
    }
    assert Apps(y) == names + y.binaries;
  }

  lemma ProfilesAre(p: Part)
    ensures forall f :: f in Profiles(p) <==> exists a :: a in Apps(p.yaml) && f == ProfileFile(p, a)
  {
    forall a | a in Apps(p.yaml) ensures ProfileFile(p, a) in Profiles(p) {
      var i :| 0 <= i < |Apps(p.yaml)| && Apps(p.yaml)[i] == a;
      assert Profiles(p)[i] == ProfileFile(p, a);
    }
  }

  /** Exactly the files that are due are generated. */
  lemma GeneratedAreDue(p: Part)
    ensures forall f :: f in Generated(p) <==> IsDue(p, f)
  {
    ServiceWritesAre(p.yaml, p.yaml.services);
    WrappersAre(p.yaml);
    PoliciesAre(p.yaml);
    AppsAre(p.yaml);
    ProfilesAre(p);
    hide Wrappers, Policies, Apps, Profiles, ServiceWrites;
    forall f ensures f in Generated(p) <==> IsDue(p, f) {
      if s :| s in p.yaml.services && f == ProfileFile(p, s.name) { assert s.name in Apps(p.yaml); }
    }
  }

  /** Nothing that is due for the part is missing. */
  ghost predicate IsEquipped(p: Part, files: set<File>) {
    && (forall b :: b in p.yaml.binaries ==> WrapperFile(p.yaml, b) in files && ProfileFile(p, b) in files)
    && (forall s :: s in p.yaml.services ==> UnitFile(p.yaml, s) in files && ProfileFile(p, s.name) in files)
    && (forall s :: s in p.yaml.services && s.socket ==> SocketFile(p.yaml, s) in files)
    && (p.yaml.kind == Framework ==>
          && (forall s :: s in p.yaml.services && s.busName != "" ==> BusPolicyFile(p.yaml, s) in files)
          && (forall g :: g in p.yaml.policies ==> PolicyTarget(p.yaml, g) in files))
  }

  lemma GeneratedEquips(p: Part, files: set<File>)
    requires Generated(p) <= files
    ensures IsEquipped(p, files)
  {
    GeneratedAreDue(p);
    hide Generated;
    forall s | s in p.yaml.services
      ensures IsDue(p, UnitFile(p.yaml, s)) && IsDue(p, ProfileFile(p, s.name))
      ensures s.socket ==> IsDue(p, SocketFile(p.yaml, s))
      ensures p.yaml.kind == Framework && s.busName != "" ==> IsDue(p, BusPolicyFile(p.yaml, s))
    {
      assert IsServiceFile(p.yaml, s, UnitFile(p.yaml, s));
      assert s.socket ==> IsServiceFile(p.yaml, s, SocketFile(p.yaml, s));
      assert p.yaml.kind == Framework && s.busName != "" ==> IsServiceFile(p.yaml, s, BusPolicyFile(p.yaml, s));
    }
    forall b | b in p.yaml.binaries ensures IsDue(p, WrapperFile(p.yaml, b)) && IsDue(p, ProfileFile(p, b)) {}
    forall g | p.yaml.kind == Framework && g in p.yaml.policies ensures IsDue(p, PolicyTarget(p.yaml, g)) {}
  }

  /** The names of all these files at two parts. */
  lemma FileNamesExample()
    ensures var y := Yaml("hello", "2", App, [], ["run"], [Service("d", true, "")], []);
      var p, s := Part(y, "org"), y.services[0];
      && QualifiedName(p) == "hello.org" && DirOf(p) == Dir("hello.org", "2")
      && WrapperFile(y, "run") == File(Binaries, "hello.run")
      && UnitFile(y, s) == File(Units, "hello_d_2.service") && SocketFile(y, s) == File(Units, "hello_d_2.socket")
      && ProfileFile(p, "run") == File(SeccompProfiles, "hello.org_run_2")
    ensures var y := Yaml("fw", "1", Framework, [], ["run"], [Service("d", false, "org.fw")], []);
      var p, s := Part(y, "org"), y.services[0];
      && QualifiedName(p) == "fw" && QualifiedName(p.(yaml := y.(kind := Oem))) == "fw"
      && WrapperFile(y, "run") == File(Binaries, "run")
      && BusPolicyFile(y, s) == File(BusPolicies, "fw_d_1.conf")
      && PolicyTarget(y, PolicyFile("seccomp/templates", "t", true)) == File(PolicyArea("seccomp/templates"), "fw_t")
  {
    assert "hello" + "." + "org" == "hello.org" && "hello" + "." + "run" == "hello.run";
    assert "hello" + "_" + "d" + "_" + "2" == "hello_d_2";
    assert "hello_d_2" + ".service" == "hello_d_2.service" && "hello_d_2" + ".socket" == "hello_d_2.socket";
    assert "hello.org" + "_" + "run" + "_" + "2" == "hello.org_run_2";
    assert "fw" + "_" + "d" + "_" + "1" == "fw_d_1" && "fw_d_1" + ".conf" == "fw_d_1.conf";
    assert "fw" + "_" + "t" == "fw_t";
  }

  /** The paths that deactivating it clears, apart from the policies, in order ... */
  function FirstRemovals(p: Part): seq<File> {
    Wrappers(p.yaml) + ServiceRemoves(p.yaml, p.yaml.services) + Profiles(p)
  }

  /** ... and all of them. */
  function Removals(p: Part): seq<File> { FirstRemovals(p) + Policies(p.yaml) }

  function Cleared(p: Part): set<File> { Members(Removals(p)) }

  /** The numbers of removals after which one failing step can end a deactivation: all wrappers have been tried,
      the three files of a service go together, profiles and policies go one by one. */
  predicate CanStopAt(p: Part, done: nat) {
    var w, n := |p.yaml.binaries|, 3 * |p.yaml.services|;
    && w <= done <= |Removals(p)|
    && (done < w + n ==> (done - w) % 3 == 0)
  }

  lemma {:induction false} RemovesOfService(y: Yaml, ss: seq<Service>, k: nat)
    requires k < |ss|
    ensures |ServiceRemoves(y, ss)| == 3 * |ss|
    ensures ServiceRemoves(y, ss)[3 * k..3 * k + 3]
         == [UnitFile(y, ss[k]), SocketFile(y, ss[k]), BusPolicyFile(y, ss[k])]
  {
    var rest := ServiceRemoves(y, ss[1..]);
    if |ss| > 1 { RemovesOfService(y, ss[1..], if k == 0 then 0 else k - 1); }
    if k > 0 { assert ServiceRemoves(y, ss)[3 * k..3 * k + 3] == rest[3 * (k - 1)..3 * (k - 1) + 3]; }
  }

  lemma {:induction false} ThreeRemovesEach(y: Yaml, ss: seq<Service>)
    ensures |ServiceRemoves(y, ss)| == 3 * |ss|
  {
    if ss != [] { ThreeRemovesEach(y, ss[1..]); }
  }

  lemma RemovalsLength(p: Part)
    ensures |FirstRemovals(p)| == |p.yaml.binaries| + 3 * |p.yaml.services| + |Profiles(p)|
    ensures |Removals(p)| == |FirstRemovals(p)| + |Policies(p.yaml)|
  {
    ThreeRemovesEach(p.yaml, p.yaml.services);
  }

  /** The first path that is cleared, if there is any, is that of a generated file. */
  lemma FirstRemovalIsGenerated(p: Part)
    requires Removals(p) != []
    ensures Removals(p)[0] in Generated(p)
  {
    RemovalsLength(p);
    var y := p.yaml;
    if y.binaries != [] {
      assert Removals(p)[0] == Wrappers(y)[0];
    } else if y.services != [] {
      assert Removals(p)[0] == ServiceRemoves(y, y.services)[0] == UnitFile(y, y.services[0]);
      assert ServiceWrites(y, y.services)[0] == UnitFile(y, y.services[0]);
    } else {
      assert Removals(p)[0] == Policies(y)[0];
    }
  }

  // ---------------------------------------------------------------- framework policies

  ghost predicate PolicyIsRegular(y: Yaml) {
    (forall f :: f in PolicyList(y) ==> f.regular) && Distinct(Policies(y))
  }

  /** Copying the policy files works: the copy refuses a target that exists. */
  ghost predicate Installable(y: Yaml, files: set<File>) { PolicyIsRegular(y) && PolicyTargets(y) !! files }

  /** Removing them works: a target that is missing is an error. */
  ghost predicate Removable(y: Yaml, files: set<File>) { PolicyIsRegular(y) && PolicyTargets(y) <= files }

  lemma {:induction false} ServicesApart(y: Yaml, ss: seq<Service>)
    ensures forall f :: f in ServiceRemoves(y, ss) ==> !f.directory.PolicyArea?
  {
    if ss != [] { ServicesApart(y, ss[1..]); }
  }

  /** Policies have directories of their own. */
  lemma PoliciesApart(p: Part)
    ensures forall f :: f in FirstRemovals(p) ==> !f.directory.PolicyArea?
    ensures forall f :: f in PolicyTargets(p.yaml) ==> f.directory.PolicyArea?
    ensures Cleared(p) == Members(FirstRemovals(p)) + PolicyTargets(p.yaml)
    ensures Generated(p) <= Cleared(p) && PolicyTargets(p.yaml) <= Generated(p)
  {
    ServicesApart(p.yaml, p.yaml.services);
    WritesAreRemoved(p.yaml, p.yaml.services);
  }

  /** Without an underscore in the names, a policy target tells which framework it belongs to ... */
  lemma TargetTellsName(y: Yaml, z: Yaml, t: File)
    requires '_' !in y.name && '_' !in z.name && t in PolicyTargets(y) && t in PolicyTargets(z)
    ensures y.name == z.name
  {
    var i :| 0 <= i < |Policies(y)| && Policies(y)[i] == t;
    var j :| 0 <= j < |Policies(z)| && Policies(z)[j] == t;
    var f, g := PolicyList(y)[i].name, PolicyList(z)[j].name;
    assert t.name == y.name + "_" + f == z.name + "_" + g;
    assert t.name[|y.name|] == '_' && t.name[|z.name|] == '_';
    assert forall k :: 0 <= k < |y.name| ==> t.name[k] == y.name[k];
    assert forall k :: 0 <= k < |z.name| ==> t.name[k] == z.name[k];
    assert |y.name| == |z.name|;
    assert y.name == t.name[..|y.name|] == z.name;
  }

  /** ... and with one it does not. */
  lemma SharedTargetExample()
    ensures PolicyTarget(ClashingFramework("1").yaml.(name := "a"), PolicyFile("apparmor/templates", "b_c", true))
         == PolicyTarget(ClashingFramework("1").yaml.(name := "a_b"), PolicyFile("apparmor/templates", "c", true))
  {
    assert "a" + "_" + "b_c" == "a_b_c" == "a_b" + "_" + "c";
  }

  /** After the old version's deactivation, whatever else it has left, the new version's policies can be copied
      if they could be copied with all files of the old version gone. */
  lemma StillInstallable(before: set<File>, after: set<File>, oldPart: Part, p: Part)
    requires Installable(p.yaml, before - Cleared(oldPart)) && after <= before && PolicyTargets(oldPart.yaml) !! after
    ensures Installable(p.yaml, after)
  {
    PoliciesApart(oldPart);
    PoliciesApart(p);
  }

  /** The new version's files are partly there: only its policy targets can stand in the way of the old ones. */
  lemma OnlyPoliciesBlock(before: set<File>, after: set<File>, oldPart: Part, p: Part)
    requires PolicyIsRegular(oldPart.yaml) && PolicyTargets(oldPart.yaml) !! before
    requires before <= after <= before + Generated(p)
    ensures Installable(oldPart.yaml, after) <==> after * PolicyTargets(p.yaml) !! PolicyTargets(oldPart.yaml)
  {
    PoliciesApart(oldPart);
    PoliciesApart(p);
    forall f | f in after && f in PolicyTargets(oldPart.yaml) ensures f in PolicyTargets(p.yaml) {
      assert f in Generated(p) && f in Cleared(p);
    }
  }

  /** They are all there: removing them makes room. */
  lemma RemovalMakesRoom(before: set<File>, oldPart: Part, p: Part)
    requires PolicyIsRegular(oldPart.yaml) && PolicyTargets(oldPart.yaml) !! before && Installable(p.yaml, before)
    ensures Removable(p.yaml, before + Generated(p))
    ensures Installable(oldPart.yaml, (before + Generated(p)) - Cleared(p))
  {
    PoliciesApart(p);
  }

  /** An upgrade that stops after the policies of the new version were copied: those of the old version can be
      copied again if and only if the two versions have no target in common. */
  lemma LeftoversBlock(files: set<File>, before: Part, after: Part)
    requires Removable(before.yaml, files) && Installable(after.yaml, files - Cleared(before))
    ensures Installable(before.yaml, (files - Cleared(before)) + PolicyTargets(after.yaml))
       <==> PolicyTargets(before.yaml) !! PolicyTargets(after.yaml)
  {}

  /** Two versions of a framework that ship the same policy file. */
  function ClashingFramework(version: string): Part {
    Part(Yaml("fw", version, Framework, [], [], [], [PolicyFile("apparmor/templates", "client", true)]), "org")
  }

  lemma ClashExample()
    ensures var v1, v2 := ClashingFramework("1"), ClashingFramework("2");
      && DirOf(v1) != DirOf(v2) && QualifiedName(v1) == QualifiedName(v2)
      && Removable(v1.yaml, Generated(v1)) && Installable(v2.yaml, Generated(v1) - Cleared(v1))
      && !Installable(v1.yaml, (Generated(v1) - Cleared(v1)) + PolicyTargets(v2.yaml))
  {
    var v1, v2 := ClashingFramework("1"), ClashingFramework("2");
    assert v1.yaml.version[0] != v2.yaml.version[0];
    assert Policies(v1.yaml)[0] == Policies(v2.yaml)[0] && |Policies(v2.yaml)| == 1;
    assert PolicyList(v1.yaml)[0].regular;
    LeftoversBlock(Generated(v1), v1, v2);
    assert Policies(v1.yaml)[0] in PolicyTargets(v1.yaml) && Policies(v1.yaml)[0] in PolicyTargets(v2.yaml);
  }

  lemma {:induction false} WritesAreRemoved(y: Yaml, ss: seq<Service>)
    ensures forall f :: f in ServiceWrites(y, ss) ==> f in ServiceRemoves(y, ss)
  {
    if ss != [] { WritesAreRemoved(y, ss[1..]); }
  }

  /** Activating and then deactivating a snap whose paths did not exist restores the generated files. */
  lemma ActivateDeactivateRestores(files: set<File>, p: Part)
    requires files !! Cleared(p)
    ensures Generated(p) <= Cleared(p)
    ensures (files + Generated(p)) - Cleared(p) == files
  {
    WritesAreRemoved(p.yaml, p.yaml.services);
  }
}
