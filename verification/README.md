# A verified model of Snappy

Snappy updates an operating system in two alternating root file systems and installs snaps next to it. This
project models the parts of it where a wrong step costs a device its boot, a package its data or a
comparison its meaning, and proves what those parts promise.

Verify the whole project with `dafny verify dfyconfig.toml`.

| file | models |
|---|---|
| `BootEnv.dfy`, `BootProtocol.dfy` | the bootloader environment, the programs that write it, the grub script that reads it, and the A/B protocol they form, with power failing between any two writes |
| `NameValueFile.dfy`, `UbootFile.dfy` | the text file behind u-boot's environment, and that it implements the abstract environment |
| `Version.dfy`, `VersionOrder.dfy`, `VersionSort.dfy`, `Sideload.dfy` | the version comparator, the order it computes, sorting by it, and the versions generated for side-loaded snaps |
| `Snaps.dfy`, `Frameworks.dfy`, `Arrangements.dfy`, `Services.dfy`, `Upgrades.dfy`, `Lifecycle.dfy` | install with its deferred compensations, activate, deactivate, uninstall, garbage collection, rollback, and the restart of dependent services |
| `KernelModules.dfy`, `Mounts.dfy`, `Lightweight.dfy`, `TreeSync.dfy` | the kernel-module list, the mount list, the lightweight index, and stream comparison with tree synchronisation |
| `Strings.dfy`, `Lists.dfy`, `Options.dfy` | byte order, binary search and line splitting, and sorting and members of lists, that the others share |

How the source is rendered:

- Code that changes things step by step is a method or a class with the source's order of steps. Pure
  comparisons and file-name generators are functions.
- A file operation or external command is a step that may fail, chosen nondeterministically, or a parameter
  that says how many writes still reach the disk. Contracts hold for every choice.
- Installs run the hooks; a dependents' refresh is part of every install.
- In the life cycle of snaps a ghost field `faults` counts the steps that have failed. Contracts say what a
  call does when none fails, what it restores when exactly one does, and what it keeps whatever fails.
- Failures that the source only logs are also collected in a flag `clean`; deferred calls that themselves
  fail clear a flag `compensated`.
- Go's `int` has 64 bits here, and strings are byte strings with one `char` per byte.
- In the A/B protocol an update or a toggle starts only in a boot that `snappy booted` has marked
  (cmd/snappy/cmd_booted.go lines 45-52).

Where the code does less than its comments promise, the model follows the code, and a lemma gives the exact
condition:

- Numbers in versions that do not fit an `int` compare equal to every number
  (`VersionOrder.NumbersAgreeExactlyWithinBound`, `VersionOrder.OverflowBreaksTransitivity`).
- Side-load versions wrap every 2^60 nanoseconds, about 36.5 years (`Sideload.SideloadMonotone`, `Sideload.WrapExample`).
- U-boot's order of writes is safe in exactly those runs in which every toggle starts in a trial or towards a
  good rootfs, and every overwrite happens in a trial or while the running rootfs is the one that is named
  (`BootProtocol.UbootRunsAreSafeExactlyWhenGuarded`). A concrete run shows that each of the two guards is needed
  (`BootProtocol.UbootCrashIsUnsafe`, `BootProtocol.UbootAbortIsUnsafe`).
- Of two consecutive kernel starts in a trial, both can be of the same bad rootfs: a power cut after the boot
  script's write and before the kernel starts wastes one pass of the script. The two differ if and only if
  the number of such power cuts between them is even (`BootProtocol.TwoStartsFindAGoodRootfs`,
  `BootProtocol.LateCutWastesAPass`).
- `SetActive` of a system image misses its purpose in the rows FFT and TTT of its own table
  (`BootProtocol.SetActiveDecidesNextBoot`, `BootProtocol.SetActiveExample`).
- When refreshing dependents' security fails during an install, stopped services stay stopped
  (`Services.Systemd.CycleServices`, `Services.FailedRefreshExample`).
- A second garbage collection can remove another version when one behind the active version compares equal to
  it, and only then (`Lifecycle.System.CollectTwice`, `Arrangements.TieLetsSecondRunRemove`).
- An upgrade of a framework that fails in a single step is not undone if a policy file that the new version has
  left over is one of the old version's: the copy refuses an existing target, so the old version cannot be
  activated again. In all other cases it is undone (`Lifecycle.System.Install`, `Snaps.ClashExample`).
- An install that finds a dangling link of its own version, which a failed first install can leave, takes itself
  for active and succeeds without generating any file (`Lifecycle.System.Install`, `Lifecycle.DanglingLinkExample`).
- An old version that is active again after an upgrade that failed in one step lacks generated files if and only
  if its own deactivation failed after the first removal, or removed everything but the link
  (`Upgrades.FilesAreBackExactlyWhen`). A version with binaries loses its wrappers wherever its deactivation fails
  (`Upgrades.BinariesAreLost`); one with services only may lose nothing (`Upgrades.LostFilesExample`).
- A framework whose deactivation fails after the first of its policies is removed stays active and can never be
  deactivated, removed or replaced again (`Upgrades.WedgedExactlyWhen`, `Lifecycle.System.Run`), unless a package of
  another name has a policy file of the same name, which underscores make possible (`Snaps.SharedTargetExample`).
- Tree synchronisation fails silently where a source file meets a destination directory
  (`TreeSync.Tree.RSyncWithDelete`, `TreeSync.FileOverDirectoryExample`).
- Module names that contain a newline or begin with a comment character are not read back
  (`KernelModules.ReadBackExactlyWhenPlain`, `KernelModules.CommentExample`).

## Model

| member | source | states |
|---|---|---|
| `BootEnv.EnvFile.SetBootVar` | partition/bootloader_grub.go:106-112 | one variable reaches the disk, or the call fails and nothing changes |
| `BootEnv.EnvFile.GrubToggleRootFS` | partition/bootloader_grub.go:77-87 | mode before rootfs: the file holds exactly the prefix of the two writes before the first that fails, even if later ones would succeed, and success means mode "try" and the other rootfs |
| `BootEnv.EnvFile.UbootToggleRootFS` | partition/bootloader_uboot.go:106-112 | the same end state, reached by writing the rootfs first |
| `BootEnv.EnvFile.MarkCurrentBootSuccessful` | partition/bootloader_grub.go:118-129 | a prefix of trial, rootfs, mode, up to the first write that fails; success means regular mode, the current rootfs and no trial |
| `BootEnv.EnvFile.BootScript` | partition/migrate_grub.go:40-74 | the rootfs started is the one computed from the loaded variables, whatever part of the script's writes reaches the disk |
| `BootEnv.AfterBootIs` | partition/migrate_grub.go:44-72 | the writes of the script, taken one by one, amount to filling in defaults and then either flipping the rootfs or arming the trial |
| `BootProtocol.StepKeepsInv` | partition/migrate_grub.go:44-72 | every step of the protocol, including a power cut between two writes, keeps the safety invariant |
| `BootProtocol.RunsAreSafe` | partition/bootloader_grub.go:77-129 | in every state of every run, outside a trial the named rootfs is the factory one or one marked successful, and has not been overwritten since |
| `BootProtocol.TwoBootsFindAGoodRootfs` | partition/migrate_grub.go:53-72 | from every reachable environment, of two consecutive undisturbed boots at least one starts a good rootfs; in a trial the two differ |
| `BootProtocol.TwoStartsFindAGoodRootfs` | partition/migrate_grub.go:53-72 | of two consecutive kernel starts in a run, with power cuts anywhere and only the script writing in between, one is of a good rootfs if and only if the first is or the number of power cuts between the script's write and the kernel's start is even; outside a trial both are of the same good one |
| `BootProtocol.LateCutWastesAPass` | partition/migrate_grub.go:53-72 | a concrete run of grub with one such power cut starts the bad rootfs twice in a row |
| `BootProtocol.MarkEndsTheTrial` | partition/bootloader_grub.go:118-129 | completing the mark in any environment fixes the running rootfs: the script then writes nothing and starts it at every boot |
| `BootProtocol.CanPowerCycle` | partition/migrate_grub.go:44-72 | every run can be continued by a power cut and a boot, which starts the rootfs that the script computes from what is on disk |
| `BootProtocol.CanMark` | partition/bootloader_grub.go:118-129 | a boot that is up can be marked, which ends in regular mode with the running rootfs good |
| `BootProtocol.CanAlwaysRecover` | partition/bootloader_grub.go:118-129 | from every state of every run a marked boot outside of any trial can be reached |
| `BootProtocol.CanUpdate` | partition/bootloader_grub.go:77-87 | in a marked boot the other rootfs can be overwritten and asked for, and the script then starts it |
| `BootProtocol.InterruptedToggleIsSafe` | partition/bootloader_grub.go:77-87 | any prefix of grub's toggle leaves a state within the invariant |
| `BootProtocol.InterruptedMarkIsSafe` | partition/bootloader_grub.go:118-129 | any prefix of the mark leaves a state within the invariant |
| `BootProtocol.InterruptedBootIsSafe` | partition/migrate_grub.go:44-72 | any prefix of the script's own writes leaves a state within the invariant |
| `BootProtocol.UbootStepKeepsInv` | partition/bootloader_uboot.go:106-112 | every guarded step of the protocol with u-boot's order of writes keeps its invariant |
| `BootProtocol.UbootRunsAreSafeExactlyWhenGuarded` | partition/bootloader_uboot.go:106-112 | a run with u-boot's order of writes is safe in every state, also after one more write of a toggle under way, if and only if each toggle starts in a trial or towards a good rootfs and each overwrite happens in a trial or with the running rootfs named |
| `BootProtocol.UnguardedRunGoesWrong` | partition/bootloader_uboot.go:106-112 | any run with an unguarded step extends, by at most one step, to one with an unsafe state |
| `BootProtocol.UbootCrashIsUnsafe` | partition/bootloader_uboot.go:106-112 | a concrete run of u-boot's order ends with a rootfs that was never booted, in regular mode, for ever |
| `BootProtocol.UbootAbortIsUnsafe` | partition/bootloader_uboot.go:106-112 | a concrete run in which only the overwrite is unguarded: the second write of a toggle fails, and the good rootfs that is named by then is overwritten |
| `BootProtocol.PredictionIsRightExactlyWhen` | partition/partition.go:349-375 | for any environment, whatever its variables hold, `IsNextBootOther` predicts the script if and only if no trial is on and the other rootfs is not named, or a trial is on that has not failed; with the exact answer for an unset or meaningless rootfs |
| `BootProtocol.MarkedBootPredictsNextBoot` | partition/partition.go:349-375 | in every reachable state with a marked boot the prediction is right |
| `BootProtocol.ToggleNextBoot` | partition/partition.go:328-334 | without a second rootfs it succeeds and writes nothing; otherwise success asks for the other rootfs, and the file holds exactly the writes that the budget allows |
| `BootProtocol.ToggleBootloaderRootfs` | partition/partition.go:593-611 | nothing is written unless boot assets were handled; then mode and rootfs, as far as the budget goes |
| `BootProtocol.SetActive` | snappy/systemimage.go:160-184 | toggles exactly on odd parity of its inputs; succeeds if and only if no toggle is due, or the assets are handled and both writes reach the disk; the file holds exactly the writes before the first that fails, and is untouched if no toggle is due |
| `BootProtocol.SetActiveDecidesNextBoot` | snappy/systemimage.go:160-184 | in a marked boot the next boot runs the part iff `active`, exactly outside the rows FFT and TTT |
| `BootProtocol.SetActiveExample` | snappy/systemimage.go:160-184 | both rows at one state of a concrete run: deactivating b and activating a still start b |
| `BootProtocol.InstallImage` | snappy/systemimage.go:194-254 | succeeds if and only if the system is not side-loaded, every step before the toggle succeeds and both writes reach the disk; every failure before the toggle leaves the environment alone; from the download on the other rootfs is not good any more, and whatever fails and however many writes arrive, the state stays within the safety invariant |
| `NameValueFile.PatchOne` | partition/bootloader_uboot.go:225-237 | the inner loop computes the fold of all changes over one line |
| `NameValueFile.PatchAll` | partition/bootloader_uboot.go:224-241 | the buffer holds every line patched, in place; the flags say which names matched and whether a value differed |
| `NameValueFile.AppendMissing` | partition/bootloader_uboot.go:243-261 | exactly the changes that no line matched, in order |
| `NameValueFile.ConfigFile.ModifyNameValueFile` | partition/bootloader_uboot.go:210-268 | a missing file is an error; the file is replaced exactly when needed, and otherwise left byte for byte |
| `NameValueFile.PatchedLine` | partition/bootloader_uboot.go:224-241 | a line for a changed name carries the new value, every other line keeps text and place |
| `NameValueFile.WrittenExactlyWhenDifferent` | partition/bootloader_uboot.go:263-267 | the file is written if and only if the new lines differ from the old ones |
| `NameValueFile.RefinesMapUpdate` | partition/bootloader_uboot.go:202-268 | afterwards a changed name has its new value everywhere and at least once, and all other names keep all their values |
| `NameValueFile.SecondCallWritesNothing` | partition/bootloader_uboot.go:210-268 | repeating the call on the written file, whatever it held before, writes nothing |
| `Strings.UnlinesOfLines` | partition/bootloader_uboot.go:210-268 | without carriage returns, the lines of a text written out again give the text back |
| `UbootFile.PatchIsStore` | partition/bootloader_uboot.go:124-138 | patching the text stores that variable in the environment the text denotes, and no other |
| `UbootFile.SetBootVarLegacy` | partition/bootloader_uboot.go:124-138 | success updates the denoted environment as the abstract store does, if value and file have no stray line ends; whatever they hold, success patches the file or finds nothing to change, failure leaves it, and a value already set is not written; it succeeds if and only if nothing is to be changed or the file is there and can be written |
| `UbootFile.FileExample` | partition/bootloader_uboot.go:106-138 | the text of a file that sets each of the variables |
| `Version.CmpString` | snappy/sort.go:79-97 | the loop is the lexicographic order of character orders, each string continued by zeros |
| `Version.CompareFragment` | snappy/sort.go:99-108 | numbers when both fragments parse as ints, character order otherwise |
| `Version.FragmentsAreMaximalRuns` | snappy/sort.go:110-112 | fragments are the maximal digit and non-digit runs, alternate, and concatenate to the text |
| `Version.CompareSubversion` | snappy/sort.go:129-149 | the loop compares the two fragment lists, each continued by "0" |
| `Version.VersionCompare` | snappy/sort.go:156-185 | main parts first, then revisions, an absent revision as "0", a version that is not accepted as "0" |
| `Version.EffectiveIs` | snappy/sort.go:114-127 | exactly the versions with some character that is no space, no colon behind digits only and no two hyphens are compared as they are; all others count as "0" |
| `Version.SplitAtHyphen` | snappy/sort.go:166-184 | a version is its main part, or its main part, a hyphen and its revision, neither with a hyphen |
| `Version.CharactersAre` | snappy/sort.go:30-42 | the digits, and where the letters begin and end |
| `VersionOrder.LexicalAgrees` | snappy/sort.go:63-97 | on non-digit parts the character orders give the policy's lexical comparison, which is 0 only for equal parts |
| `VersionOrder.TextAgrees` | snappy/sort.go:129-149 | comparing fragment lists equals stripping and comparing alternating non-digit and digit parts |
| `VersionOrder.ComparatorIsPolicyOrder` | snappy/sort.go:151-185 | for accepted versions, spelt out over their characters, within the digit-run bound the result is that of section 5.6.12 of the Debian Policy Manual |
| `VersionOrder.CompareIsTotal` | snappy/sort.go:151-185 | reflexive, sign-antisymmetric, and one of -1, 0, 1 |
| `VersionOrder.CompareIsTransitive` | snappy/sort.go:151-185 | transitive, and equal only if both steps are |
| `VersionOrder.EqualFragments` | snappy/sort.go:129-149 | two texts compare equal exactly when their padded fragment lists agree place by place, by number or by string |
| `VersionOrder.EqualVersions` | snappy/sort.go:151-185 | the same for main part and revision of whole versions |
| `VersionOrder.DigitRunComparison` | snappy/sort.go:99-108 | two digit runs are compared by number if and only if both fit an int or the numbers are equal |
| `VersionOrder.NumbersAgreeExactlyWithinBound` | snappy/sort.go:99-108 | for plain numbers the bound is exact, and beyond it the answer is always 0 |
| `VersionOrder.OverflowBreaksTransitivity` | snappy/sort.go:99-108 | a number beyond the bound is equal to two numbers that differ |
| `VersionOrder.OverflowExample` | snappy/sort.go:99-108 | a concrete number beyond the bound equals both 1 and 2 |
| `VersionOrder.LeadingZeroIsEqual` | snappy/sort.go:99-108 | two distinct versions, 1 and 01, compare equal |
| `VersionOrder.BoundExample` | snappy/sort.go:99-108 | the largest 64-bit int is compared as a number, the next number is not |
| `VersionOrder.DottedNumbers` | snappy/sort.go:129-149 | two numbers behind the same number and a dot are compared as numbers |
| `VersionOrder.DottedExample` | snappy/sort.go:129-149 | 1.2 is before 1.10 |
| `VersionSort.SortByVersion` | snappy/sort.go:187-211 | a permutation, in ascending or descending order of version when all versions are within the bound |
| `Sideload.NewSideloadVersion` | helpers/helpers.go:284-293 | the loop produces the twelve lowest base-32 digits, most significant first |
| `Sideload.SideloadOrder` | helpers/helpers.go:282-293 | two such versions compare exactly like their instants modulo 2^60 |
| `Sideload.SideloadMonotone` | helpers/helpers.go:282-293 | less than a window apart, the later instant has the larger version if and only if both are in the same window |
| `Sideload.WrapExample` | helpers/helpers.go:282-293 | two successive instants with versions in the wrong order |
| `Sideload.DigitsExample` | helpers/helpers.go:269-293 | the letters that stand for some digits |
| `Snaps.ActivateDeactivateRestores` | snappy/click.go:497-729 | what deactivation clears includes all that activation generates, so both together restore the generated files |
| `Snaps.LeftoversBlock` | policy/policy.go:63-118 | with the new version's policy files copied, those of the old version can be copied again if and only if the versions share no target |
| `Snaps.ClashExample` | helpers/cp.go:74-83 | two concrete versions of a framework for which they cannot |
| `Snaps.FirstRemovalIsGenerated` | snappy/click.go:585-729 | the first path that deactivation clears is that of a generated file |
| `Snaps.GeneratedAreDue` | snappy/click.go:497-729 | exactly these files are generated: a wrapper for each binary, a unit for each service, a socket unit for those with a socket, a bus policy for those of frameworks with a bus name, a profile for each service and binary, and a copy of each policy file of a framework |
| `Snaps.RemovesOfService` | snappy/click.go:585-625 | for each service its unit, socket and bus policy files are removed, in this order |
| `Snaps.FileNamesExample` | snappy/click.go:472-482 | the names of all these files at an app and a framework |
| `Snaps.TargetTellsName` | policy/policy.go:63-118 | without underscores in names, a policy target belongs to one framework only |
| `Snaps.SharedTargetExample` | policy/policy.go:63-118 | with one, two frameworks can share a target |
| `Lifecycle.System.WriteAll` | snappy/click.go:497-583 | the files that appear are a prefix of the list; all of them exactly if no step failed |
| `Lifecycle.System.RemoveLogged` | snappy/click.go:655-661 | removes these files and nothing else, all of them if and only if no step failed |
| `Lifecycle.System.RemoveServices` | snappy/click.go:585-625 | the files of services go three by three, in order, up to the first service that cannot be disabled or stopped, and nothing else goes; without services nothing can fail |
| `Lifecycle.System.RemoveProfiles` | snappy/click.go:701-729 | exactly a prefix of the profiles goes, up to the first failure |
| `Lifecycle.System.ClearAll` | snappy/snapp.go:1060-1076 | wrappers, service files, profiles and policies go in this order; a prefix is gone, exactly that prefix if no removal was logged as failed |
| `Lifecycle.System.InstallPolicy` | policy/policy.go:63-124 | all policy files or an error, and nothing else; unless a step fails it succeeds if and only if all sources are regular and no target exists |
| `Lifecycle.System.RemovePolicy` | policy/policy.go:63-130 | exactly a prefix of the policy files goes; unless a step fails it succeeds if and only if all sources are regular and all targets exist |
| `Lifecycle.System.Generate` | snappy/snapp.go:996-1020 | success adds exactly the generated files of the snap, failure a subset; unless a step fails it succeeds if and only if the policies can be copied |
| `Lifecycle.System.LinkCurrent` | snappy/snapp.go:1022-1042 | exactly which links and which directory there are after each combination of failing steps: a link is not made over one that could not be removed, and nothing is done after a step that failed |
| `Lifecycle.System.Activate` | snappy/snapp.go:974-1042 | success makes the part active with every file that is due, its data directory and its data link; an active part is left alone; a clean switch replaces the old version's files by the new one's; whatever fails, no other link, file or data changes, and an active version that cannot be deactivated stays; unless a step fails it succeeds if and only if the policies of the active version can be removed and its own copied |
| `Lifecycle.System.Deactivate` | snappy/snapp.go:1044-1093 | only an active part can be deactivated; failure keeps the link, and everything of others; clean success removes link and files; unless a step fails it succeeds if and only if the part is active and its policies can be removed; if one step fails, exactly a prefix of its paths, in the order of removal, is gone |
| `Lifecycle.System.ActivateThenDeactivate` | snappy/snapp.go:974-1093 | from a state without its paths, activating and deactivating restores all generated files and leaves nothing active; both succeed unless a step fails or a policy file is not regular |
| `Lifecycle.System.CheckForFrameworks` | snappy/snapp.go:406-427 | sorting and binary search report exactly the missing frameworks in declared order |
| `Frameworks.MissingAreAbsent` | snappy/snapp.go:406-427 | a name is reported if and only if it is wanted and no active framework has it |
| `Lifecycle.System.Dependents` | snappy/snapp.go:1189-1220 | exactly the installed parts that name this framework |
| `Services.Systemd.StopAll` | snappy/snapp.go:924-937 | one `Stop` for each service in order, up to and including the one that fails; those before it are the stopped ones; it fails if and only if a command does |
| `Services.Systemd.RestartAll` | snappy/snapp.go:943-959 | one `Start` for each of the stopped services, each once, up to and including one that fails; those before it are the started ones; it fails if and only if a command does |
| `Services.Systemd.CycleServices` | snappy/snapp.go:905-960 | the exact sequence of commands for every outcome; after a failed stop all services stopped before it are started, after a failed start those already started are stopped and then all are started, after a failed refresh nothing is started; all services are started again if and only if no step fails |
| `Services.CycleEndsWithStarts` | snappy/snapp.go:905-960 | the last command for every stopped service is its `Start`, unless the refresh failed, and then its `Stop`; services started again before a failure had been stopped in between |
| `Services.FailedRefreshExample` | snappy/snapp.go:939-941 | one service, stopped and not started again |
| `Lifecycle.System.RefreshDependents` | snappy/snapp.go:905-960 | one such pass over exactly the units of services of active parts that name the framework is logged, or none if these cannot be listed; success means that all were restarted |
| `Lifecycle.System.CopySnapData` | snappy/click.go:810-847 | adds only directories of the new version, on success one for each of the old version's |
| `Lifecycle.System.RemoveSnapData` | snappy/click.go:779-794 | removes only directories of the version, on success all of them |
| `Lifecycle.System.CompensateAll` | snappy/snapp.go:864-900 | the deferred calls: unless one of their own steps fails, the new data is gone, and the old version is active again if and only if nothing in the state blocks its activation |
| `Lifecycle.System.ActivateOrCompensate` | snappy/snapp.go:892-963 | from copied data on: one failing step is undone if and only if no policy file left over by the new version is one of the old version's |
| `Lifecycle.System.FinishSwitch` | snappy/snapp.go:875-963 | the same from copying data on, also when the old version's link could not be removed |
| `Lifecycle.System.SwitchTo` | snappy/snapp.go:854-963 | where nothing in the state blocks it, the switch succeeds unless a step fails, and one failing step is undone if and only if there is no clash of policy files; if deferred calls succeed after any number of failures, the old version is active and no data of a fresh version is left |
| `Lifecycle.System.InstallUnpacked` | snappy/snapp.go:833-963 | the same from unpacking on, and the metadata are the old ones, with or without the new part |
| `Lifecycle.System.Install` | snappy/snapp.go:783-963 | where nothing stands in its way it succeeds unless a step fails; after exactly one failing step directory, metadata and data of a fresh version are gone, and the old version is active again if and only if no policy file left over is one of its own; after any failures, once the deferred calls have succeeded, the package is as active as before; success activates it with the old data copied and all its files generated, or none if its own link dangled before; no other package's link, directory, data or generated file changes, and frameworks stay provided; success means that the services of exactly the active dependents were stopped and started again around the refresh, and any other outcome of that makes it fail |
| `Upgrades.FilesAreBackExactlyWhen` | snappy/snapp.go:861-873 | an old version that is active again after one failing step has all its generated files if and only if its deactivation neither failed after the first removal nor left the link behind |
| `Upgrades.BinariesAreLost` | snappy/snapp.go:1060-1062 | wherever a deactivation fails in one step, all wrappers are gone, so a version with binaries loses files |
| `Upgrades.LostFilesExample` | snappy/click.go:585-661 | an app that always loses a file then, and one that can lose none |
| `Upgrades.BlockedExactlyWhen` | snappy/snapp.go:1071-1080 | the old version's policies can be removed again unless its deactivation got as far as them |
| `Upgrades.WedgedExactlyWhen` | snappy/snapp.go:1071-1080 | one failing step leaves a framework active without a policy file if and only if its deactivation got past the first policy, or left the link |
| `Upgrades.BlockedExample` | snappy/snapp.go:1071-1080 | a concrete framework left so by a click hook that cannot be removed |
| `Upgrades.NamesWithoutUnderscore` | policy/policy.go:63-118 | if no name has an underscore, each policy file belongs to one package |
| `Lifecycle.DanglingLinkExample` | snappy/snapp.go:974-981 | an install over a dangling link of its own version succeeds, unless a step fails, and generates nothing |
| `Frameworks.StillSupported` | snappy/snapp.go:406-427 | installing a snap whose frameworks are provided keeps all frameworks provided |
| `Frameworks.RemovalKeepsSupport` | snappy/snapp.go:1096-1121 | removing a part that nothing depends on keeps all frameworks provided |
| `Lifecycle.System.Remove` | snappy/snapp.go:1123-1151 | removes this part only, no data and no other link or file; success leaves neither metadata nor directory; removing an inactive part changes neither link nor files; an active one whose policies cannot be removed stays; unless a step fails it succeeds if and only if the policies of an active part can be removed |
| `Lifecycle.System.Uninstall` | snappy/snapp.go:1096-1121 | a framework in use and an active OEM or built-in snap stay; unless a step fails, everything else goes; an inactive part leaves link and files alone, and no data goes; frameworks stay provided |
| `Lifecycle.System.FindSnapsByName` | snappy/parts.go:308-319 | exactly the installed parts with the name, and origin if given, each once |
| `Lifecycle.System.FindActive` | snappy/install.go:167-179 | the index of the only active part, or -1; an error means that two parts are active |
| `Lifecycle.System.GarbageCollect` | snappy/install.go:147-193 | for any sorted arrangement, whether it succeeds or not: a prefix of the parts before the active one's predecessor goes, on success all of them, and nothing else changes, no link, file or data; unless a step fails it succeeds if and only if not two parts are active and none of these is a framework in use when its turn comes; frameworks stay provided |
| `Lifecycle.System.CollectTwice` | snappy/install.go:147-193 | two collections in a row: after a successful first one the active part is still active and, without a tie, the second one removes nothing |
| `Arrangements.SecondRunRemovesNothing` | snappy/install.go:166-190 | without a tie behind the active version, no arrangement of what was kept makes a second run remove anything |
| `Arrangements.TieLetsSecondRunRemove` | snappy/install.go:166-190 | with a tie, some sorted arrangement makes a second run remove another part |
| `Arrangements.TieExample` | snappy/install.go:166-190 | a concrete arrangement with a tie |
| `Lifecycle.System.MakeSnapActive` | snappy/parts.go:349-365 | success activates the one part with name and version, and nothing of other packages changes; unless a step fails, it succeeds if and only if there is one such part and nothing blocks its activation |
| `Lifecycle.System.Rollback` | snappy/rollback.go:33-56 | success activates the requested version, or without one the second highest of some sorted arrangement; nothing of other packages changes; unless a step fails it succeeds exactly if that version is unique and can be activated |
| `Arrangements.RollbackFindsPredecessor` | snappy/rollback.go:42-48 | with the active version strictly on top, the second highest version is the kept predecessor in every arrangement |
| `Lifecycle.System.CollectThenRollback` | snappy/rollback.go:33-56 | after a garbage collection with the active version on top, rolling back activates exactly the predecessor that was kept; nothing of other packages changes and no data goes; unless a step fails it succeeds if and only if the garbage can be collected and that predecessor could be activated before |
| `Lifecycle.System.InstallCollectRollback` | snappy/install.go:76-193 | installing a version above all others of its name, collecting and rolling back activates the version that was the highest before, with all data kept but that of the new version; unless a step fails, it succeeds if and only if the garbage can be collected and that version can be activated then |
| `Arrangements.NewestIsOnTop` | snappy/install.go:147-193 | in every arrangement a newly installed highest version is last and the only active one, and the one before it is the highest before |
| `Lifecycle.System.SetActive` | snappy/snapp.go:966-972 | success activates the part with its files, or means that it was active and its policies are gone; nothing of other packages changes; unless a step fails, success is decided by the state, and a deactivation leaves no link and none of its files |
| `Lifecycle.System.Run` | snappy/snapp.go:974-1121 | every sequence of installs, uninstalls, activations, deactivations, collections and rollbacks, failing anywhere, keeps each named framework installed, and keeps a part that is active without one of its policy files exactly so, if no other package has a policy file of that name |
| `KernelModules.ModulesFile.GetModules` | coreconfig/config.go:382-417 | the sorted list of the modules named on the lines; a missing file is the empty list |
| `KernelModules.EntryOfLine` | coreconfig/config.go:396-409 | a line names a module if and only if it is one with white space around it that is no comment |
| `KernelModules.TrimSplits` | coreconfig/config.go:396-431 | every text is white space, its trimmed form and white space |
| `KernelModules.HeaderText` | coreconfig/config.go:419-423 | the text that an empty list is written as |
| `KernelModules.ModulesAreEntries` | coreconfig/config.go:382-417 | whatever the file holds, the list is sorted and its entries survive being written |
| `KernelModules.ApplyToList` | coreconfig/config.go:430-454 | one operation by binary search and insertion or deletion keeps the list sorted and free of duplicates and acts as on a multiset |
| `KernelModules.RenderList` | coreconfig/config.go:456-464 | the buffer is the header followed by one line per module |
| `KernelModules.ModulesFile.SetModules` | coreconfig/config.go:424-467 | the written file renders a sorted list that is the result of all operations in order; a failed write changes nothing |
| `KernelModules.ReadBackExactlyWhenPlain` | coreconfig/config.go:382-467 | a written list is read back unchanged if and only if no entry has a newline or begins like a comment |
| `KernelModules.CommentExample` | coreconfig/config.go:382-467 | a module named #x is not read back |
| `KernelModules.ActsLikeASet` | coreconfig/config.go:430-454 | without duplicates the operations are those on a set |
| `KernelModules.SetThenGet` | coreconfig/config.go:382-467 | reading after writing gives the sorted list of the set after all operations |
| `Mounts.RemoveMountByTarget` | partition/mount.go:76-85 | the entries with another target, in order |
| `Mounts.MountList.MountAndAdd` | partition/mount.go:129-137 | appended on success, unchanged on failure |
| `Mounts.MountList.UnmountAndRemove` | partition/mount.go:140-153 | removed from list and kernel on success, unchanged on failure |
| `Mounts.MountList.UndoMounts` | partition/mount.go:89-111 | no target goes while a pending one lies strictly below it; on success all targets to be undone are gone, on failure exactly those unmounted; the list still equals what is mounted; it fails if and only if a command does |
| `Mounts.BelowIs` | partition/mount.go:89-111 | what lying strictly below a directory means |
| `Mounts.UndoneListIs` | partition/mount.go:89-111 | exactly the untouched entries remain, in order, if and only if none shares its target with an undone one |
| `Mounts.DistinctTargetsSuffice` | partition/mount.go:89-111 | with distinct targets this is so |
| `Mounts.MountList.BindRequired` | partition/partition.go:547-582 | success appends all bind mounts |
| `Mounts.MountList.RunWithOther` | partition/partition.go:265-302 | without a second rootfs it fails, for reading only it mounts nothing; otherwise, unless a command fails, everything is bound and cleaned up whatever the function returns; a successful cleanup leaves no bind mount and the other rootfs mounted once |
| `Lightweight.SplitOfPath` | pkg/lightweight/lightweight.go:48-70 | a path built from prefix, name, origin and file is split into them; without an origin, if and only if the name has no dot |
| `Lightweight.Extract` | pkg/lightweight/lightweight.go:78-97 | the longest prefix of one package, without "current", and the remaining paths |
| `Lightweight.ExtractAll` | pkg/lightweight/lightweight.go:174-204 | terminates; the groups list the pieces of every path once and in order without "current", and neighbours are different packages |
| `Lightweight.NewBag` | pkg/lightweight/lightweight.go:99-101 | the same versions, newest first |
| `Lightweight.ActiveIndex` | pkg/lightweight/lightweight.go:292-330 | the index of the linked version, or -1 exactly if there is none |
| `Lightweight.RollbackVersion` | pkg/lightweight/lightweight.go:485-503 | the next installed version after the active one, which is a greatest one among those sorted after it |
| `Lightweight.LoadBest` | pkg/lightweight/lightweight.go:394-418 | the active version if it loads, otherwise a greatest installed one that loads, otherwise the first of the list, or nothing if that does not load either |
| `TreeSync.StreamsEqual` | helpers/cmp.go:65-90 | terminates for every positive buffer size and answers yes if and only if both streams are readable and equal |
| `TreeSync.FilesAreEqual` | helpers/cmp.go:35-63 | yes if and only if both files can be opened and read to their end and their contents are equal |
| `TreeSync.Tree.RemoveExtra` | helpers/helpers.go:491-511 | success leaves exactly the paths that the source has too, unchanged; in any case none of these is lost and what is left is a tree; it fails only if a step does |
| `TreeSync.Tree.CopyMissing` | helpers/helpers.go:513-545 | success makes the trees equal if and only if no source file met a directory, into which it is then copied; a failure leaves a part of the walk done; unless a step fails it succeeds if and only if no source directory meets a file |
| `TreeSync.Tree.RSyncWithDelete` | helpers/helpers.go:490-546 | success makes destination paths and contents equal the source's if and only if no path was a file in the source and a directory in the destination; unless a step fails it succeeds if and only if no path was a directory in the source and a file in the destination; what it leaves is determined in either case |
| `TreeSync.FileOverDirectoryExample` | helpers/helpers.go:490-546 | concrete trees that differ after a successful run |

## Left out

- HTTP, the store and system-image clients, the daemon API, YAML and JSON decoding, progress, command line and translation: plumbing over libraries.
- oauth/oauth.go, `quote`: a byte-wise escape; easier than what is here.
- priv/filelock.go: exclusion holds per inode, not per name, so no statement about names is made.
- The type of a lightweight bag, and core bags: `s.typ` carries over between iterations of `find`.
- Text of wrappers, units and policies, file modes, time stamps, owners and symbolic links inside trees.
- Click hook links, which are rewritten on every pass, and the enable links of systemd.
- U-boot's boot script, which is not part of the repository's code: the protocol runs of u-boot use the grub script.
- BootEnv.EnvFile.BootScript: what is on disk is stated for a power cut, not for a `save_env` that fails while later ones succeed.
- First installs that fail after the link was written leave a dangling link; nothing in the source removes it.
- Files that a failed activation of the new version has generated: nothing in the source removes them; only that they can block the old version is claimed.
- Garbage collection and rollback of system images: `NeedsReboot` is false for all snaps, and images cannot be uninstalled.
- Errors while reading files that exist, and the scanner's limit on the length of a line.
- Version.VersionCompare: blank versions are recognised by ASCII white space only, and the int is the 64-bit one.
- KernelModules.ModulesFile.SetModules: trims ASCII white space only.
- UbootFile.SetBootVarLegacy: reads the first value of a name, without the config parser's other syntax.
- Mounts.MountList.RunWithOther: says nothing about a failure while bind-mounting, after which the source does not unmount.
- TreeSync.Tree.RSyncWithDelete: takes the order in which the trees are walked as a parameter, and updates no times or modes.
