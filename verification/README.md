# A Dafny model of libsandbox

libsandbox starts a program inside Linux namespaces with a seccomp filter, cgroup limits, landlock rules and layered
mounts. This project models the parts of it where the behaviour is hardest to see from the code, and proves what they
promise.

- **The seccomp compiler** (`MachineInts`, `Cbpf`, `SeccompRules`, `SeccompCompiler`, `SeccompBuilder`): a small classic
  BPF machine, the rule list as a map built by overwriting, the stable sort / reverse / dedup / reverse pipeline, the two
  recursive passes over the program vector, and the builder. The main result is `Build`: when it succeeds, the kernel,
  running the program, kills on foreign architectures and otherwise takes the action of the last inserted rule, else the
  default, for every `(arch, nr)`; and it succeeds exactly when the exits stay callable and at most 255 distinct syscalls
  have rules.
- **The spawn handshake** (`ErrorFrame`, `CgroupLimits`, `SpawnProtocol`): parent and child as two processes that
  interleave over the ready pipe and the error pipe. For every run: fail-closed release, the order of
  its steps, when a pass or a report of the parent can be trusted, no deadlock, a bound on the length of runs, and no child left behind by a failed spawn.
- **Waiting and killing** (`WaitLoop`, `ProcessTree`): conservation of output, timeout discipline and a bound on polls;
  the descendant walk as exact reachability on any finite relation.
- **Mounts** (`MountOps`, `MkdirP`, `DynamicBind`, `LayeredBinds`): `raw_mkdir_p`, the dynamic bind with rollback, and the
  exact order rule for layered self-binds.
- **Landlock** (`LandlockRules`): the translation from an access decision to granted rights, and when dropping repeated
  paths loses nothing, as a condition on the rule list.
- **Descriptors** (`DescriptorLedger`): every descriptor of a spawn is closed once or handed over, on every return path.

System calls are outcomes chosen by the environment: parameters of a model function, or nondeterministic choices inside a
method. Code that updates state in place is modelled by classes and loops; its methods are proved against functions
or relations on values, and the lemmas are about those.

## Assumptions of the spawn model

- An action is one system call or one setup stage. Interrupted calls that the code retries change nothing and are not
  actions. Closing a valid descriptor releases it, except that the parent's close of the error pipe's write end may fail,
  which aborts the spawn. `SIGKILL` from `kill_and_reap` takes effect. A setup hook returns.
- Four departures are modelled as faults: the child killed from outside, its ready read interrupted (it is not retried,
  src/process/child_setup.rs:271-277), a failed write of its report, and a failed read of the error pipe.
  The theorems are about all runs, with any faults.
- The parent takes a bare end of file for success. `SpawnOutcome` says when that is right: if and only if no fault
  occurred. `KilledChildLooksSpawned`, `InterruptedChildLooksSpawned` and `LostReportLooksSpawned` are runs where it
  is wrong: a child that is killed before it commits, is interrupted in its ready read, or cannot write its report. The
  last case is real for a filter that makes `write` fail: a failing setup hook reports after that filter is installed.
- A reported failure is never about the wrong stage. `ReportedExactly` says when its message is cut short, and
  `CutReportLosesMessage` is such a run.

## Where code and documentation differ

The model follows the code.

- The default return is at index 2N + 5 (src/seccomp/bpf.rs:38 says 4 + 2N), and the table is scanned linearly
  (docs/ARCHITECTURE.md:127 says binary search).
- `src/landlock/mod.rs:194-196` says an unhandled bit in a mask is an error. For a path that is not a directory it is
  dropped silently instead (`UnhandledRightExactly`).
- `src/stdio.rs:176-180` refuses descriptors 0 to 2 so as not to close the parent's streams. The refused `OwnedFd` is
  dropped, so it is closed all the same (`Resolve`).
- The floor's "first mask wins" (src/landlock/mod.rs:208-210) can lose rights when a narrower mask comes first
  (`NarrowFirstLosesWrite`); `DroppingDuplicatesExactly` says when it does not, and the preset never does.
- The dynamic bind is not all-or-nothing when the helper succeeds and its status does not reach the parent, or when the
  rollback of a failed remount fails; `DynamicBindMount` gives the exact condition.

## Model

| member | source | states |
|---|---|---|
| `Cbpf.AcceptedNeverFaults` | src/seccomp/mod.rs:198-236 | a program that passes the kernel's load check returns a word on every input, from every instruction |
| `MachineInts.CastsKeepLowBits` | src/seccomp/builder.rs:265-272 | the integer casts keep the low 32 bits and leave values in range alone |
| `SeccompRules.CanonicalRefinesMap` | src/seccomp/builder.rs:275-287 | dedup yields a strictly ascending list with, for each syscall, exactly the last inserted rule: the same map as overwriting in order, one entry per key |
| `SeccompRules.CanonicalFromAnyStableSort` | src/seccomp/builder.rs:281-286 | every stable sort gives the same normal form, so only stability matters |
| `SeccompRules.UnstableSortLosesLastWins` | src/seccomp/builder.rs:282-284 | with an unstable sort an earlier rule can win |
| `SeccompRules.CanonicalIffSameMap` | src/seccomp/builder.rs:280-287 | two rule lists have one normal form iff they say the same about every syscall |
| `SeccompRules.DedupRules` | src/seccomp/builder.rs:280-287 | the four vector operations compute that normal form |
| `SeccompRules.KernelTakesEncodedAction` | src/seccomp/mod.rs:57-66 | the kernel reads each encoded word as the action it was made from, every errno included |
| `SeccompCompiler.TableScan` | src/seccomp/bpf.rs:114-170 | from any table slot, the first rule for the loaded number decides, and a miss jumps over all rule returns to the default |
| `SeccompCompiler.Layout` | src/seccomp/builder.rs:242-254 | a program has 2N + 6 instructions for N rules, 5 for none |
| `SeccompCompiler.LayoutDecides` | src/seccomp/bpf.rs:24-41 | the compiled program returns the verdict of the rule map on every arch and syscall number, negative numbers included |
| `SeccompCompiler.LayoutAccepted` | src/seccomp/mod.rs:198-236 | every compiled program passes the kernel's check: length, in-range jumps, no fall off the end |
| `SeccompCompiler.LayoutInjective` | src/seccomp/bpf.rs:126-170 | the program determines its rules |
| `SeccompCompiler.ProgramVec.EmitTableNode` | src/seccomp/bpf.rs:177-202 | the balanced recursion emits rule i in table slot i, behind an unchanged prefix |
| `SeccompCompiler.ProgramVec.PatchJumpNode` | src/seccomp/bpf.rs:222-260 | the threaded counter moves in step with the rule index, so from 0 it meets node mid at slot mid; every offset is the same distance, no subtraction underflows, no cast truncates, and it fails iff the distance exceeds 255, before changing anything |
| `SeccompCompiler.ProgramVec.EmitSortedJumpTable` | src/seccomp/bpf.rs:126-170 | the patched block is appended iff there are at most 255 rules, with every true-offset equal to N |
| `SeccompCompiler.CompileBpf` | src/seccomp/bpf.rs:42-112 | succeeds iff there are at most 255 rules; the 4096 check never rejects; the result decides as the rules say and is accepted by the kernel |
| `SeccompBuilder.SeccompFilterBuilder.AddRule` | src/seccomp/builder.rs:265-272 | the action the kernel will take is overwritten at the truncated number, and nowhere else |
| `SeccompBuilder.SeccompFilterBuilder.AddAll` | src/seccomp/builder.rs:164-180 | exactly the listed syscalls get the action, as the kernel reads it |
| `SeccompBuilder.SeccompFilterBuilder.Remove` | src/seccomp/builder.rs:182-187 | the syscall leaves the effective map, whatever was said about it |
| `SeccompBuilder.SeccompFilterBuilder.Allowing` | src/seccomp/builder.rs:59-89 | strict and standard: exactly the listed syscalls have a rule, which allows, and the default kills |
| `SeccompBuilder.SeccompFilterBuilder.Permissive` | src/seccomp/builder.rs:93-134 | blocked syscalls kill the process even when also allowed; everything else is allowed |
| `SeccompBuilder.SeccompFilterBuilder.Build` | src/seccomp/builder.rs:195-261 | succeeds iff exit and exit_group go through and there are at most 255 distinct syscalls; the kernel, running the program, kills on foreign architectures and otherwise takes the action of the last rule for the number, else the default; the error names the cause |
| `SeccompBuilder.ExitScan` | src/seccomp/builder.rs:208-232 | the two scans and the default test decide exactly whether the syscall is callable, using that no errno action encodes as ALLOW or LOG |
| `SeccompBuilder.VerdictIsAction` | src/seccomp/mod.rs:57-66 | the verdict word is read by the kernel as the action that rules and default ask for |
| `SeccompBuilder.ExitsCallableMeans` | src/seccomp/builder.rs:201-237 | the exit check on words says that the kernel lets exit and exit_group through |
| `SeccompBuilder.ExitCheckIsAboutThePrograms` | src/seccomp/builder.rs:191-237 | the exit check holds iff the program itself returns ALLOW or LOG for exit and exit_group on the native architecture |
| `SeccompBuilder.FilterDecides` | src/seccomp/builder.rs:239-260 | the filter of any rule list returns its verdict on every input |
| `SeccompBuilder.FilterEqIffSameRules` | src/seccomp/filter.rs:57-68 | filters are equal under PartialEq iff they have one default and one effective map, and then they are identical |
| `SeccompBuilder.DecidingAlikeIsNotEqual` | src/seccomp/filter.rs:57-68 | equality is finer than deciding alike: a rule that repeats the default changes the filter and no decision |
| `ErrorFrame.FrameRoundTrip` | src/error.rs:116-134 | decoding a frame recovers the stage and the capped message; a frame is never empty and fits PIPE_BUF |
| `ErrorFrame.CappedExactly` | src/process/child_setup.rs:292-301 | the cap is a prefix of at most 4095 bytes, and the whole of a shorter message |
| `ErrorFrame.FramePrefix` | src/error.rs:116-134 | any non-empty part of a frame decodes to the stage and a prefix of the capped message |
| `ErrorFrame.WriteEnd.WriteAllRaw` | src/process/fd.rs:28-39 | partial writes and interruptions are retried: all data has gone out iff the loop succeeds iff no call failed; otherwise a prefix has |
| `ErrorFrame.WriteEnd.ChildAbort` | src/process/child_setup.rs:292-301 | the capped frame goes out in full iff no write failed, else a prefix of it; then the pipe is closed |
| `ErrorFrame.ReadEnd.DrainErrorPipe` | src/process/protocol.rs:415-451 | if no read failed, the drain is a clean end of file iff nothing was sent, and otherwise the whole stream, however split; a frame is always a non-empty prefix |
| `ErrorFrame.ReportAndDrain` | src/process/protocol.rs:415-451 | child_abort followed by the drain, with any partial calls and interruptions: if no call fails the parent decodes the stage and capped message; a frame always names the stage; a clean end of file means that a write failed before the first byte |
| `CgroupLimits.ConfigureCgroup` | src/cgroup/limits.rs:106-237 | refused iff some limit that is explicit under the strict policy, or the memory limit of a rootless caller, cannot be written and attached, naming the first limit to blame and leaving no cgroup; otherwise the returned cgroup is the one in the filesystem, with exactly the writable configured limits and the child attached, and each diagnostic tells whether its limit is in that cgroup |
| `CgroupLimits.Diagnostics.HandleLimitError` | src/cgroup/limits.rs:252-266 | strict fails, best effort is recorded, nothing else changes |
| `CgroupLimits.Diagnostics.SetBestEffortUnavailable` | src/cgroup/limits.rs:268-288 | exactly the best-effort limits become not enforced |
| `CgroupLimits.LetThroughIsEnforced` | src/cgroup/limits.rs:106-250 | a configuration that is let through has every required limit written to the cgroup that holds the child; a limit is reported enforced iff it is so written; none is unknown |
| `CgroupLimits.PlanMeansConfig` | src/cgroup/limits.rs:35-95 | a limit is strict iff it is configured, explicit and under the strict policy, and not requested iff not configured |
| `CgroupLimits.NeedsCgroupExactly` | src/cgroup/limits.rs:100-104 | a cgroup is set up iff some limit is configured |
| `CgroupLimits.OutcomeDetermined` | src/cgroup/limits.rs:106-237 | configuration and environment determine the outcome |
| `SpawnProtocol.StepKeepsInv` | src/process/protocol.rs:330-451 | every action of parent, child or environment keeps the protocol invariant |
| `SpawnProtocol.RunKeepsHistory` | src/process/protocol.rs:330-451 | in every run the state records what happened: the stages that went through, the failing one, each milestone by its action, faults iff some action was one, an abort after every failed step of the parent and only after one or a failed read |
| `SpawnProtocol.SpawnOrder` | src/process/protocol.rs:359-400 | in every run the ready byte is written after the maps and after limits that were let through, read after it was written, and the child commits after all its stages |
| `SpawnProtocol.FailClosedRelease` | src/process/protocol.rs:359-400 | in every run a child past its ready read has id maps written, every required limit written to the cgroup that holds it, and every configured limit evaluated; the run contains the successful map write, the limit outcome and the ready byte |
| `SpawnProtocol.DrainReadsWhatWasWritten` | src/process/protocol.rs:402-451 | in every run the parent passes only if the child wrote nothing and can write no more, and reports a non-empty prefix of what it wrote, all of it unless a read failed |
| `SpawnProtocol.SpawnOutcome` | src/process/child_setup.rs:269-378 | in every run, faults included, that ends the drain: the child closed the pipe without a frame and went on to exec iff the parent passed and no fault occurred, and then every setup stage went through; no parent step failed; without faults any other run decodes the child's failing stage and capped message |
| `SpawnProtocol.ReportedExactly` | src/process/protocol.rs:421-451 | in every run a reported frame decodes to the stage after those that went through, which failed in this run, and a prefix of its capped message; it is a proper prefix of the report iff a fault struck while the report was still being written or not yet read |
| `SpawnProtocol.FailedSpawnLeavesNoChild` | src/process/fd.rs:133-171 | in every run a spawn that returns an error has a child that exited or was killed |
| `SpawnProtocol.NeverStuck` | src/process/protocol.rs:330-451 | in every reachable unfinished state some regular action is enabled, faults or not |
| `SpawnProtocol.ChildCanAct` | src/process/child_setup.rs:280-301 | a child that does not wait on the parent can act; its report always fits the pipe, so it never blocks on it |
| `SpawnProtocol.RunsAreBounded` | src/process/protocol.rs:409-414 | every run is finite, within a bound linear in the number of setup stages |
| `SpawnProtocol.MaximalRunsFinish` | src/process/protocol.rs:402-451 | a run that cannot go on has returned in the parent and execed or ended in the child |
| `SpawnProtocol.KilledChildLooksSpawned` | src/process/protocol.rs:416-420 | a child killed from outside before it commits is taken for a success |
| `SpawnProtocol.InterruptedChildLooksSpawned` | src/process/child_setup.rs:270-277 | a child whose ready read is interrupted exits silently and is taken for a success |
| `SpawnProtocol.LostReportLooksSpawned` | src/process/child_setup.rs:298-299 | a report whose write fails is lost and the failed setup is taken for a success |
| `SpawnProtocol.CutReportLosesMessage` | src/process/child_setup.rs:298-299 | a report whose second write fails arrives as the stage tag alone |
| `WaitLoop.ReadAvailable` | src/process/wait.rs:105-116 | nothing is lost or reordered: collected bytes followed by queued bytes equal the bytes written; nothing stays queued unless a read failed |
| `WaitLoop.WaitWithTimeout` | src/process/wait.rs:118-173 | conservation on every path; the collected output is complete unless the last read of its pipe failed, in particular if no read did; the exit code is that of the child, or 128 plus its signal; a reap error is returned iff one occurred; SIGKILL at most once, after the limit, iff the flag says so; sleeps bounded by limit plus grace period |
| `ProcessTree.CollectDescendants` | src/process/kill.rs:30-45 | ends on every finite relation, cycles included, with each reachable pid exactly once and nothing else, root first |
| `ProcessTree.FinishedWalk` | src/process/kill.rs:35-44 | when the stack is empty everything reachable has been visited |
| `ProcessTree.KillTree` | src/process/kill.rs:72-90 | the early break is never taken: each of five rounds signals exactly the reachable pids, once each |
| `MountOps.RemountOnlyOnRequest` | src/mount/ops.rs:54-69 | there is no remount iff the permission is read-write or an empty custom set; a remount carries exactly the requested options, is read-only iff asked for and recursive iff the bind is |
| `MountOps.FlagsKeepTheirMeaning` | src/mount/ops.rs:20-52 | each requested flag becomes its kernel flag and nothing else does |
| `MkdirP.FileSystem.RawMkdirP` | src/mount/syscalls.rs:313-348 | mkdirat is issued on an initial part of the component ends in order, on all of them when 0 is returned, when each name exists and nothing else was added; no write past the buffer; a failure is the errno of the last mkdirat, or the next component is over-long |
| `MkdirP.EndsUpToExact` | src/mount/syscalls.rs:319-330 | those ends are exactly the component boundaries, ascending |
| `MkdirP.NamesArePrefixes` | src/mount/syscalls.rs:331-339 | for a path without NUL bytes the names are its component-boundary prefixes |
| `DynamicBind.MountNamespace.Op` | src/mount/syscalls.rs:457-523 | the detached descriptor is closed once on every path; the directories are those of raw_mkdir_p; the result is the errno of the first failing step; the mount stack gains exactly the requested mount iff 0 is returned |
| `DynamicBind.MountNamespace.DynamicBindMount` | src/mount/syscalls.rs:389-526 | Ok iff the operation succeeded and its status arrived, and then the stack gained exactly one mount with the requested options; a failed call leaves the stack alone iff a success's status arrives and a failed remount is rolled back; every other result names the first failing step, its errno clamped to 253 |
| `DynamicBind.OptionsByPermission` | src/mount/ops.rs:37-69 | the requested options: read-only, exactly the custom flags, or those of the source when nothing is asked for |
| `DynamicBind.AllOrNothingExactly` | src/mount/syscalls.rs:457-523 | success adds exactly one mount with the requested options; a failed operation leaves the stack alone iff an attached mount is rolled back; one mount is the most that can remain |
| `DynamicBind.ErrnoRoundTrip` | src/mount/syscalls.rs:283-293 | an errno survives the status byte iff it is in 0..=253, is clamped otherwise, and never reads as success or generic failure |
| `LayeredBinds.MountTable.InstallBind` | src/mount/child.rs:227-263 | exactly the paths at or below the target with no deeper mount above them get the bind's flag, which without a remount is the one it covers up; every other path keeps its status |
| `LayeredBinds.InstallPathwise` | src/mount/child.rs:227-263 | the same on mount tables as values, at every path |
| `LayeredBinds.MountTable.InstallBinds` | src/mount/child.rs:20-39 | binds installed in turn over one writable mount |
| `LayeredBinds.LayeringExactly` | src/mount/child.rs:37-39 | distinct binds give every path the status of its deepest bind iff each bind without a remount is installed where earlier binds leave the path writable |
| `LayeredBinds.ChildrenFirstIsFaithful` | src/mount/child.rs:37-39 | children before ancestors suffices |
| `LayeredBinds.AncestorFirstLosesWritability` | src/mount/child.rs:205-216 | a writable child bound after its read-only ancestor stays read-only |
| `LandlockRules.BuildRuleset` | src/landlock/mod.rs:243-281 | built iff landlock is supported and every kept rule opens and is legal; the kept rules are the first per existing path, narrowed by file type; an error is that of the first kept rule that does not open or is not legal |
| `LandlockRules.GrantedByLeaders` | src/landlock/mod.rs:243-281 | what the ruleset grants at a location is exactly what the first rules for existing paths at or above it ask for |
| `LandlockRules.AcceptedByLeaders` | src/landlock/mod.rs:243-281 | the build goes through iff each first rule for an existing path opens and is legal; skipped rules never matter |
| `LandlockRules.DroppingDuplicatesExactly` | src/landlock/mod.rs:206-211 | skipping repeated paths loses no right anywhere iff each right that a rule asks for is carried by the first rule for some path at or above it, a condition on the list and the tree alone |
| `LandlockRules.NarrowFirstLosesWrite` | src/landlock/mod.rs:208-210 | a narrower mask listed first loses the write right |
| `LandlockRules.FilesGetFileRights` | src/landlock/mod.rs:181-187 | whatever masks are passed, a non-directory never carries a directory-only right |
| `LandlockRules.LegalMaskExactly` | src/landlock/mod.rs:167-187 | narrowing drops exactly directory-only and unhandled rights of a file |
| `LandlockRules.HandledRightsExactly` | src/landlock/mod.rs:167-187 | which rights each landlock version handles |
| `LandlockRules.UnhandledRightExactly` | src/landlock/mod.rs:193-196 | for every rule list: an unhandled right in the first rule for a path fails the build if the path is a directory, and is dropped on any other file, whose rule is legal iff some file right is left |
| `LandlockRules.GrantsGrowDownwards` | src/landlock/decision.rs:8-12 | no ruleset can carve a read-only hole out of a writable tree |
| `LandlockRules.PresetGrantsDecision` | src/landlock/mod.rs:362-385 | at every location the ruleset grants exactly what the decision permits: full rights beneath writable paths, read rights beneath the root under a broad policy and beneath the listed paths only under a narrow one |
| `LandlockRules.PermitsByRules` | src/landlock/mod.rs:362-385 | the two groups of rules ask for what the decision permits |
| `LandlockRules.PresetAccepted` | src/landlock/mod.rs:364-385 | no rule of the preset is rejected |
| `LandlockRules.PresetBuildsIffOpenable` | src/landlock/mod.rs:364-385 | the preset's rules are all accepted iff every existing path of the decision opens |
| `LandlockRules.PrepareLandlock` | src/landlock/mod.rs:362-385 | built iff landlock is supported and every existing path of the decision opens, and then it grants exactly what the decision permits; the only other errors name an existing path of the decision that does not open |
| `DescriptorLedger.AutoCloseFd.Close` | src/process/fd.rs:88-102 | closes once; a second close does nothing |
| `DescriptorLedger.AutoCloseFd.WriteByteAndClose` | src/process/fd.rs:75-86 | on a failed write the descriptor stays with its owner and open; on success and on a failed close it is gone |
| `DescriptorLedger.StdioSlot.Resolve` | src/stdio.rs:118-202 | the slot owns exactly what was opened and brought; the child gets its end of the pipe, the brought or the new descriptor, or none; the parent keeps the write end of a stdin pipe and the read end of an output pipe; fails iff a call fails or a standard descriptor is brought, and then all of it is closed, the refused descriptor included |
| `DescriptorLedger.StdioSlot.CloseChildFdInParent` | src/stdio.rs:208-216 | closes the child's side once and keeps the parent's |
| `DescriptorLedger.StdioSlot.Drop` | src/stdio.rs:228-238 | closes exactly what the slot still owns |
| `DescriptorLedger.AfterClone` | src/process/protocol.rs:339-474 | fails iff a mandatory step does, and then closes everything; success hands over exactly the parent's end of each stream and the optional descriptors |
| `DescriptorLedger.RunPrepared` | src/process/protocol.rs:243-475 | on every path each descriptor opened or brought is closed exactly once or handed over, none twice, and no other descriptor is touched; success hands over exactly the parent's ends of the piped streams; it fails iff a mandatory step fails or a standard descriptor was brought |

## Left out

- Concrete syscall numbers and preset lists: finite data; the presets take their lists as parameters.
- `load_filter`, `set_no_new_privs`, `restrict_self_raw`: thin wrappers around one system call.
- The HTTP proxy, the async wait loop, cgroup file I/O and float quotas: I/O around easy logic.
- Recursive remounts, rootfs pivot and chroot: the result depends on kernel mount behaviour that is not part of this code.
- Several spawns at once, descriptor inheritance between siblings, pid reuse, uninterruptible processes.
- UTF-8 decoding and message texts: messages are bytes.
- CgroupLimits.ConfigureCgroup: the removal of a cgroup that could not be used always succeeds; the source ignores its failure.
- SeccompRules.KernelTakesEncodedAction: the errno is the one in the word; that the kernel delivers at most 4095 is not modelled.
- SeccompRules.DedupRules: the sort is one insertion sort on a value, not the standard library's in-place merge; `CanonicalFromAnyStableSort` covers every stable sort.
- WaitLoop.WaitWithTimeout: each stream's total output is finite and the child is its only writer; a child that writes without end can keep one `read_available` call busy past the limit. The retry loop inside `try_reap` is one step.
- ProcessTree.KillTree: one view of `/proc` per round; descendants that are reparented away are out of its reach, as the source says.
- MkdirP.FileSystem.RawMkdirP: directory entries are compared as the byte strings passed to `mkdirat`; links and repeated slashes are not resolved.
- DynamicBind.MountNamespace.DynamicBindMount: the release build of `encode_errno`; a debug build panics on an errno out of range. One target's mount stack is modelled, not the whole table.
- LayeredBinds.MountTable.InstallBind: failing mount calls, which abort the exec, are not modelled.
- DescriptorLedger.RunPrepared: close is taken to release the descriptor even when it reports an error, as on Linux; the child's own descriptor table is not modelled.
- SpawnProtocol.SpawnOutcome: a failed `execvpe` (exit code 127) counts as committed, since the error pipe is closed before it.
