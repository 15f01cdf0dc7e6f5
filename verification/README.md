# nicos-sandbox-helper, modelled in Dafny

The NICOS sandbox helper is a small setuid-root program. It is invoked as
`helper rootdir uid gid binary [args...]`. It puts itself into fresh mount, network and
IPC namespaces and makes every mount private. It then bind-mounts the whole file system
at `rootdir` and tries to remount read-only every mount under `rootdir` that is not a
tmpfs. Each remount re-asserts the nodev, noexec, nosuid, noatime, nodiratime and
relatime options the mount already had; other options, such as sync, are not carried
over. A remount refused with EACCES, EINVAL, ESTALE or EPERM is skipped, and that mount
stays writable. Finally it chdirs and chroots into `rootdir`, drops to the given group
and user ids, and execs `binary` with its arguments. The first fatal failure ends the
helper.

The model treats the kernel as an oracle. Every privileged call is an `Attempt`: the call
with its arguments, plus the answer the kernel gave. A run of the helper is the sequence
of attempts it made, plus how it ended. Each `.dfy` file is one module:

- `wrappers.dfy` (`Wrappers`): `Option`.
- `mount_flags.dfy` (`MountFlags`): the mount(2) flags and their Linux bit values.
- `ctext.dfy` (`CText`): strstr(3) as a leftmost-occurrence search, strtol(3) in base 10, and the helper's id check `ParseId`. It also holds an independent grammar of the texts the id check accepts.
- `kernel.dfy` (`Kernel`): errno values, call results and the privileged calls.
- `readonly.dfy` (`ReadOnly`): `make_mounts_readonly`. This covers:
  - which entries are selected;
  - the flags each remount carries;
  - the remount plan of a table;
  - the errno tolerance;
  - the loop, as a function and as a method.
- `sandbox.dfy` (`Sandbox`): `main` as a forward-only machine over phases, driven by an `Oracle` of kernel answers.
- `safety.dfy` (`SandboxSafety`): the script of a run in which no failure is fatal, the run invariant, and the proof that every run keeps it.
- `guarantees.dfy` (`Guarantees`): the theorems about every run of the helper. These are:
  - usage;
  - prefix of the script;
  - stop at the first failure;
  - security orderings;
  - when the exec happens and what it gets;
  - where the ids come from;
  - which remounts happen.

The helper's header comment asks for a numeric uid and gid (nicos-sandbox-helper.c:31-32).
The code accepts any text that strtol consumes completely, so `"-1"` and `" +7"` are
accepted (`CText.ParseIdAcceptsNegative`, `CText.ParseIdAcceptsBlanksAndPlus`). The model
follows the code.

## Model

| member | source | states |
|---|---|---|
| CText.StrStr | nicos-sandbox-helper.c:84 | The result is the leftmost index at which the needle occurs in the haystack, and None only when it occurs nowhere. |
| CText.StrStrAtStart | nicos-sandbox-helper.c:84 | `strstr(dir, prefix) == dir` holds exactly when `prefix` is a textual prefix of `dir`. |
| ReadOnly.SelectedIff | nicos-sandbox-helper.c:83-89 | An entry is remounted iff the new root's path is a textual prefix of its directory and its type is not "tmpfs". |
| ReadOnly.PrefixIsTextual | nicos-sandbox-helper.c:83-89 | The prefix test ignores path components: `/tmp/sbxY` counts as under `/tmp/sbx`. A tmpfs under the root is skipped, and so is the parent `/tmp`. |
| MountFlags.BitsDisjoint | nicos-sandbox-helper.c:91-105 | The Linux values of distinct mount flags are single, pairwise disjoint bits. |
| ReadOnly.RemountFlags | nicos-sandbox-helper.c:91-105 | A remount always carries bind, remount and read-only. It carries another flag iff that flag is nodev, noexec, nosuid, noatime, nodiratime or relatime and the entry has that option. |
| ReadOnly.PlanAppend | nicos-sandbox-helper.c:80-112 | The remounts planned for a concatenated table are the plan of the first part followed by the plan of the second. |
| ReadOnly.PlanAtEntry | nicos-sandbox-helper.c:80-112 | The plan of a table splits at any entry into before, the entry's own contribution, and after. |
| ReadOnly.PlanMembers | nicos-sandbox-helper.c:80-105 | A request is in the plan iff some entry of the table is selected and that request is its remount. |
| ReadOnly.PlanFlags | nicos-sandbox-helper.c:91-105 | Every planned remount carries at least bind, remount and read-only, and it comes from a selected entry. |
| ReadOnly.ScheduleFollowsPlan | nicos-sandbox-helper.c:80-107 | The remount calls of a complete pass are the plan's requests, one per selected entry, in table order. |
| ReadOnly.ScheduleRemounts | nicos-sandbox-helper.c:107 | Every call of the pass is mount(NULL, dir, NULL, flags, NULL) for a selected row of the table: no source, that row's directory, that entry's remount flags (MS_REMOUNT among them), and that row's answer. |
| ReadOnly.RemountLoop | nicos-sandbox-helper.c:80-112 | The calls of the loop are a prefix of the complete pass. A completed loop made all of them, and it never reports a missing mount list. |
| ReadOnly.RemountLoopCompletes | nicos-sandbox-helper.c:107-111 | The loop completes iff every remount of the table succeeds or fails with EACCES, EINVAL, ESTALE or EPERM. |
| ReadOnly.RemountLoopStops | nicos-sandbox-helper.c:107-111 | A loop that fails ends with the first remount whose error is not tolerated; all earlier remounts let it carry on. |
| ReadOnly.MakeMountsReadOnly | nicos-sandbox-helper.c:75-78 | The pass reports a missing mount list iff setmntent fails, and then it has made no remount. |
| ReadOnly.BuildFlags | nicos-sandbox-helper.c:91-105 | The flag word built one option test at a time equals the set of flags the remount should carry. |
| ReadOnly.EnforceReadOnly | nicos-sandbox-helper.c:70-115 | The row-by-row loop, with flags built one option at a time, makes the same calls and ends the same way as the functional pass. |
| CText.StrToL | nicos-sandbox-helper.c:151 | When strtol consumes nothing the value is 0. When it consumes something, the last character consumed is a digit and the next one is not. |
| CText.StrToLReadsNumber | nicos-sandbox-helper.c:151 | What strtol consumes is blanks, an optional sign and at least one digit, and the value is the signed value of those digits. |
| CText.StrToLLongest | nicos-sandbox-helper.c:151 | strtol consumes at least every prefix of the text that is such a number. |
| CText.StrToLConsumesIff | nicos-sandbox-helper.c:151 | strtol consumes something iff the text starts with blanks, an optional sign and a digit. |
| CText.StrToLIff | nicos-sandbox-helper.c:151 | strtol yields value v and stops at e iff the first e characters are a number with value v and character e is not a digit. |
| CText.ParseIdIff | nicos-sandbox-helper.c:151-153 | An id text is accepted with value v iff it is blanks, an optional sign and one or more digits whose signed decimal value is v. |
| CText.ParseIdOfIdText | nicos-sandbox-helper.c:151-153 | Every integer, printed in decimal with a minus sign when negative, is accepted and read back as itself. |
| CText.ParseIdAcceptsNegative | nicos-sandbox-helper.c:151-153 | "-1" is accepted as the id -1: the check does not enforce non-negativity. |
| CText.ParseIdAcceptsBlanksAndPlus | nicos-sandbox-helper.c:157-159 | " +7" is accepted as 7: leading blanks and a plus sign pass the check. |
| CText.ParseIdRejects | nicos-sandbox-helper.c:152 | The empty text, trailing garbage ("5x", "7 ") and a lone sign are rejected. |
| Sandbox.InvocationOf | nicos-sandbox-helper.c:164 | The vector handed to the new program starts with the binary's own name. |
| Sandbox.Step | nicos-sandbox-helper.c:126-165 | One step moves exactly one phase forward or halts, never forgets a call already made, and never reports a usage error. |
| Sandbox.Drive | nicos-sandbox-helper.c:126-165 | A run from any phase halts, and it keeps the calls made so far as a prefix. |
| Sandbox.Setup | nicos-sandbox-helper.c:123-124 | The helper always halts. It reports a usage error iff fewer than four operands are given, and then it has made no call. |
| SandboxSafety.ScriptToIsPrefix | nicos-sandbox-helper.c:126-165 | The calls up to any phase are a prefix of the full script of a successful run. |
| SandboxSafety.DriveConsistent | nicos-sandbox-helper.c:126-165 | From any consistent state the machine halts in a well-formed state. The trace is a prefix of the script and the run stopped at its first failure. An exec outcome means the full script ran. |
| SandboxSafety.SetupHaltsWell | nicos-sandbox-helper.c:123-165 | Every run with enough operands ends in a well-formed halted state. |
| SandboxSafety.DriveReachesExec | nicos-sandbox-helper.c:126-165 | When every call and both id checks succeed, the run makes exactly the scripted calls and execs the binary with its arguments. |
| SandboxSafety.ScriptLayout | nicos-sandbox-helper.c:126-165 | The script of a successful run is: unshare, make-private, bind, the remounts, chdir, chroot, setgid, setuid, exec. |
| SandboxSafety.ScriptPositions | nicos-sandbox-helper.c:126-165 | In the script, unshare is first and every mount lies between it and the chdir. Chdir and chroot come next, and the identity changes come only after them. |
| Guarantees.RunFollowsScript | nicos-sandbox-helper.c:126-165 | The calls of any run are the scripted calls, in order, cut off where the run stopped. |
| Guarantees.HaltsAtFirstFailure | nicos-sandbox-helper.c:126-165 | Every call but the last let the run continue. A run that failed because of a call ends with that call, and the reported failure names that kind of call (`Sandbox.Blames`). A run that failed on the mount list or an id made no failing call. |
| Guarantees.UnshareComesFirst | nicos-sandbox-helper.c:127-137 | Every mount call in a run comes after a successful unshare of exactly the mount, network and IPC namespaces. |
| Guarantees.MountsComeBeforeJail | nicos-sandbox-helper.c:132-148 | Every mount call in a run comes before its chdir and its chroot. |
| Guarantees.ChrootComesBeforeIdentity | nicos-sandbox-helper.c:147-160 | Every setgid or setuid in a run comes after a successful chroot into argv[1]. |
| Guarantees.SetGidComesBeforeSetUid | nicos-sandbox-helper.c:154-160 | Every setuid in a run comes after a successful setgid. |
| Guarantees.ExecIff | nicos-sandbox-helper.c:123-165 | The helper execs iff it has its operands, every privileged call before the exec succeeds, except remounts that fail with EACCES, EINVAL, ESTALE or EPERM. Both ids must also parse and execvp must succeed. |
| Guarantees.ExecTrace | nicos-sandbox-helper.c:126-165 | A run that execs made exactly unshare, make-private, bind, the remounts for the new root, chdir, chroot, setgid with the parsed gid, setuid with the parsed uid and execvp, in that order. Every call succeeded except remounts that failed with a tolerated errno. |
| Guarantees.ExecPassesArguments | nicos-sandbox-helper.c:164 | The exec runs argv[4] with the argument vector argv[4..], unchanged, as the last call of the run. |
| Guarantees.IdentityFromOperands | nicos-sandbox-helper.c:151-160 | setgid receives the parsed third operand and setuid the parsed second operand. |
| Guarantees.BadGidStopsBeforeIdentity | nicos-sandbox-helper.c:147-153 | An unparsable gid stops the run right after a successful chroot, before any identity change. |
| Guarantees.BadUidStopsBeforeSetUid | nicos-sandbox-helper.c:151-159 | An unparsable uid stops the run right after a successful setgid with the parsed gid, before any setuid. |
| Guarantees.RemountsFollowPlan | nicos-sandbox-helper.c:136-140 | Every mount a run makes after the bind mount is the remount the plan for the new root holds at that position, in mount-table order. |
| Guarantees.MountListStopRemountsNothing | nicos-sandbox-helper.c:75-78 | A run that cannot read the mount table has made exactly the unshare, make-private and bind calls, none of them a remount. |

## Left out

- The effect of each system call on the machine (namespaces, mount propagation, the root directory, credentials) is not modelled. A call is described only by its arguments and the answer it got, and the answers come from the `Oracle` parameter.
- How getmntent and hasmntopt read `/proc/self/mounts` is not modelled. A table row is given already split into directory, type and option set. Octal escapes in names and the substring matching of hasmntopt are left out.
- CText.StrToL: does not clamp out-of-range values to LONG_MIN or LONG_MAX, and does not set ERANGE. Integers are unbounded, so an out-of-range id text yields its exact value. Its own contract states only where the scan may stop; the value and the start of the digit run are stated by `CText.StrToLReadsNumber`, `CText.StrToLLongest` and `CText.StrToLIff`.
- Guarantees.IdentityFromOperands: the id reaches setgid and setuid as an unbounded integer. The conversion from `long` to `gid_t`/`uid_t` (32-bit truncation) is not modelled; the kernel's answer to any id comes from the oracle.
- The diagnostics printed by `err`/`errx` and the exit status 1 are not modelled; a failing run ends in `Fatal(failure)` naming the step. The message for a bad user id quotes argv[3] (the gid operand) instead of argv[2]. This affects only the message text.
- execvp's PATH search and the replacement of the process image are one call whose answer comes from the oracle.
- The integer flag word is modelled as a set of flags. `MountFlags.BitsDisjoint` records that each flag is a single bit and distinct flags have disjoint bits, which is why the set loses nothing. The OR-encoding itself and its injectivity are not carried through the proofs.
- Strings are the characters before the terminating NUL, so embedded NUL bytes cannot occur. strtol's locale is the C locale.
- The `endmntent` call and the unreachable `return 1` after a successful exec have no observable effect in the model and are left out.
