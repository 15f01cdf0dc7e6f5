/**
 main: check the argument count, then build the sandbox one privileged step at a time
 (unshare, make mounts private, bind the root, remount read-only, chdir, chroot,
 setgid, setuid) and exec the target. Every step's result comes from an oracle; the
 first fatal failure ends the run. The run is a forward-only machine over phases.
 */
module Sandbox {
  import opened Wrappers
  import opened MountFlags
  import opened CText
  import opened Kernel
  import opened ReadOnly

  /** The operands of `helper rootdir uid gid binary [args...]`; `execArgs` is argv[4..],
      the vector handed to the new program, whose first element is the binary name. */
  datatype Invocation = Invocation(root: string, uid: string, gid: string, binary: string, execArgs: seq<string>)

  /** The operands of an argument vector that has at least four of them. */
  function InvocationOf(argv: seq<string>): (inv: Invocation)
    requires |argv| >= 5
    ensures |inv.execArgs| > 0 && inv.execArgs[0] == inv.binary
  {
    Invocation(argv[1], argv[2], argv[3], argv[4], argv[4..])
  }

  /** What the kernel answers to each call of one run. `mountTable` is None when the mount
      list cannot be opened; each row carries the answer to its own remount. */
  datatype Oracle = Oracle(
    unshare: SysResult,
    makePrivate: SysResult,
    bindRoot: SysResult,
    mountTable: Option<seq<MountRow>>,
    chdir: SysResult,
    chroot: SysResult,
    setgid: SysResult,
    setuid: SysResult,
    execvp: SysResult)

  /** The step a failed run stopped at. */
  datatype Failure =
    | Usage
    | Namespaces
    | PrivateMounts
    | BindMount
    | MountList
    | RemountFailed
    | ChdirFailed
    | ChrootFailed
    | BadGid
    | SetGidFailed
    | BadUid
    | SetUidFailed
    | ExecFailed

  /** The failure is a system call's error (not a bad argument or a missing mount list). */
  predicate FromCall(f: Failure) {
    !(f.Usage? || f.MountList? || f.BadGid? || f.BadUid?)
  }

  /** How a run ends: the process image is replaced, or the helper exits with an error. */
  datatype Outcome = Exec(file: string, argv: seq<string>) | Fatal(failure: Failure)

  /** The stages of sandbox construction, each named after what has been achieved. */
  datatype Phase =
    | Start
    | Isolated      // new mount, network and IPC namespaces
    | Privatised    // mount tree no longer propagates
    | Bound         // host root bind-mounted at the new root
    | ReadOnlyDone  // mounts under the new root remounted read-only
    | InRoot        // working directory is the new root
    | Jailed        // filesystem root is the new root
    | GroupDropped  // group id changed
    | UserDropped   // user id changed

  function Rank(p: Phase): nat {
    match p
    case Start => 0
    case Isolated => 1
    case Privatised => 2
    case Bound => 3
    case ReadOnlyDone => 4
    case InRoot => 5
    case Jailed => 6
    case GroupDropped => 7
    case UserDropped => 8
  }

  /** A run in progress at some phase, or finished, with the calls made so far. */
  datatype Machine = Running(phase: Phase, trace: seq<Attempt>) | Halted(trace: seq<Attempt>, outcome: Outcome)

  const NamespaceFlags: set<CloneFlag> := {NewNs, NewNet, NewIpc}

  /** unshare(CLONE_NEWNS | CLONE_NEWNET | CLONE_NEWIPC) */
  function UnshareOp(): Op {
    Unshare(NamespaceFlags)
  }

  /** mount(NULL, "/", NULL, MS_REC | MS_PRIVATE, NULL) */
  function MakePrivateOp(): Op {
    Mount(None, "/", {Rec, Private})
  }

  /** mount("/", root, NULL, MS_BIND | MS_REC, NULL) */
  function BindOp(root: string): Op {
    Mount(Some("/"), root, {Bind, Rec})
  }

  /** Make call `a`: carry on to `next` if it succeeded, stop with `failure` if not. */
  function Call(trace: seq<Attempt>, a: Attempt, next: Phase, failure: Failure): Machine {
    if a.result.Ok? then Running(next, trace + [a]) else Halted(trace + [a], Fatal(failure))
  }

  /** `op` is the call whose failure the helper reports as `f`. Each label names one kind
      of call, so a failed run's label says which call it stopped at. */
  predicate Blames(f: Failure, op: Op) {
    match f
    case Namespaces => op.Unshare?
    case PrivateMounts => op == MakePrivateOp()
    case BindMount => op.Mount? && op.source == Some("/")
    case RemountFailed => IsRemount(op)
    case ChdirFailed => op.Chdir?
    case ChrootFailed => op.Chroot?
    case SetGidFailed => op.SetGid?
    case SetUidFailed => op.SetUid?
    case ExecFailed => op.ExecVP?
    case _ => false
  }

  /** One forward transition: perform the work of the phase after `phase`. */
  function Step(inv: Invocation, k: Oracle, phase: Phase, trace: seq<Attempt>): (m: Machine)
    ensures m.Running? ==> Rank(m.phase) == Rank(phase) + 1
    ensures trace <= m.trace
    ensures m.Halted? ==> m.outcome != Fatal(Usage)
  {
    match phase
    case Start => Call(trace, Attempt(UnshareOp(), k.unshare), Isolated, Namespaces)
    case Isolated => Call(trace, Attempt(MakePrivateOp(), k.makePrivate), Privatised, PrivateMounts)
    case Privatised => Call(trace, Attempt(BindOp(inv.root), k.bindRoot), Bound, BindMount)
    case Bound =>
      var pass := MakeMountsReadOnly(inv.root, k.mountTable);
      (match pass.status
       case Completed => Running(ReadOnlyDone, trace + pass.attempts)
       case NoMountList => Halted(trace + pass.attempts, Fatal(MountList))
       case FatalRemount => Halted(trace + pass.attempts, Fatal(RemountFailed)))
    case ReadOnlyDone => Call(trace, Attempt(Chdir(inv.root), k.chdir), InRoot, ChdirFailed)
    case InRoot => Call(trace, Attempt(Chroot(inv.root), k.chroot), Jailed, ChrootFailed)
    case Jailed =>
      (match ParseId(inv.gid)
       case None => Halted(trace, Fatal(BadGid))
       case Some(gid) => Call(trace, Attempt(SetGid(gid), k.setgid), GroupDropped, SetGidFailed))
    case GroupDropped =>
      (match ParseId(inv.uid)
       case None => Halted(trace, Fatal(BadUid))
       case Some(uid) => Call(trace, Attempt(SetUid(uid), k.setuid), UserDropped, SetUidFailed))
    case UserDropped =>
      var a := Attempt(ExecVP(inv.binary, inv.execArgs), k.execvp);
      if a.result.Ok? then Halted(trace + [a], Exec(inv.binary, inv.execArgs))
      else Halted(trace + [a], Fatal(ExecFailed))
  }

  function Remaining(m: Machine): nat {
    if m.Halted? then 0 else 9 - Rank(m.phase)
  }

  /** Run the machine until it halts. */
  function Drive(inv: Invocation, k: Oracle, m: Machine): (r: Machine)
    ensures r.Halted?
    ensures m.trace <= r.trace
    ensures m.Running? ==> r.outcome != Fatal(Usage)
    ensures m.Halted? ==> r == m
    decreases Remaining(m)
  {
    if m.Halted? then m
    else Drive(inv, k, Step(inv, k, m.phase, m.trace))
  }

  /** The whole helper: a usage error when fewer than four operands are given, otherwise
      the machine run from the start with an empty trace. */
  function Setup(argv: seq<string>, k: Oracle): (r: Machine)
    ensures r.Halted?
    ensures r.outcome == Fatal(Usage) <==> |argv| < 5
    ensures |argv| < 5 ==> r.trace == []
  {
    if |argv| < 5 then Halted([], Fatal(Usage))
    else Drive(InvocationOf(argv), k, Running(Start, []))
  }
}
