/**
 What every run of the helper guarantees, whatever the kernel answers: the calls it makes
 are a prefix of one fixed script, it stops at the first fatal failure, and the security
 orderings hold (unshare before any mount, chroot before any identity change, setgid
 before setuid).
 */
module SandboxSafety {
  import opened Wrappers
  import opened CText
  import opened Kernel
  import opened ReadOnly
  import opened Sandbox

  // ---------------------------------------------------------------------------
  // The script of a run in which no failure is fatal
  // ---------------------------------------------------------------------------

  /** The mount table rows the remount loop walks (none if the table cannot be read). */
  function Rows(k: Oracle): seq<MountRow> {
    k.mountTable.GetOr([])
  }

  /** The calls a run has made once it reaches phase `p`, if no failure on the way was fatal.
      The ids given to setgid and setuid are the parsed arguments; a run only reaches
      those calls after parsing succeeds, so the fallback 0 never shows in a real trace. */
  function ScriptTo(inv: Invocation, k: Oracle, p: Phase): seq<Attempt>
    decreases Rank(p)
  {
    match p
    case Start => []
    case Isolated => [Attempt(UnshareOp(), k.unshare)]
    case Privatised => ScriptTo(inv, k, Isolated) + [Attempt(MakePrivateOp(), k.makePrivate)]
    case Bound => ScriptTo(inv, k, Privatised) + [Attempt(BindOp(inv.root), k.bindRoot)]
    case ReadOnlyDone => ScriptTo(inv, k, Bound) + Schedule(inv.root, Rows(k))
    case InRoot => ScriptTo(inv, k, ReadOnlyDone) + [Attempt(Chdir(inv.root), k.chdir)]
    case Jailed => ScriptTo(inv, k, InRoot) + [Attempt(Chroot(inv.root), k.chroot)]
    case GroupDropped => ScriptTo(inv, k, Jailed) + [Attempt(SetGid(ParseId(inv.gid).GetOr(0)), k.setgid)]
    case UserDropped => ScriptTo(inv, k, GroupDropped) + [Attempt(SetUid(ParseId(inv.uid).GetOr(0)), k.setuid)]
  }

  /** Every call of a complete run, ending with the exec. */
  function Script(inv: Invocation, k: Oracle): seq<Attempt> {
    ScriptTo(inv, k, UserDropped) + [Attempt(ExecVP(inv.binary, inv.execArgs), k.execvp)]
  }

  /** The kernel answers that let the run get past phase `p`'s predecessors. */
  predicate Cleared(inv: Invocation, k: Oracle, p: Phase) {
    && (Rank(p) >= 1 ==> k.unshare.Ok?)
    && (Rank(p) >= 2 ==> k.makePrivate.Ok?)
    && (Rank(p) >= 3 ==> k.bindRoot.Ok?)
    && (Rank(p) >= 4 ==> k.mountTable.Some? && AllProceed(Schedule(inv.root, Rows(k))))
    && (Rank(p) >= 5 ==> k.chdir.Ok?)
    && (Rank(p) >= 6 ==> k.chroot.Ok?)
    && (Rank(p) >= 7 ==> ParseId(inv.gid).Some? && k.setgid.Ok?)
    && (Rank(p) >= 8 ==> ParseId(inv.uid).Some? && k.setuid.Ok?)
  }

  /** Nothing stands in the way of the exec succeeding. */
  predicate AllClear(inv: Invocation, k: Oracle) {
    Cleared(inv, k, UserDropped) && k.execvp.Ok?
  }

  // ---------------------------------------------------------------------------
  // The run invariant
  // ---------------------------------------------------------------------------

  /** All attempts but the last let the run carry on. */
  predicate AllButLastProceed(t: seq<Attempt>) {
    |t| > 0 ==> AllProceed(t[..|t| - 1])
  }

  /** What a finished run looks like. */
  predicate HaltedWell(inv: Invocation, k: Oracle, t: seq<Attempt>, o: Outcome) {
    && t <= Script(inv, k)
    && AllButLastProceed(t)
    && o != Fatal(Usage)
    && (o.Exec? ==> t == Script(inv, k) && AllClear(inv, k) && o == Exec(inv.binary, inv.execArgs))
    && (o.Fatal? && FromCall(o.failure) ==> EndsAtFirstFatal(t) && Blames(o.failure, t[|t| - 1].op))
    && (o == Fatal(MountList) ==> k.mountTable.None? && t == ScriptTo(inv, k, Bound) && Cleared(inv, k, Bound) && AllProceed(t))
    && (o == Fatal(BadGid) ==> ParseId(inv.gid).None? && t == ScriptTo(inv, k, Jailed) && Cleared(inv, k, Jailed) && AllProceed(t))
    && (o == Fatal(BadUid) ==> ParseId(inv.uid).None? && t == ScriptTo(inv, k, GroupDropped) && Cleared(inv, k, GroupDropped) && AllProceed(t))
    && (|t| > |ScriptTo(inv, k, Jailed)| ==> ParseId(inv.gid).Some?)
    && (|t| > |ScriptTo(inv, k, GroupDropped)| ==> ParseId(inv.uid).Some?)
  }

  /** The invariant of the machine: a running machine has made exactly the scripted calls
      up to its phase, all of which let it carry on. */
  predicate Consistent(inv: Invocation, k: Oracle, m: Machine) {
    match m
    case Running(p, t) => t == ScriptTo(inv, k, p) && AllProceed(t) && Cleared(inv, k, p)
    case Halted(t, o) => HaltedWell(inv, k, t, o)
  }

  // ---------------------------------------------------------------------------
  // Facts about the script
  // ---------------------------------------------------------------------------

  lemma PrefixTrans(a: seq<Attempt>, b: seq<Attempt>, c: seq<Attempt>)
    requires a <= b && b <= c
    ensures a <= c
  {
    assert c[..|b|][..|a|] == c[..|a|];
  }

  lemma AllProceedAppend(a: seq<Attempt>, b: seq<Attempt>)
    ensures AllProceed(a + b) <==> AllProceed(a) && AllProceed(b)
  {
    assert forall i :: 0 <= i < |a| ==> (a + b)[i] == a[i];
    assert forall i :: 0 <= i < |b| ==> (a + b)[|a| + i] == b[i];
  }

  /** A script prefix extended by the call that failed first ends at that failure. */
  lemma EndsAtFirstFatalAppend(a: seq<Attempt>, b: seq<Attempt>)
    requires AllProceed(a) && EndsAtFirstFatal(b)
    ensures EndsAtFirstFatal(a + b)
  {
    assert (a + b)[|a + b| - 1] == b[|b| - 1];
    assert (a + b)[..|a + b| - 1] == a + b[..|b| - 1];
    AllProceedAppend(a, b[..|b| - 1]);
  }

  /** The calls up to any phase are a prefix of the whole script. */
  lemma {:induction false} ScriptToIsPrefix(inv: Invocation, k: Oracle, p: Phase)
    ensures ScriptTo(inv, k, p) <= Script(inv, k)
    decreases 8 - Rank(p)
  {
    match p
    case Start =>
    case Isolated => ScriptToIsPrefix(inv, k, Privatised);
    case Privatised => ScriptToIsPrefix(inv, k, Bound);
    case Bound => ScriptToIsPrefix(inv, k, ReadOnlyDone);
    case ReadOnlyDone => ScriptToIsPrefix(inv, k, InRoot);
    case InRoot => ScriptToIsPrefix(inv, k, Jailed);
    case Jailed => ScriptToIsPrefix(inv, k, GroupDropped);
    case GroupDropped => ScriptToIsPrefix(inv, k, UserDropped);
    case UserDropped =>
  }

  // ---------------------------------------------------------------------------
  // The machine keeps the invariant
  // ---------------------------------------------------------------------------

  /** A scripted call made from phase `p` that succeeded leads to `next` consistently;
      one that failed halts the run consistently. */
  lemma CallConsistent(inv: Invocation, k: Oracle, p: Phase, next: Phase, a: Attempt, f: Failure)
    requires ScriptTo(inv, k, p) + [a] == ScriptTo(inv, k, next)
    requires AllProceed(ScriptTo(inv, k, p)) && Cleared(inv, k, p)
    requires Rank(next) == Rank(p) + 1 && Rank(next) <= 6
    requires a.result.Ok? ==> Cleared(inv, k, next)
    requires !IsRemount(a.op) && FromCall(f) && Blames(f, a.op)
    ensures Consistent(inv, k, Call(ScriptTo(inv, k, p), a, next, f))
  {
    var t := ScriptTo(inv, k, p);
    if a.result.Ok? {
      AllProceedAppend(t, [a]);
    } else {
      ScriptToGrows(inv, k, next, Jailed);
      FailedCallHalts(inv, k, p, next, a, f);
    }
  }

  /** Later phases have made at least as many calls. */
  lemma {:induction false} ScriptToGrows(inv: Invocation, k: Oracle, p: Phase, q: Phase)
    requires Rank(p) <= Rank(q)
    ensures ScriptTo(inv, k, p) <= ScriptTo(inv, k, q)
    decreases Rank(q)
  {
    if Rank(p) < Rank(q) {
      var q' := match q
        case Isolated => Start
        case Privatised => Isolated
        case Bound => Privatised
        case ReadOnlyDone => Bound
        case InRoot => ReadOnlyDone
        case Jailed => InRoot
        case GroupDropped => Jailed
        case UserDropped => GroupDropped;
      ScriptToGrows(inv, k, p, q');
      PrefixTrans(ScriptTo(inv, k, p), ScriptTo(inv, k, q'), ScriptTo(inv, k, q));
    }
  }

  /** A halted run whose calls are the script up to `p` extended by one failed call. */
  lemma FailedCallHalts(inv: Invocation, k: Oracle, p: Phase, next: Phase, a: Attempt, f: Failure)
    requires ScriptTo(inv, k, p) + [a] == ScriptTo(inv, k, next)
    requires AllProceed(ScriptTo(inv, k, p))
    requires !Proceeds(a) && FromCall(f) && Blames(f, a.op)
    requires |ScriptTo(inv, k, next)| > |ScriptTo(inv, k, Jailed)| ==> ParseId(inv.gid).Some?
    requires |ScriptTo(inv, k, next)| > |ScriptTo(inv, k, GroupDropped)| ==> ParseId(inv.uid).Some?
    ensures HaltedWell(inv, k, ScriptTo(inv, k, next), Fatal(f))
  {
    var t := ScriptTo(inv, k, p);
    ScriptToIsPrefix(inv, k, next);
    assert (t + [a])[..|t|] == t;
    assert (t + [a])[|t|] == a;
  }

  /** Each transition keeps the invariant. */
  lemma StepConsistent(inv: Invocation, k: Oracle, p: Phase)
    requires AllProceed(ScriptTo(inv, k, p)) && Cleared(inv, k, p)
    ensures Consistent(inv, k, Step(inv, k, p, ScriptTo(inv, k, p)))
  {
    match p
    case Start => StartConsistent(inv, k);
    case Isolated => IsolatedConsistent(inv, k);
    case Privatised => PrivatisedConsistent(inv, k);
    case Bound =>
      if k.mountTable.Some? {
        BoundConsistent(inv, k);
      } else {
        NoMountListConsistent(inv, k);
      }
    case ReadOnlyDone => ReadOnlyDoneConsistent(inv, k);
    case InRoot => InRootConsistent(inv, k);
    case Jailed => JailedConsistent(inv, k);
    case GroupDropped => GroupDroppedConsistent(inv, k);
    case UserDropped => UserDroppedConsistent(inv, k);
  }

  lemma StartConsistent(inv: Invocation, k: Oracle)
    ensures Consistent(inv, k, Step(inv, k, Start, ScriptTo(inv, k, Start)))
  {
    CallConsistent(inv, k, Start, Isolated, Attempt(UnshareOp(), k.unshare), Namespaces);
  }

  lemma IsolatedConsistent(inv: Invocation, k: Oracle)
    requires AllProceed(ScriptTo(inv, k, Isolated)) && Cleared(inv, k, Isolated)
    ensures Consistent(inv, k, Step(inv, k, Isolated, ScriptTo(inv, k, Isolated)))
  {
    CallConsistent(inv, k, Isolated, Privatised, Attempt(MakePrivateOp(), k.makePrivate), PrivateMounts);
  }

  lemma PrivatisedConsistent(inv: Invocation, k: Oracle)
    requires AllProceed(ScriptTo(inv, k, Privatised)) && Cleared(inv, k, Privatised)
    ensures Consistent(inv, k, Step(inv, k, Privatised, ScriptTo(inv, k, Privatised)))
  {
    CallConsistent(inv, k, Privatised, Bound, Attempt(BindOp(inv.root), k.bindRoot), BindMount);
  }

  lemma ReadOnlyDoneConsistent(inv: Invocation, k: Oracle)
    requires AllProceed(ScriptTo(inv, k, ReadOnlyDone)) && Cleared(inv, k, ReadOnlyDone)
    ensures Consistent(inv, k, Step(inv, k, ReadOnlyDone, ScriptTo(inv, k, ReadOnlyDone)))
  {
    CallConsistent(inv, k, ReadOnlyDone, InRoot, Attempt(Chdir(inv.root), k.chdir), ChdirFailed);
  }

  lemma InRootConsistent(inv: Invocation, k: Oracle)
    requires AllProceed(ScriptTo(inv, k, InRoot)) && Cleared(inv, k, InRoot)
    ensures Consistent(inv, k, Step(inv, k, InRoot, ScriptTo(inv, k, InRoot)))
  {
    CallConsistent(inv, k, InRoot, Jailed, Attempt(Chroot(inv.root), k.chroot), ChrootFailed);
  }

  lemma NoMountListConsistent(inv: Invocation, k: Oracle)
    requires AllProceed(ScriptTo(inv, k, Bound)) && Cleared(inv, k, Bound)
    requires k.mountTable.None?
    ensures Consistent(inv, k, Step(inv, k, Bound, ScriptTo(inv, k, Bound)))
  {
    var t := ScriptTo(inv, k, Bound);
    assert Step(inv, k, Bound, t) == Halted(t, Fatal(MountList)) by {
      assert t + [] == t;
    }
    ScriptToIsPrefix(inv, k, Bound);
    ScriptToGrows(inv, k, Bound, Jailed);
    ProceedingButLast(t);
  }

  /** A sequence whose calls all proceed in particular proceeds up to its last call. */
  lemma ProceedingButLast(t: seq<Attempt>)
    requires AllProceed(t)
    ensures AllButLastProceed(t)
  {
    if |t| > 0 {
      assert forall i :: 0 <= i < |t| - 1 ==> t[..|t| - 1][i] == t[i];
    }
  }

  lemma BoundConsistent(inv: Invocation, k: Oracle)
    requires AllProceed(ScriptTo(inv, k, Bound)) && Cleared(inv, k, Bound)
    requires k.mountTable.Some?
    ensures Consistent(inv, k, Step(inv, k, Bound, ScriptTo(inv, k, Bound)))
  {
    var t := ScriptTo(inv, k, Bound);
    var rows := k.mountTable.value;
    var pass := RemountLoop(inv.root, rows);
    assert t + Schedule(inv.root, rows) == ScriptTo(inv, k, ReadOnlyDone);
    RemountLoopCompletes(inv.root, rows);
    if pass.status == Completed {
      assert Step(inv, k, Bound, t) == Running(ReadOnlyDone, ScriptTo(inv, k, ReadOnlyDone));
      AllProceedAppend(t, pass.attempts);
    } else {
      assert Step(inv, k, Bound, t) == Halted(t + pass.attempts, Fatal(RemountFailed));
      FatalRemountHalts(inv, k, pass.attempts);
    }
  }

  lemma FatalRemountHalts(inv: Invocation, k: Oracle, attempts: seq<Attempt>)
    requires AllProceed(ScriptTo(inv, k, Bound)) && k.mountTable.Some?
    requires attempts == RemountLoop(inv.root, k.mountTable.value).attempts
    requires RemountLoop(inv.root, k.mountTable.value).status == FatalRemount
    ensures HaltedWell(inv, k, ScriptTo(inv, k, Bound) + attempts, Fatal(RemountFailed))
  {
    var t := ScriptTo(inv, k, Bound);
    var rows := k.mountTable.value;
    RemountLoopStops(inv.root, rows);
    EndsAtFirstFatalAppend(t, attempts);
    PrefixAppend(t, attempts, Schedule(inv.root, rows));
    assert t + Schedule(inv.root, rows) == ScriptTo(inv, k, ReadOnlyDone);
    ScriptToGrows(inv, k, ReadOnlyDone, Jailed);
    PrefixTrans(t + attempts, ScriptTo(inv, k, ReadOnlyDone), ScriptTo(inv, k, Jailed));
    ScheduleAllRemount(inv.root, rows);
    EndsWithRemount(t, attempts, Schedule(inv.root, rows));
    FailedPrefixHalts(inv, k, t + attempts, RemountFailed);
  }

  /** A non-empty prefix of a sequence of remounts, appended to any calls, ends with a remount. */
  lemma EndsWithRemount(t: seq<Attempt>, a: seq<Attempt>, b: seq<Attempt>)
    requires a <= b && |a| > 0
    requires forall k :: 0 <= k < |b| ==> IsRemount(b[k].op)
    ensures IsRemount((t + a)[|t + a| - 1].op)
  {
    assert (t + a)[|t + a| - 1] == b[|a| - 1];
  }

  lemma PrefixAppend(t: seq<Attempt>, a: seq<Attempt>, b: seq<Attempt>)
    requires a <= b
    ensures t + a <= t + b
  {
    assert (t + b)[..|t + a|] == t + b[..|a|];
  }

  /** A run that stops at its first failing call before the identity changes is well-formed. */
  lemma FailedPrefixHalts(inv: Invocation, k: Oracle, t: seq<Attempt>, f: Failure)
    requires t <= ScriptTo(inv, k, Jailed) && EndsAtFirstFatal(t) && FromCall(f)
    requires Blames(f, t[|t| - 1].op)
    ensures HaltedWell(inv, k, t, Fatal(f))
  {
    ScriptToIsPrefix(inv, k, Jailed);
    PrefixTrans(t, ScriptTo(inv, k, Jailed), Script(inv, k));
    ScriptToGrows(inv, k, Jailed, GroupDropped);
  }

  lemma UserDroppedConsistent(inv: Invocation, k: Oracle)
    requires AllProceed(ScriptTo(inv, k, UserDropped)) && Cleared(inv, k, UserDropped)
    ensures Consistent(inv, k, Step(inv, k, UserDropped, ScriptTo(inv, k, UserDropped)))
  {
    var t := ScriptTo(inv, k, UserDropped);
    var a := Attempt(ExecVP(inv.binary, inv.execArgs), k.execvp);
    assert t + [a] == Script(inv, k);
    ScriptToGrows(inv, k, GroupDropped, UserDropped);
    AllProceedAppend(t, [a]);
    assert (t + [a])[..|t|] == t;
  }

  lemma JailedConsistent(inv: Invocation, k: Oracle)
    requires AllProceed(ScriptTo(inv, k, Jailed)) && Cleared(inv, k, Jailed)
    ensures Consistent(inv, k, Step(inv, k, Jailed, ScriptTo(inv, k, Jailed)))
  {
    var t := ScriptTo(inv, k, Jailed);
    ScriptToIsPrefix(inv, k, Jailed);
    ScriptToIsPrefix(inv, k, GroupDropped);
    if ParseId(inv.gid).Some? {
      var a := Attempt(SetGid(ParseId(inv.gid).value), k.setgid);
      assert t + [a] == ScriptTo(inv, k, GroupDropped);
      if k.setgid.Ok? {
        AllProceedAppend(t, [a]);
      } else {
        FailedCallHalts(inv, k, Jailed, GroupDropped, a, SetGidFailed);
      }
    } else {
      ProceedingButLast(t);
    }
  }

  lemma GroupDroppedConsistent(inv: Invocation, k: Oracle)
    requires AllProceed(ScriptTo(inv, k, GroupDropped)) && Cleared(inv, k, GroupDropped)
    ensures Consistent(inv, k, Step(inv, k, GroupDropped, ScriptTo(inv, k, GroupDropped)))
  {
    if ParseId(inv.uid).Some? {
      SetUidConsistent(inv, k);
    } else {
      BadUidHalts(inv, k);
    }
  }

  lemma SetUidConsistent(inv: Invocation, k: Oracle)
    requires AllProceed(ScriptTo(inv, k, GroupDropped)) && Cleared(inv, k, GroupDropped)
    requires ParseId(inv.uid).Some?
    ensures Consistent(inv, k, Step(inv, k, GroupDropped, ScriptTo(inv, k, GroupDropped)))
  {
    var t := ScriptTo(inv, k, GroupDropped);
    var a := Attempt(SetUid(ParseId(inv.uid).value), k.setuid);
    assert t + [a] == ScriptTo(inv, k, UserDropped);
    if k.setuid.Ok? {
      AllProceedAppend(t, [a]);
    } else {
      ScriptToIsPrefix(inv, k, UserDropped);
      ScriptToGrows(inv, k, Jailed, GroupDropped);
      FailedCallHalts(inv, k, GroupDropped, UserDropped, a, SetUidFailed);
    }
  }

  lemma BadUidHalts(inv: Invocation, k: Oracle)
    requires AllProceed(ScriptTo(inv, k, GroupDropped)) && Cleared(inv, k, GroupDropped)
    requires ParseId(inv.uid).None?
    ensures Consistent(inv, k, Step(inv, k, GroupDropped, ScriptTo(inv, k, GroupDropped)))
  {
    var t := ScriptTo(inv, k, GroupDropped);
    assert Step(inv, k, GroupDropped, t) == Halted(t, Fatal(BadUid));
    ScriptToIsPrefix(inv, k, GroupDropped);
    ScriptToGrows(inv, k, Jailed, GroupDropped);
    ProceedingButLast(t);
  }

  /** Running the machine to the end keeps the invariant. */
  lemma {:induction false} DriveConsistent(inv: Invocation, k: Oracle, m: Machine)
    requires Consistent(inv, k, m)
    ensures Consistent(inv, k, Drive(inv, k, m))
    decreases Remaining(m)
  {
    if m.Running? {
      StepConsistent(inv, k, m.phase);
      DriveConsistent(inv, k, Step(inv, k, m.phase, m.trace));
    }
  }

  /** Every run with enough operands ends in a well-formed halted state. */
  lemma SetupHaltsWell(argv: seq<string>, k: Oracle)
    requires |argv| >= 5
    ensures HaltedWell(InvocationOf(argv), k, Setup(argv, k).trace, Setup(argv, k).outcome)
  {
    DriveConsistent(InvocationOf(argv), k, Running(Start, []));
  }

  /** When every remount proceeds, the remount phase completes with the scheduled calls. */
  lemma ClearRemountStep(inv: Invocation, k: Oracle)
    requires AllClear(inv, k)
    ensures Step(inv, k, Bound, ScriptTo(inv, k, Bound)) == Running(ReadOnlyDone, ScriptTo(inv, k, ReadOnlyDone))
  {
    RemountLoopCompletes(inv.root, k.mountTable.value);
  }

  /** The phase after `p`. */
  function Next(p: Phase): (q: Phase)
    requires p != UserDropped
    ensures Rank(q) == Rank(p) + 1
  {
    match p
    case Start => Isolated
    case Isolated => Privatised
    case Privatised => Bound
    case Bound => ReadOnlyDone
    case ReadOnlyDone => InRoot
    case InRoot => Jailed
    case Jailed => GroupDropped
    case GroupDropped => UserDropped
  }

  /** When no answer is fatal, each step makes the next scripted call and moves one phase on. */
  lemma ClearStep(inv: Invocation, k: Oracle, p: Phase)
    requires AllClear(inv, k) && p != UserDropped
    ensures Step(inv, k, p, ScriptTo(inv, k, p)) == Running(Next(p), ScriptTo(inv, k, Next(p)))
  {
    if p == Bound {
      ClearRemountStep(inv, k);
    }
  }

  /** When no answer is fatal, the machine runs from any phase to the exec through the script. */
  lemma {:induction false} DriveReachesExec(inv: Invocation, k: Oracle, p: Phase)
    requires AllClear(inv, k)
    ensures Drive(inv, k, Running(p, ScriptTo(inv, k, p))) == Halted(Script(inv, k), Exec(inv.binary, inv.execArgs))
    decreases 8 - Rank(p)
  {
    if p != UserDropped {
      ClearStep(inv, k, p);
      DriveReachesExec(inv, k, Next(p));
    }
  }

  // ---------------------------------------------------------------------------
  // Where each kind of call sits in the script
  // ---------------------------------------------------------------------------

  /** The script spelled out: three setup calls, the remounts, then chdir, chroot,
      setgid, setuid and exec. */
  lemma ScriptLayout(inv: Invocation, k: Oracle)
    ensures Script(inv, k) ==
      [Attempt(UnshareOp(), k.unshare), Attempt(MakePrivateOp(), k.makePrivate), Attempt(BindOp(inv.root), k.bindRoot)]
      + Schedule(inv.root, Rows(k))
      + [Attempt(Chdir(inv.root), k.chdir), Attempt(Chroot(inv.root), k.chroot),
         Attempt(SetGid(ParseId(inv.gid).GetOr(0)), k.setgid), Attempt(SetUid(ParseId(inv.uid).GetOr(0)), k.setuid),
         Attempt(ExecVP(inv.binary, inv.execArgs), k.execvp)]
    ensures |ScriptTo(inv, k, Jailed)| == |Schedule(inv.root, Rows(k))| + 5
    ensures |ScriptTo(inv, k, GroupDropped)| == |Schedule(inv.root, Rows(k))| + 6
  {
    var pre := [Attempt(UnshareOp(), k.unshare), Attempt(MakePrivateOp(), k.makePrivate), Attempt(BindOp(inv.root), k.bindRoot)];
    var mid := Schedule(inv.root, Rows(k));
    assert ScriptTo(inv, k, Bound) == pre;
    var c1 := Attempt(Chdir(inv.root), k.chdir);
    var c2 := Attempt(Chroot(inv.root), k.chroot);
    var c3 := Attempt(SetGid(ParseId(inv.gid).GetOr(0)), k.setgid);
    var c4 := Attempt(SetUid(ParseId(inv.uid).GetOr(0)), k.setuid);
    var c5 := Attempt(ExecVP(inv.binary, inv.execArgs), k.execvp);
    assert ScriptTo(inv, k, Jailed) == pre + mid + [c1] + [c2];
    assert ScriptTo(inv, k, UserDropped) == pre + mid + [c1] + [c2] + [c3] + [c4];
    assert pre + mid + [c1] + [c2] + [c3] + [c4] + [c5] == pre + mid + [c1, c2, c3, c4, c5];
  }

  /** Where each kind of call may sit in a sequence of calls of length n + 3: unshare
      first, mounts strictly between it and the chdir at n - 2, chroot at n - 1, then
      setgid at n, setuid at n + 1 and exec at n + 2, the only identity changes. */
  predicate Positioned(s: seq<Attempt>, n: nat) {
    && |s| == n + 3 && n >= 5
    && s[0].op.Unshare?
    && s[n - 2].op.Chdir? && s[n - 1].op.Chroot?
    && s[n].op.SetGid? && s[n + 1].op.SetUid? && s[n + 2].op.ExecVP?
    && (forall i :: 0 <= i < |s| && s[i].op.Mount? ==> 0 < i < n - 2)
    && (forall i :: 0 <= i < |s| && (s[i].op.Chdir? || s[i].op.Chroot?) ==> n - 2 <= i < n)
    && (forall i :: 0 <= i < |s| && IsIdentityChange(s[i].op) ==> n <= i < n + 2)
  }

  /** Three setup calls, then remounts, then the five calls that enter the root and
      drop privileges, are positioned as the script requires. */
  lemma LayoutPositioned(pre: seq<Attempt>, mid: seq<Attempt>, post: seq<Attempt>)
    requires |pre| == 3 && pre[0].op.Unshare? && pre[1].op.Mount? && pre[2].op.Mount?
    requires forall i :: 0 <= i < |mid| ==> IsRemount(mid[i].op)
    requires |post| == 5 && post[0].op.Chdir? && post[1].op.Chroot?
    requires post[2].op.SetGid? && post[3].op.SetUid? && post[4].op.ExecVP?
    ensures Positioned(pre + mid + post, |mid| + 5)
  {
    var s := pre + mid + post;
    var m := |mid|;
    assert forall i :: 0 <= i < 3 ==> s[i] == pre[i];
    assert forall i :: 3 <= i < 3 + m ==> s[i] == mid[i - 3];
    assert forall i :: 3 + m <= i < |s| ==> s[i] == post[i - 3 - m];
  }

  /** The script is positioned, with n the number of calls up to and including chroot;
      the calls at the fixed positions are the scripted ones. */
  lemma ScriptPositions(inv: Invocation, k: Oracle)
    ensures var s, n := Script(inv, k), |ScriptTo(inv, k, Jailed)|;
      && Positioned(s, n)
      && s[0] == Attempt(UnshareOp(), k.unshare)
      && s[n - 1] == Attempt(Chroot(inv.root), k.chroot)
      && s[n] == Attempt(SetGid(ParseId(inv.gid).GetOr(0)), k.setgid)
      && s[n + 1] == Attempt(SetUid(ParseId(inv.uid).GetOr(0)), k.setuid)
  {
    ScriptLayout(inv, k);
    ScheduleAllRemount(inv.root, Rows(k));
    var pre := [Attempt(UnshareOp(), k.unshare), Attempt(MakePrivateOp(), k.makePrivate), Attempt(BindOp(inv.root), k.bindRoot)];
    var post := [Attempt(Chdir(inv.root), k.chdir), Attempt(Chroot(inv.root), k.chroot),
         Attempt(SetGid(ParseId(inv.gid).GetOr(0)), k.setgid), Attempt(SetUid(ParseId(inv.uid).GetOr(0)), k.setuid),
         Attempt(ExecVP(inv.binary, inv.execArgs), k.execvp)];
    var mid := Schedule(inv.root, Rows(k));
    LayoutPositioned(pre, mid, post);
    var s := pre + mid + post;
    var n := |mid| + 5;
    assert s[0] == pre[0];
    assert s[n - 1] == post[1] && s[n] == post[2] && s[n + 1] == post[3];
  }
}
