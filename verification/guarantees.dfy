/**
 The properties of the helper's main sequence, stated about Setup for every argument
 vector and every combination of kernel answers.
 */
module Guarantees {
  import opened Wrappers
  import opened CText
  import opened Kernel
  import opened ReadOnly
  import opened Sandbox
  import opened SandboxSafety

  // ---------------------------------------------------------------------------
  // Orderings of a trace
  // ---------------------------------------------------------------------------

  /** Every mount call comes after a successful unshare of the mount, network and IPC
      namespaces. */
  ghost predicate UnshareBeforeMounts(t: seq<Attempt>) {
    forall j :: 0 <= j < |t| && t[j].op.Mount? ==>
      exists i :: 0 <= i < j && t[i].op == UnshareOp() && t[i].result.Ok?
  }

  /** Every identity change comes after a successful chroot into `root`. */
  ghost predicate ChrootBeforeIdentity(t: seq<Attempt>, root: string) {
    forall j :: 0 <= j < |t| && IsIdentityChange(t[j].op) ==>
      exists i :: 0 <= i < j && t[i].op == Chroot(root) && t[i].result.Ok?
  }

  /** Every setuid comes after a successful setgid. */
  ghost predicate SetGidBeforeSetUid(t: seq<Attempt>) {
    forall j :: 0 <= j < |t| && t[j].op.SetUid? ==>
      exists i :: 0 <= i < j && t[i].op.SetGid? && t[i].result.Ok?
  }

  /** No mount is made once the helper has started to enter the new root. */
  ghost predicate MountsBeforeJail(t: seq<Attempt>) {
    forall i, j :: 0 <= i < |t| && 0 <= j < |t| && t[i].op.Mount? && (t[j].op.Chdir? || t[j].op.Chroot?) ==> i < j
  }

  // ---------------------------------------------------------------------------
  // Theorems about every run
  // ---------------------------------------------------------------------------

  /** The calls of a run are the scripted calls, in script order, cut off where the run stopped. */
  lemma RunFollowsScript(argv: seq<string>, k: Oracle)
    requires |argv| >= 5
    ensures Setup(argv, k).trace <= Script(InvocationOf(argv), k)
  {
    SetupHaltsWell(argv, k);
  }

  /** The run stops at the first fatal failure: every call but the last let it carry on,
      and a run that fails because of a call ends with that call, which is the call the
      reported failure names. A run that fails on a bad id or an unreadable mount list
      made no failing call at all. */
  lemma HaltsAtFirstFailure(argv: seq<string>, k: Oracle)
    ensures var r := Setup(argv, k);
      && AllButLastProceed(r.trace)
      && (r.outcome.Fatal? && FromCall(r.outcome.failure) ==>
            EndsAtFirstFatal(r.trace) && Blames(r.outcome.failure, r.trace[|r.trace| - 1].op))
      && (r.outcome.Fatal? && !FromCall(r.outcome.failure) ==> AllProceed(r.trace))
  {
    if |argv| >= 5 {
      SetupHaltsWell(argv, k);
    }
  }

  // ---------------------------------------------------------------------------
  // Orderings of any prefix of a positioned script
  // ---------------------------------------------------------------------------

  lemma UnshareFirstIn(t: seq<Attempt>, s: seq<Attempt>, n: nat)
    requires t <= s && AllButLastProceed(t) && Positioned(s, n) && s[0].op == UnshareOp()
    ensures UnshareBeforeMounts(t)
  {
    forall j | 0 <= j < |t| && t[j].op.Mount?
      ensures exists i :: 0 <= i < j && t[i].op == UnshareOp() && t[i].result.Ok?
    {
      assert t[j] == s[j] && t[0] == s[0];
      assert Proceeds(t[..|t| - 1][0]);
    }
  }

  lemma ChrootFirstIn(t: seq<Attempt>, s: seq<Attempt>, n: nat, root: string)
    requires t <= s && AllButLastProceed(t) && Positioned(s, n) && s[n - 1].op == Chroot(root)
    ensures ChrootBeforeIdentity(t, root)
  {
    forall j | 0 <= j < |t| && IsIdentityChange(t[j].op)
      ensures exists i :: 0 <= i < j && t[i].op == Chroot(root) && t[i].result.Ok?
    {
      assert t[j] == s[j] && t[n - 1] == s[n - 1];
      assert Proceeds(t[..|t| - 1][n - 1]);
    }
  }

  lemma SetGidFirstIn(t: seq<Attempt>, s: seq<Attempt>, n: nat)
    requires t <= s && AllButLastProceed(t) && Positioned(s, n)
    ensures SetGidBeforeSetUid(t)
  {
    forall j | 0 <= j < |t| && t[j].op.SetUid?
      ensures exists i :: 0 <= i < j && t[i].op.SetGid? && t[i].result.Ok?
    {
      assert t[j] == s[j] && IsIdentityChange(s[j].op);
      assert j == n + 1 && t[n] == s[n];
      assert Proceeds(t[..|t| - 1][n]);
    }
  }

  lemma MountsBeforeJailIn(t: seq<Attempt>, s: seq<Attempt>, n: nat)
    requires t <= s && Positioned(s, n)
    ensures MountsBeforeJail(t)
  {
    assert forall i :: 0 <= i < |t| ==> t[i] == s[i];
  }

  /** A prefix that stops before position n makes no identity change. */
  lemma NoIdentityWithin(t: seq<Attempt>, s: seq<Attempt>, n: nat)
    requires t <= s && |t| <= n && Positioned(s, n)
    ensures forall i :: 0 <= i < |t| ==> !IsIdentityChange(t[i].op)
  {
    assert forall i :: 0 <= i < |t| ==> t[i] == s[i];
  }

  /** A prefix that stops before position n + 1 makes no setuid. */
  lemma NoSetUidWithin(t: seq<Attempt>, s: seq<Attempt>, n: nat)
    requires t <= s && |t| <= n + 1 && Positioned(s, n)
    ensures forall i :: 0 <= i < |t| ==> !t[i].op.SetUid?
  {
    assert forall i :: 0 <= i < |t| ==> t[i] == s[i] && (s[i].op.SetUid? ==> IsIdentityChange(s[i].op));
  }

  // ---------------------------------------------------------------------------
  // The security orderings of every run
  // ---------------------------------------------------------------------------

  /** A mount call in a run is preceded by the successful unshare of the mount, network
      and IPC namespaces. */
  lemma UnshareComesFirst(argv: seq<string>, k: Oracle)
    ensures UnshareBeforeMounts(Setup(argv, k).trace)
  {
    if |argv| >= 5 {
      SetupHaltsWell(argv, k);
      ScriptPositions(InvocationOf(argv), k);
      UnshareFirstIn(Setup(argv, k).trace, Script(InvocationOf(argv), k), |ScriptTo(InvocationOf(argv), k, Jailed)|);
    }
  }

  /** An identity change in a run is preceded by the successful chroot into the new root. */
  lemma ChrootComesBeforeIdentity(argv: seq<string>, k: Oracle)
    ensures |argv| >= 5 ==> ChrootBeforeIdentity(Setup(argv, k).trace, argv[1])
  {
    if |argv| >= 5 {
      SetupHaltsWell(argv, k);
      ScriptPositions(InvocationOf(argv), k);
      ChrootFirstIn(Setup(argv, k).trace, Script(InvocationOf(argv), k), |ScriptTo(InvocationOf(argv), k, Jailed)|, argv[1]);
    }
  }

  /** A setuid in a run is preceded by a successful setgid. */
  lemma SetGidComesBeforeSetUid(argv: seq<string>, k: Oracle)
    ensures SetGidBeforeSetUid(Setup(argv, k).trace)
  {
    if |argv| >= 5 {
      SetupHaltsWell(argv, k);
      ScriptPositions(InvocationOf(argv), k);
      SetGidFirstIn(Setup(argv, k).trace, Script(InvocationOf(argv), k), |ScriptTo(InvocationOf(argv), k, Jailed)|);
    }
  }

  /** All mounts of a run happen before its chdir and chroot into the new root. */
  lemma MountsComeBeforeJail(argv: seq<string>, k: Oracle)
    ensures MountsBeforeJail(Setup(argv, k).trace)
  {
    if |argv| >= 5 {
      SetupHaltsWell(argv, k);
      ScriptPositions(InvocationOf(argv), k);
      MountsBeforeJailIn(Setup(argv, k).trace, Script(InvocationOf(argv), k), |ScriptTo(InvocationOf(argv), k, Jailed)|);
    }
  }

  // ---------------------------------------------------------------------------
  // The exec, the ids and the remounts
  // ---------------------------------------------------------------------------

  /** The helper reaches the exec exactly when it has its operands, every privileged call
      succeeds except remounts that fail with a tolerated errno (those mounts stay
      writable), both ids parse and execvp itself succeeds. */
  lemma ExecIff(argv: seq<string>, k: Oracle)
    ensures Setup(argv, k).outcome.Exec? <==> |argv| >= 5 && AllClear(InvocationOf(argv), k)
  {
    if |argv| >= 5 {
      SetupHaltsWell(argv, k);
      if AllClear(InvocationOf(argv), k) {
        DriveReachesExec(InvocationOf(argv), k, Start);
      }
    }
  }

  /** The exec runs the program named after the ids with the caller's arguments from that
      operand on, unchanged, and it is the last call of the run. */
  lemma ExecPassesArguments(argv: seq<string>, k: Oracle)
    ensures var r := Setup(argv, k);
      r.outcome.Exec? ==>
        && |argv| >= 5
        && r.outcome == Exec(argv[4], argv[4..])
        && |r.trace| > 0
        && r.trace[|r.trace| - 1] == Attempt(ExecVP(argv[4], argv[4..]), k.execvp)
  {
    if |argv| >= 5 {
      SetupHaltsWell(argv, k);
    }
  }

  /** A run that execs made exactly the nine steps in order: unshare, make-private, bind,
      the planned remounts, chdir, chroot, setgid with the parsed gid, setuid with the
      parsed uid, and the exec. Every call succeeded except remounts that failed with a
      tolerated errno. */
  lemma ExecTrace(argv: seq<string>, k: Oracle)
    ensures var r := Setup(argv, k);
      r.outcome.Exec? ==>
        && |argv| >= 5 && k.mountTable.Some? && ParseId(argv[3]).Some? && ParseId(argv[2]).Some?
        && r.trace ==
          [Attempt(UnshareOp(), Ok), Attempt(MakePrivateOp(), Ok), Attempt(BindOp(argv[1]), Ok)]
          + Schedule(argv[1], k.mountTable.value)
          + [Attempt(Chdir(argv[1]), Ok), Attempt(Chroot(argv[1]), Ok),
             Attempt(SetGid(ParseId(argv[3]).value), Ok), Attempt(SetUid(ParseId(argv[2]).value), Ok),
             Attempt(ExecVP(argv[4], argv[4..]), Ok)]
        && AllProceed(Schedule(argv[1], k.mountTable.value))
  {
    if |argv| >= 5 && Setup(argv, k).outcome.Exec? {
      SetupHaltsWell(argv, k);
      ScriptLayout(InvocationOf(argv), k);
    }
  }

  /** The ids given to setgid and setuid are the parsed third and second operands. */
  lemma IdentityFromOperands(argv: seq<string>, k: Oracle)
    ensures var t := Setup(argv, k).trace;
      forall i :: 0 <= i < |t| ==>
        && (t[i].op.SetGid? ==> |argv| >= 5 && ParseId(argv[3]) == Some(t[i].op.gid))
        && (t[i].op.SetUid? ==> |argv| >= 5 && ParseId(argv[2]) == Some(t[i].op.uid))
  {
    if |argv| >= 5 {
      var inv := InvocationOf(argv);
      var t := Setup(argv, k).trace;
      var n := |ScriptTo(inv, k, Jailed)|;
      SetupHaltsWell(argv, k);
      ScriptPositions(inv, k);
      ScriptLayout(inv, k);
      forall i | 0 <= i < |t| && (t[i].op.SetGid? || t[i].op.SetUid?)
        ensures t[i].op.SetGid? ==> ParseId(argv[3]) == Some(t[i].op.gid)
        ensures t[i].op.SetUid? ==> ParseId(argv[2]) == Some(t[i].op.uid)
      {
        assert t[i] == Script(inv, k)[i];
        assert IsIdentityChange(t[i].op);
      }
    }
  }

  /** An unparsable group id stops the run right after the chroot, before any identity change. */
  lemma BadGidStopsBeforeIdentity(argv: seq<string>, k: Oracle)
    ensures var r := Setup(argv, k);
      r.outcome == Fatal(BadGid) ==>
        && |argv| >= 5 && ParseId(argv[3]).None?
        && |r.trace| > 0 && r.trace[|r.trace| - 1] == Attempt(Chroot(argv[1]), Ok)
        && (forall i :: 0 <= i < |r.trace| ==> !IsIdentityChange(r.trace[i].op))
  {
    if |argv| >= 5 && Setup(argv, k).outcome == Fatal(BadGid) {
      var inv := InvocationOf(argv);
      var t := Setup(argv, k).trace;
      var n := |ScriptTo(inv, k, Jailed)|;
      SetupHaltsWell(argv, k);
      ScriptPositions(inv, k);
      ScriptToIsPrefix(inv, k, Jailed);
      assert t[n - 1] == Script(inv, k)[n - 1];
      NoIdentityWithin(t, Script(inv, k), n);
    }
  }

  /** An unparsable user id stops the run right after the setgid, before any setuid. */
  lemma BadUidStopsBeforeSetUid(argv: seq<string>, k: Oracle)
    ensures var r := Setup(argv, k);
      r.outcome == Fatal(BadUid) ==>
        && |argv| >= 5 && ParseId(argv[2]).None? && ParseId(argv[3]).Some?
        && |r.trace| > 0 && r.trace[|r.trace| - 1] == Attempt(SetGid(ParseId(argv[3]).value), Ok)
        && (forall i :: 0 <= i < |r.trace| ==> !r.trace[i].op.SetUid?)
  {
    if |argv| >= 5 && Setup(argv, k).outcome == Fatal(BadUid) {
      var inv := InvocationOf(argv);
      var t := Setup(argv, k).trace;
      var n := |ScriptTo(inv, k, Jailed)|;
      SetupHaltsWell(argv, k);
      ScriptPositions(inv, k);
      ScriptToIsPrefix(inv, k, GroupDropped);
      assert |t| == n + 1;
      assert t[n] == Script(inv, k)[n];
      NoSetUidWithin(t, Script(inv, k), n);
    }
  }

  /** In a prefix of three setup calls, some middle calls and then calls that are not
      mounts, every mount from position 3 on is the middle call at that offset. */
  lemma MountsInMiddle(t: seq<Attempt>, pre: seq<Attempt>, mid: seq<Attempt>, post: seq<Attempt>)
    requires t <= pre + mid + post && |pre| == 3
    requires forall i :: 0 <= i < |post| ==> !post[i].op.Mount?
    ensures forall i :: 3 <= i < |t| && t[i].op.Mount? ==> i - 3 < |mid| && t[i] == mid[i - 3]
  {
    var s := pre + mid + post;
    assert forall i :: 0 <= i < |t| ==> t[i] == s[i];
    assert forall i :: 3 <= i < 3 + |mid| ==> s[i] == mid[i - 3];
    assert forall i :: 3 + |mid| <= i < |s| ==> s[i] == post[i - 3 - |mid|];
  }

  /** The remounts of a run are the remount plan for the new root, in mount-table order. */
  lemma RemountsFollowPlan(argv: seq<string>, k: Oracle)
    ensures var t := Setup(argv, k).trace;
      forall i :: 3 <= i < |t| && t[i].op.Mount? ==>
        && |argv| >= 5 && k.mountTable.Some?
        && i - 3 < |Plan(argv[1], Entries(k.mountTable.value))|
        && t[i].op == RemountOp(Plan(argv[1], Entries(k.mountTable.value))[i - 3])
  {
    if |argv| >= 5 {
      var inv := InvocationOf(argv);
      var t := Setup(argv, k).trace;
      var mid := Schedule(inv.root, Rows(k));
      var post := [Attempt(Chdir(inv.root), k.chdir), Attempt(Chroot(inv.root), k.chroot),
         Attempt(SetGid(ParseId(inv.gid).GetOr(0)), k.setgid), Attempt(SetUid(ParseId(inv.uid).GetOr(0)), k.setuid),
         Attempt(ExecVP(inv.binary, inv.execArgs), k.execvp)];
      SetupHaltsWell(argv, k);
      ScriptLayout(inv, k);
      ScheduleFollowsPlan(inv.root, Rows(k));
      MountsInMiddle(t, [Attempt(UnshareOp(), k.unshare), Attempt(MakePrivateOp(), k.makePrivate), Attempt(BindOp(inv.root), k.bindRoot)], mid, post);
    }
  }

  /** A run that cannot read the mount table stops after the three setup calls, none of
      which is a remount. */
  lemma MountListStopRemountsNothing(argv: seq<string>, k: Oracle)
    ensures Setup(argv, k).outcome == Fatal(MountList) ==>
      && k.mountTable.None?
      && Setup(argv, k).trace == [Attempt(UnshareOp(), k.unshare), Attempt(MakePrivateOp(), k.makePrivate), Attempt(BindOp(argv[1]), k.bindRoot)]
      && forall i :: 0 <= i < |Setup(argv, k).trace| ==> !IsRemount(Setup(argv, k).trace[i].op)
  {
    if |argv| >= 5 {
      SetupHaltsWell(argv, k);
    }
  }
}
