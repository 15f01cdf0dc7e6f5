/**
 make_mounts_readonly: walk the mount table and remount read-only, with bind and
 remount semantics, every mount whose directory starts with the new root's path and
 that is not a tmpfs, re-asserting the security flags the mount already had. Some
 remount errors are expected and skipped; any other ends the helper.
 */
module ReadOnly {
  import opened Wrappers
  import opened MountFlags
  import opened CText
  import opened Kernel

  /** One entry of /proc/self/mounts as getmntent returns it: mount directory,
      filesystem type and the mount options in force. */
  datatype MountEntry = MountEntry(dir: string, fsType: string, opts: set<string>)

  /** A mount-table entry together with what mount(2) answers when asked to remount it. */
  datatype MountRow = MountRow(entry: MountEntry, remount: SysResult)

  /** A remount of `dir` with the flag word `flags`. */
  datatype RemountRequest = RemountRequest(dir: string, flags: set<MountFlag>)

  /** The filesystem type left writable as scratch space. */
  const TmpFs: string := "tmpfs"

  // ---------------------------------------------------------------------------
  // Which entries are remounted
  // ---------------------------------------------------------------------------

  /** The loop remounts an entry when strstr finds `prefix` at the very start of the
      entry's directory and the entry's type is not tmpfs. */
  predicate Selected(prefix: string, e: MountEntry) {
    StrStr(e.dir, prefix) == Some(0) && e.fsType != TmpFs
  }

  /** The selection is a plain textual prefix test plus the tmpfs exemption. */
  lemma SelectedIff(prefix: string, e: MountEntry)
    ensures Selected(prefix, e) <==> prefix <= e.dir && e.fsType != "tmpfs"
  {
    StrStrAtStart(e.dir, prefix);
  }

  /** The prefix test does not respect path components: a sibling directory whose name
      extends the root's is selected too, while a tmpfs under the root is not. */
  lemma PrefixIsTextual()
    ensures Selected("/tmp/sbx", MountEntry("/tmp/sbxY", "ext4", {}))
    ensures !Selected("/tmp/sbx", MountEntry("/tmp/sbx/dev/shm", "tmpfs", {"nosuid", "nodev"}))
    ensures !Selected("/tmp/sbx", MountEntry("/tmp", "ext4", {}))
  {
    SelectedIff("/tmp/sbx", MountEntry("/tmp/sbxY", "ext4", {}));
    SelectedIff("/tmp/sbx", MountEntry("/tmp", "ext4", {}));
    assert "/tmp/sbx"[7] != "/tmp"[3];
  }

  // ---------------------------------------------------------------------------
  // Which flags a remount carries
  // ---------------------------------------------------------------------------

  /** The flags every remount carries: bind, remount, read-only. */
  const BaseFlags: set<MountFlag> := {Bind, Remount, RdOnly}

  /** The mount option whose presence a preserved flag re-asserts; None for the others. */
  function PreservedOption(f: MountFlag): Option<string> {
    match f
    case NoDev => Some("nodev")
    case NoExec => Some("noexec")
    case NoSuid => Some("nosuid")
    case NoAtime => Some("noatime")
    case NoDirAtime => Some("nodiratime")
    case RelAtime => Some("relatime")
    case _ => None
  }

  /** The flag word of the remount of an entry with options `opts`. */
  function RemountFlags(opts: set<string>): (flags: set<MountFlag>)
    ensures BaseFlags <= flags
    ensures forall f :: f in flags <==> f in BaseFlags || (PreservedOption(f).Some? && PreservedOption(f).value in opts)
  {
    var f0 := BaseFlags;
    var f1 := if "nodev" in opts then f0 + {NoDev} else f0;
    var f2 := if "noexec" in opts then f1 + {NoExec} else f1;
    var f3 := if "nosuid" in opts then f2 + {NoSuid} else f2;
    var f4 := if "noatime" in opts then f3 + {NoAtime} else f3;
    var f5 := if "nodiratime" in opts then f4 + {NoDirAtime} else f4;
    if "relatime" in opts then f5 + {RelAtime} else f5
  }

  function Request(e: MountEntry): RemountRequest {
    RemountRequest(e.dir, RemountFlags(e.opts))
  }

  /** mount(NULL, dir, NULL, flags, NULL). */
  function RemountOp(q: RemountRequest): Op {
    Mount(None, q.dir, q.flags)
  }

  predicate IsRemount(op: Op) {
    op.Mount? && Remount in op.flags
  }

  // ---------------------------------------------------------------------------
  // The remount plan
  // ---------------------------------------------------------------------------

  /** What one entry adds to the plan. */
  function Contribution(prefix: string, e: MountEntry): seq<RemountRequest> {
    if Selected(prefix, e) then [Request(e)] else []
  }

  /** The remount requests for a mount table, in table order. */
  function Plan(prefix: string, table: seq<MountEntry>): (plan: seq<RemountRequest>)
    decreases |table|
  {
    if table == [] then [] else Contribution(prefix, table[0]) + Plan(prefix, table[1..])
  }

  lemma PlanCons(prefix: string, e: MountEntry, rest: seq<MountEntry>)
    ensures Plan(prefix, [e] + rest) == Contribution(prefix, e) + Plan(prefix, rest)
  {
    assert ([e] + rest)[0] == e;
    assert ([e] + rest)[1..] == rest;
  }

  /** Planning a table split in two plans each half and keeps their order. */
  lemma {:induction false} PlanAppend(prefix: string, a: seq<MountEntry>, b: seq<MountEntry>)
    ensures Plan(prefix, a + b) == Plan(prefix, a) + Plan(prefix, b)
    decreases |a|
  {
    if a == [] {
      assert a + b == b;
    } else {
      assert a == [a[0]] + a[1..];
      assert a + b == [a[0]] + (a[1..] + b);
      PlanCons(prefix, a[0], a[1..] + b);
      PlanCons(prefix, a[0], a[1..]);
      PlanAppend(prefix, a[1..], b);
    }
  }

  /** Entry `j` contributes one request, in its own place, exactly when it is selected. */
  lemma PlanAtEntry(prefix: string, table: seq<MountEntry>, j: nat)
    requires j < |table|
    ensures Plan(prefix, table) == Plan(prefix, table[..j]) + Contribution(prefix, table[j]) + Plan(prefix, table[j + 1..])
  {
    assert table == table[..j] + ([table[j]] + table[j + 1..]);
    PlanAppend(prefix, table[..j], [table[j]] + table[j + 1..]);
    PlanAppend(prefix, [table[j]], table[j + 1..]);
    assert Plan(prefix, [table[j]]) == Contribution(prefix, table[j]) by {
      assert [table[j]][1..] == [];
    }
  }

  /** A request is in the plan exactly when some selected entry asks for it. */
  lemma {:induction false} PlanMembers(prefix: string, table: seq<MountEntry>, q: RemountRequest)
    ensures q in Plan(prefix, table) <==> exists e :: e in table && Selected(prefix, e) && q == Request(e)
    decreases |table|
  {
    if table != [] {
      PlanMembers(prefix, table[1..], q);
      assert forall e :: e in table <==> e == table[0] || e in table[1..];
    }
  }

  /** Every planned remount is bind, remount and read-only, and re-asserts exactly the
      preserved flags whose options its entry had. */
  lemma PlanFlags(prefix: string, table: seq<MountEntry>, k: nat)
    requires k < |Plan(prefix, table)|
    ensures BaseFlags <= Plan(prefix, table)[k].flags
    ensures exists e :: e in table && Selected(prefix, e) && Plan(prefix, table)[k] == Request(e)
  {
    PlanMembers(prefix, table, Plan(prefix, table)[k]);
  }

  // ---------------------------------------------------------------------------
  // The remount loop
  // ---------------------------------------------------------------------------

  /** The errors a remount may fail with and be skipped: EACCES, EINVAL, ESTALE, EPERM. */
  predicate Tolerated(e: Errno) {
    e == EACCES || e == EINVAL || e == ESTALE || e == EPERM
  }

  /** After this attempt the helper carries on: it succeeded, or it is a remount that
      failed with a tolerated error. */
  predicate Proceeds(a: Attempt) {
    match a.result
    case Ok => true
    case Err(e) => IsRemount(a.op) && Tolerated(e)
  }

  predicate AllProceed(s: seq<Attempt>) {
    forall k :: 0 <= k < |s| ==> Proceeds(s[k])
  }

  function Entries(rows: seq<MountRow>): (table: seq<MountEntry>)
    ensures |table| == |rows|
    ensures forall k :: 0 <= k < |rows| ==> table[k] == rows[k].entry
  {
    seq(|rows|, k requires 0 <= k < |rows| => rows[k].entry)
  }

  /** Every remount the loop issues when none of them is fatal, with the kernel's answers. */
  function Schedule(prefix: string, rows: seq<MountRow>): seq<Attempt>
    decreases |rows|
  {
    if rows == [] then []
    else
      var e := rows[0].entry;
      (if Selected(prefix, e) then [Attempt(RemountOp(Request(e)), rows[0].remount)] else [])
      + Schedule(prefix, rows[1..])
  }

  /** The schedule issues the plan's requests, one by one and in order. */
  lemma {:induction false} ScheduleFollowsPlan(prefix: string, rows: seq<MountRow>)
    ensures |Schedule(prefix, rows)| == |Plan(prefix, Entries(rows))|
    ensures forall k :: 0 <= k < |Schedule(prefix, rows)| ==>
      Schedule(prefix, rows)[k].op == RemountOp(Plan(prefix, Entries(rows))[k])
    decreases |rows|
  {
    if rows != [] {
      assert Entries(rows)[1..] == Entries(rows[1..]);
      ScheduleFollowsPlan(prefix, rows[1..]);
    }
  }

  /** Every call of the pass is a mount carrying MS_REMOUNT. */
  lemma {:induction false} ScheduleAllRemount(prefix: string, rows: seq<MountRow>)
    ensures forall k :: 0 <= k < |Schedule(prefix, rows)| ==> IsRemount(Schedule(prefix, rows)[k].op)
    decreases |rows|
  {
    if rows != [] {
      ScheduleAllRemount(prefix, rows[1..]);
    }
  }

  /** Every call of the pass is mount(NULL, dir, NULL, flags, NULL) for a selected row of
      the table: no source, that row's directory, its remount flags (MS_REMOUNT among
      them), and that row's answer. */
  lemma {:induction false} ScheduleRemounts(prefix: string, rows: seq<MountRow>)
    ensures forall k :: 0 <= k < |Schedule(prefix, rows)| ==>
      IsRemount(Schedule(prefix, rows)[k].op) && Schedule(prefix, rows)[k].op.source.None?
    ensures forall k :: 0 <= k < |Schedule(prefix, rows)| ==>
      exists r :: r in rows && Selected(prefix, r.entry) && Schedule(prefix, rows)[k] == Attempt(RemountOp(Request(r.entry)), r.remount)
    decreases |rows|
  {
    if rows != [] {
      ScheduleRemounts(prefix, rows[1..]);
      var e := rows[0].entry;
      var head: seq<Attempt> := if Selected(prefix, e) then [Attempt(RemountOp(Request(e)), rows[0].remount)] else [];
      var tail := Schedule(prefix, rows[1..]);
      assert Schedule(prefix, rows) == head + tail;
      ScheduleAllRemount(prefix, rows);
      var sched := Schedule(prefix, rows);
      forall k | 0 <= k < |sched|
        ensures sched[k].op.source.None?
        ensures exists r :: r in rows && Selected(prefix, r.entry) && sched[k] == Attempt(RemountOp(Request(r.entry)), r.remount)
      {
        if k < |head| {
          assert sched[k] == head[0];
          var r := rows[0];
          assert r in rows && Selected(prefix, r.entry) && sched[k] == Attempt(RemountOp(Request(r.entry)), r.remount);
        } else {
          assert sched[k] == tail[k - |head|];
          var r :| r in rows[1..] && Selected(prefix, r.entry) && tail[k - |head|] == Attempt(RemountOp(Request(r.entry)), r.remount);
          assert r in rows;
        }
      }
    } else {
      assert Schedule(prefix, rows) == [];
    }
  }

  datatype PassStatus = Completed | NoMountList | FatalRemount

  /** The remounts attempted by one pass and how the pass ended. */
  datatype Pass = Pass(attempts: seq<Attempt>, status: PassStatus)

  /** The loop over the mount table: remount each selected entry in order, skip tolerated
      errors, stop at the first other error. */
  function RemountLoop(prefix: string, rows: seq<MountRow>): (p: Pass)
    ensures p.status != NoMountList
    ensures p.attempts <= Schedule(prefix, rows)
    ensures p.status == Completed ==> p.attempts == Schedule(prefix, rows)
    decreases |rows|
  {
    if rows == [] then Pass([], Completed)
    else
      var e := rows[0].entry;
      if !Selected(prefix, e) then RemountLoop(prefix, rows[1..])
      else
        var a := Attempt(RemountOp(Request(e)), rows[0].remount);
        if rows[0].remount.Err? && !Tolerated(rows[0].remount.errno) then Pass([a], FatalRemount)
        else
          var rest := RemountLoop(prefix, rows[1..]);
          Pass([a] + rest.attempts, rest.status)
  }

  lemma AllProceedCons(a: Attempt, tail: seq<Attempt>)
    ensures AllProceed([a] + tail) <==> Proceeds(a) && AllProceed(tail)
  {
    assert ([a] + tail)[0] == a;
    assert forall k :: 0 <= k < |tail| ==> ([a] + tail)[k + 1] == tail[k];
  }

  /** The attempts end with one that halts the helper, and all before it proceeded. */
  predicate EndsAtFirstFatal(s: seq<Attempt>) {
    |s| > 0 && !Proceeds(s[|s| - 1]) && AllProceed(s[..|s| - 1])
  }

  lemma EndsAtFirstFatalCons(a: Attempt, s: seq<Attempt>)
    requires Proceeds(a) && EndsAtFirstFatal(s)
    ensures EndsAtFirstFatal([a] + s)
  {
    assert ([a] + s)[|s|] == s[|s| - 1];
    assert ([a] + s)[..|s|] == [a] + s[..|s| - 1];
    AllProceedCons(a, s[..|s| - 1]);
  }

  /** The loop completes exactly when every scheduled remount succeeds or fails with a
      tolerated error. */
  lemma {:induction false} RemountLoopCompletes(prefix: string, rows: seq<MountRow>)
    ensures RemountLoop(prefix, rows).status == Completed <==> AllProceed(Schedule(prefix, rows))
    decreases |rows|
  {
    if rows != [] {
      RemountLoopCompletes(prefix, rows[1..]);
      var e := rows[0].entry;
      var tail := Schedule(prefix, rows[1..]);
      if Selected(prefix, e) {
        var a := Attempt(RemountOp(Request(e)), rows[0].remount);
        assert Schedule(prefix, rows) == [a] + tail;
        AllProceedCons(a, tail);
        if rows[0].remount.Err? && !Tolerated(rows[0].remount.errno) {
          assert !Proceeds(a);
        } else {
          assert Proceeds(a);
          assert RemountLoop(prefix, rows).status == RemountLoop(prefix, rows[1..]).status;
        }
      } else {
        assert Schedule(prefix, rows) == tail;
        assert RemountLoop(prefix, rows) == RemountLoop(prefix, rows[1..]);
      }
    }
  }

  /** A loop that does not complete stops right after the first remount that fails with
      an error outside the tolerated set; every earlier remount went through. */
  lemma {:induction false} RemountLoopStops(prefix: string, rows: seq<MountRow>)
    ensures RemountLoop(prefix, rows).status == FatalRemount ==> EndsAtFirstFatal(RemountLoop(prefix, rows).attempts)
    decreases |rows|
  {
    if rows != [] {
      RemountLoopStops(prefix, rows[1..]);
      var e := rows[0].entry;
      if Selected(prefix, e) {
        var a := Attempt(RemountOp(Request(e)), rows[0].remount);
        var rest := RemountLoop(prefix, rows[1..]);
        if rows[0].remount.Err? && !Tolerated(rows[0].remount.errno) {
          assert [a][..0] == [];
        } else if rest.status == FatalRemount {
          assert IsRemount(a.op);
          EndsAtFirstFatalCons(a, rest.attempts);
        }
      }
    }
  }

  /** make_mounts_readonly: None stands for setmntent failing to open the mount list. */
  function MakeMountsReadOnly(prefix: string, table: Option<seq<MountRow>>): (p: Pass)
    ensures p.status == NoMountList <==> table.None?
    ensures p.status == NoMountList ==> p.attempts == []
  {
    match table
    case None => Pass([], NoMountList)
    case Some(rows) => RemountLoop(prefix, rows)
  }

  /** The flag word as the C code builds it: the base flags, then one test per option. */
  method BuildFlags(opts: set<string>) returns (flags: set<MountFlag>)
    ensures flags == RemountFlags(opts)
  {
    flags := {Bind, Remount, RdOnly};
    if "nodev" in opts { flags := flags + {NoDev}; }
    if "noexec" in opts { flags := flags + {NoExec}; }
    if "nosuid" in opts { flags := flags + {NoSuid}; }
    if "noatime" in opts { flags := flags + {NoAtime}; }
    if "nodiratime" in opts { flags := flags + {NoDirAtime}; }
    if "relatime" in opts { flags := flags + {RelAtime}; }
  }

  /** The loop as the C code runs it, over the table row by row. */
  method EnforceReadOnly(prefix: string, table: Option<seq<MountRow>>) returns (attempts: seq<Attempt>, status: PassStatus)
    ensures Pass(attempts, status) == MakeMountsReadOnly(prefix, table)
  {
    if table.None? {
      return [], NoMountList;
    }
    var rows := table.value;
    attempts := [];
    var i := 0;
    while i < |rows|
      invariant 0 <= i <= |rows|
      invariant RemountLoop(prefix, rows)
        == Pass(attempts + RemountLoop(prefix, rows[i..]).attempts, RemountLoop(prefix, rows[i..]).status)
    {
      var e := rows[i].entry;
      assert rows[i..][0] == rows[i] && rows[i..][1..] == rows[i + 1..];
      if StrStr(e.dir, prefix) == Some(0) && e.fsType != TmpFs {
        var flags := BuildFlags(e.opts);
        attempts := attempts + [Attempt(Mount(None, e.dir, flags), rows[i].remount)];
        if rows[i].remount.Err? && !Tolerated(rows[i].remount.errno) {
          return attempts, FatalRemount;
        }
      }
      i := i + 1;
    }
    assert rows[i..] == [];
    status := Completed;
  }
}
