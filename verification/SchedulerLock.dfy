/** The advisory cross-process lock file (src/scheduler_lock.rs), as a machine
    whose steps are the individual file-system calls of acquire and drop, in any
    interleaving, with processes dying at any point. */
module SchedulerLock {

  /** Creating and writing are two calls, so a file can be there without a
      readable body. The inode tells a file from a later one at the same path. */
  datatype File = Absent | Present(inode: nat, body: Body)
  datatype Body = Unwritten | Body(pid: nat, since: nat)

  datatype Phase =
    | Idle
    | Seen(inode: nat, pid: nat)         // read a body, liveness not yet checked
    | FoundDead(inode: nat)              // the recorded pid was dead; unlink is next
    | Creating                           // create_new is next
    | Created(inode: nat, since: nat)    // the file exists, its body is not written
    | Holding(inode: nat, since: nat)    // acquired
    | Dropping(inode: nat, since: nat)   // drop has read its own body; unlink is next

  datatype Proc = Proc(pid: nat, phase: Phase)

  /** Live processes only; a dead one is gone from the map. */
  datatype State = State(file: File, procs: map<nat, Proc>, nextInode: nat)

  datatype Event =
    | Spawn(p: nat, pid: nat)
    | Die(p: nat)
    | Read(p: nat)
    | CheckAlive(p: nat)
    | UnlinkStale(p: nat)
    | CreateNew(p: nat, now: nat)
    | WriteBody(p: nat)
    | WriteFails(p: nat)
    | DropRead(p: nat)
    | DropUnlink(p: nat)

  const INIT := State(Absent, map[], 0)

  predicate PidAlive(s: State, pid: nat) { exists p :: p in s.procs && s.procs[p].pid == pid }

  function With(s: State, p: nat, phase: Phase): State
    requires p in s.procs
  {
    s.(procs := s.procs[p := s.procs[p].(phase := phase)])
  }

  /** One call by one process. A call that is not due leaves the state alone. */
  function Step(s: State, e: Event): State {
    match e
    case Spawn(p, pid) =>
      if p in s.procs || PidAlive(s, pid) then s else s.(procs := s.procs[p := Proc(pid, Idle)])
    case Die(p) => s.(procs := s.procs - {p})
    case Read(p) =>
      if p !in s.procs || s.procs[p].phase != Idle then s
      else if s.file.Present? && s.file.body.Body? then With(s, p, Seen(s.file.inode, s.file.body.pid))
      else With(s, p, Creating)
    case CheckAlive(p) =>
      if p !in s.procs || !s.procs[p].phase.Seen? then s
      else if PidAlive(s, s.procs[p].phase.pid) then With(s, p, Idle)
      else With(s, p, FoundDead(s.procs[p].phase.inode))
    case UnlinkStale(p) =>
      if p !in s.procs || !s.procs[p].phase.FoundDead? then s
      else With(s, p, Creating).(file := Absent)
    case CreateNew(p, now) =>
      if p !in s.procs || s.procs[p].phase != Creating then s
      else if s.file.Present? then With(s, p, Idle)
      else With(s, p, Created(s.nextInode, now)).(file := Present(s.nextInode, Unwritten), nextInode := s.nextInode + 1)
    case WriteBody(p) =>
      if p !in s.procs || !s.procs[p].phase.Created? then s
      else
        var ph := s.procs[p].phase;
        var file := if s.file.Present? && s.file.inode == ph.inode
                    then Present(ph.inode, Body(s.procs[p].pid, ph.since)) else s.file;
        With(s, p, Holding(ph.inode, ph.since)).(file := file)
    case WriteFails(p) =>
      // acquire gives up; the file stays behind without a readable body
      if p !in s.procs || !s.procs[p].phase.Created? then s else With(s, p, Idle)
    case DropRead(p) =>
      if p !in s.procs || !s.procs[p].phase.Holding? then s
      else
        var ph := s.procs[p].phase;
        if s.file.Present? && s.file.body == Body(s.procs[p].pid, ph.since)
        then With(s, p, Dropping(ph.inode, ph.since))
        else With(s, p, Idle)
    case DropUnlink(p) =>
      if p !in s.procs || !s.procs[p].phase.Dropping? then s
      else With(s, p, Idle).(file := Absent)
  }

  function Exec(s: State, es: seq<Event>): State {
    if es == [] then s else Step(Exec(s, es[..|es| - 1]), es[|es| - 1])
  }

  // ---- what each process relies on ----

  /** The process has created the lock file and not let go of it. */
  predicate Owns(ph: Phase) { ph.Created? || ph.Holding? || ph.Dropping? }

  /** The process returned from acquire with the lock. */
  predicate Holds(ph: Phase) { ph.Holding? || ph.Dropping? }

  ghost predicate ProcOk(s: State, p: nat)
    requires p in s.procs
  {
    var ph := s.procs[p].phase;
    match ph
    case Idle => true
    case Creating => true
    case Seen(inode, pid) =>
      inode < s.nextInode && (s.file.Present? && s.file.inode == inode ==> s.file.body.Body? && s.file.body.pid == pid)
    case FoundDead(inode) =>
      && inode < s.nextInode
      && (forall q :: q in s.procs && Owns(s.procs[q].phase) ==> s.procs[q].phase.inode != inode)
      && (s.file.Present? && s.file.inode == inode ==> s.file.body.Body?)
    case Created(inode, _) => s.file == Present(inode, Unwritten)
    case Holding(inode, since) => s.file == Present(inode, Body(s.procs[p].pid, since))
    case Dropping(inode, since) => s.file == Present(inode, Body(s.procs[p].pid, since))
  }

  ghost predicate PidsDistinct(s: State) {
    forall p, q :: p in s.procs && q in s.procs && s.procs[p].pid == s.procs[q].pid ==> p == q
  }

  ghost predicate AtMostOneOwner(s: State) {
    forall p, q :: p in s.procs && q in s.procs && Owns(s.procs[p].phase) && Owns(s.procs[q].phase) ==> p == q
  }

  ghost predicate Invariant(s: State) {
    && (s.file.Present? ==> s.file.inode < s.nextInode)
    && PidsDistinct(s)
    && AtMostOneOwner(s)
    && (forall p :: p in s.procs ==> ProcOk(s, p))
  }

  /** Moving one process to another phase keeps the pids distinct, and keeps a
      single owner unless it creates a second one. */
  lemma WithKeeps(s: State, p: nat, phase: Phase, t: State)
    requires p in s.procs && PidsDistinct(s) && AtMostOneOwner(s) && t.procs == With(s, p, phase).procs
    ensures PidsDistinct(t)
    ensures !Owns(phase) || Owns(s.procs[p].phase) ==> AtMostOneOwner(t)
    ensures (forall q :: q in s.procs && q != p ==> !Owns(s.procs[q].phase)) ==> AtMostOneOwner(t)
  {
    hide Owns;
    assert t.procs.Keys == s.procs.Keys;
    assert forall q :: q in s.procs && q != p ==> t.procs[q] == s.procs[q];
    assert t.procs[p] == Proc(s.procs[p].pid, phase);
  }

  /** The stale unlink removes nothing but the file whose body was read. */
  ghost predicate Undisturbed(s: State, e: Event) {
    e.UnlinkStale? && e.p in s.procs && s.procs[e.p].phase.FoundDead? ==>
      s.file.Absent? || s.file.inode == s.procs[e.p].phase.inode
  }

  ghost predicate UndisturbedRun(s: State, es: seq<Event>) {
    forall i :: 0 <= i < |es| ==> Undisturbed(Exec(s, es[..i]), es[i])
  }

  lemma InitOk()
    ensures Invariant(INIT)
  {
  }

  /** Every call keeps the invariant, as long as stale unlinks are undisturbed. */
  lemma StepKeeps(s: State, e: Event)
    requires Invariant(s) && Undisturbed(s, e)
    ensures Invariant(Step(s, e))
  {
    match e
    case Spawn(p, pid) => SpawnKeeps(s, p, pid);
    case Die(p) => DieKeeps(s, p);
    case Read(p) => ReadKeeps(s, p);
    case CheckAlive(p) => CheckKeeps(s, p);
    case UnlinkStale(p) => UnlinkKeeps(s, p);
    case CreateNew(p, now) => CreateKeeps(s, p, now);
    case WriteBody(p) => WriteKeeps(s, p);
    case WriteFails(p) => WriteFailsKeeps(s, p);
    case DropRead(p) => DropReadKeeps(s, p);
    case DropUnlink(p) => DropUnlinkKeeps(s, p);
  }

  lemma SpawnKeeps(s: State, p: nat, pid: nat)
    requires Invariant(s)
    ensures Invariant(Step(s, Spawn(p, pid)))
  {
    var t := Step(s, Spawn(p, pid));
    forall q | q in t.procs ensures ProcOk(t, q) { if q in s.procs { assert ProcOk(s, q); } }
  }

  lemma DieKeeps(s: State, p: nat)
    requires Invariant(s)
    ensures Invariant(Step(s, Die(p)))
  {
    var t := Step(s, Die(p));
    forall q | q in t.procs ensures ProcOk(t, q) { assert ProcOk(s, q); }
  }

  lemma ReadKeeps(s: State, p: nat)
    requires Invariant(s)
    ensures Invariant(Step(s, Read(p)))
  {
    hide PidsDistinct, AtMostOneOwner;
    var t := Step(s, Read(p));
    if t != s {
      assert ProcOk(s, p);
      WithKeeps(s, p, t.procs[p].phase, t);
      forall q | q in t.procs ensures ProcOk(t, q) { assert ProcOk(s, q); }
    }
  }

  lemma CheckKeeps(s: State, p: nat)
    requires Invariant(s)
    ensures Invariant(Step(s, CheckAlive(p)))
  {
    hide PidsDistinct, AtMostOneOwner;
    var t := Step(s, CheckAlive(p));
    if t != s {
      assert ProcOk(s, p);
      WithKeeps(s, p, t.procs[p].phase, t);
      forall q | q in t.procs ensures ProcOk(t, q) { assert ProcOk(s, q); }
    }
  }

  /** Nobody alive owns the file that is unlinked, so nobody loses it. */
  lemma UnlinkKeeps(s: State, p: nat)
    requires Invariant(s) && Undisturbed(s, UnlinkStale(p))
    ensures Invariant(Step(s, UnlinkStale(p)))
  {
    hide PidsDistinct, AtMostOneOwner;
    var t := Step(s, UnlinkStale(p));
    if t != s {
      assert ProcOk(s, p);
      WithKeeps(s, p, t.procs[p].phase, t);
      forall q | q in t.procs ensures ProcOk(t, q) { assert ProcOk(s, q); }
    }
  }

  lemma CreateKeeps(s: State, p: nat, now: nat)
    requires Invariant(s)
    ensures Invariant(Step(s, CreateNew(p, now)))
  {
    hide PidsDistinct, AtMostOneOwner;
    var t := Step(s, CreateNew(p, now));
    if t != s {
      WithKeeps(s, p, t.procs[p].phase, t);
      forall q | q in s.procs ensures s.file.Absent? ==> !Owns(s.procs[q].phase) { assert ProcOk(s, q); }
      forall q | q in t.procs ensures ProcOk(t, q) {
        assert ProcOk(s, q);
        if q != p { assert t.procs[q] == s.procs[q]; }
      }
    }
  }

  lemma WriteKeeps(s: State, p: nat)
    requires Invariant(s)
    ensures Invariant(Step(s, WriteBody(p)))
  {
    assert AtMostOneOwner(s);
    hide PidsDistinct;
    var t := Step(s, WriteBody(p));
    if t != s {
      assert ProcOk(s, p);
      WithKeeps(s, p, t.procs[p].phase, t);
      forall q | q in t.procs ensures ProcOk(t, q) {
        assert ProcOk(s, q);
        if q != p { assert t.procs[q] == s.procs[q]; }
      }
    }
  }

  lemma WriteFailsKeeps(s: State, p: nat)
    requires Invariant(s)
    ensures Invariant(Step(s, WriteFails(p)))
  {
    hide PidsDistinct, AtMostOneOwner;
    var t := Step(s, WriteFails(p));
    if t != s {
      WithKeeps(s, p, t.procs[p].phase, t);
      forall q | q in t.procs ensures ProcOk(t, q) { assert ProcOk(s, q); }
    }
  }

  lemma DropReadKeeps(s: State, p: nat)
    requires Invariant(s)
    ensures Invariant(Step(s, DropRead(p)))
  {
    hide PidsDistinct, AtMostOneOwner;
    var t := Step(s, DropRead(p));
    if t != s {
      assert ProcOk(s, p);
      WithKeeps(s, p, t.procs[p].phase, t);
      forall q | q in t.procs ensures ProcOk(t, q) { assert ProcOk(s, q); }
    }
  }

  lemma DropUnlinkKeeps(s: State, p: nat)
    requires Invariant(s)
    ensures Invariant(Step(s, DropUnlink(p)))
  {
    assert AtMostOneOwner(s);
    var t := Step(s, DropUnlink(p));
    if t != s {
      assert ProcOk(s, p);
      WithKeeps(s, p, t.procs[p].phase, t);
      hide PidsDistinct, AtMostOneOwner;
      forall q | q in t.procs ensures ProcOk(t, q) { assert ProcOk(s, q); }
    }
  }

  // ---- mutual exclusion ----

  lemma {:induction false} RunKeeps(s: State, es: seq<Event>)
    requires Invariant(s) && UndisturbedRun(s, es)
    ensures Invariant(Exec(s, es))
  {
    hide Step, Invariant, Undisturbed;
    if es != [] {
      var n := |es| - 1;
      UndisturbedPrefix(s, es);
      RunKeeps(s, es[..n]);
      StepKeeps(Exec(s, es[..n]), es[n]);
    }
  }

  lemma UndisturbedPrefix(s: State, es: seq<Event>)
    requires es != [] && UndisturbedRun(s, es)
    ensures UndisturbedRun(s, es[..|es| - 1]) && Undisturbed(Exec(s, es[..|es| - 1]), es[|es| - 1])
  {
    hide Undisturbed, Exec;
    var n := |es| - 1;
    forall i | 0 <= i < n ensures Undisturbed(Exec(s, es[..n][..i]), es[..n][i]) {
      assert es[..n][..i] == es[..i];
    }
  }

  ghost predicate AtMostOneHolder(s: State) {
    forall p, q :: p in s.procs && q in s.procs && Holds(s.procs[p].phase) && Holds(s.procs[q].phase) ==> p == q
  }

  /** At most one live process holds the lock; the holder's body is in the file;
      and a drop is about to remove that body and no other. */
  lemma MutualExclusion(es: seq<Event>)
    requires UndisturbedRun(INIT, es)
    ensures AtMostOneHolder(Exec(INIT, es))
    ensures var s := Exec(INIT, es);
            forall p :: p in s.procs && Holds(s.procs[p].phase) ==>
              s.file == Present(s.procs[p].phase.inode, Body(s.procs[p].pid, s.procs[p].phase.since))
  {
    hide Exec, UndisturbedRun;
    InitOk();
    RunKeeps(INIT, es);
    var s := Exec(INIT, es);
    forall p | p in s.procs && Holds(s.procs[p].phase)
      ensures s.file == Present(s.procs[p].phase.inode, Body(s.procs[p].pid, s.procs[p].phase.since))
    {
      assert ProcOk(s, p);
    }
  }

  // ---- a scheduling condition that suffices ----

  predicate InWindow(ph: Phase) { ph.Seen? || ph.FoundDead? }

  /** No lock file is removed while another process sits between its read and
      its unlink. */
  ghost predicate Exclusive(s: State, e: Event) {
    (e.UnlinkStale? || e.DropUnlink?) && e.p in s.procs
      && (s.procs[e.p].phase.FoundDead? || s.procs[e.p].phase.Dropping?) ==>
      forall q :: q in s.procs && q != e.p ==> !InWindow(s.procs[q].phase)
  }

  ghost predicate ExclusiveRun(s: State, es: seq<Event>) {
    forall i :: 0 <= i < |es| ==> Exclusive(Exec(s, es[..i]), es[i])
  }

  /** What a process in its window read is still there. */
  ghost predicate Watched(s: State) {
    forall p :: p in s.procs && InWindow(s.procs[p].phase) ==>
      s.file.Present? && s.file.inode == s.procs[p].phase.inode
  }

  lemma StepWatched(s: State, e: Event)
    requires Invariant(s) && Watched(s) && Exclusive(s, e)
    ensures Undisturbed(s, e) && Watched(Step(s, e))
  {
    hide Invariant, ProcOk;
  }

  lemma {:induction false} ExclusiveIsUndisturbed(es: seq<Event>)
    requires ExclusiveRun(INIT, es)
    ensures UndisturbedRun(INIT, es) && Watched(Exec(INIT, es))
  {
    hide Step, Invariant, Undisturbed, Exclusive, Watched;
    if es == [] {
      InitWatched();
    } else {
      var n := |es| - 1;
      ExclusivePrefix(es);
      ExclusiveIsUndisturbed(es[..n]);
      InitOk();
      RunKeeps(INIT, es[..n]);
      StepWatched(Exec(INIT, es[..n]), es[n]);
      forall i | 0 <= i < |es| ensures Undisturbed(Exec(INIT, es[..i]), es[i]) {
        if i < n { assert es[..n][..i] == es[..i] && es[..n][i] == es[i]; }
      }
    }
  }

  lemma InitWatched()
    ensures Watched(INIT)
  {
  }

  lemma ExclusivePrefix(es: seq<Event>)
    requires es != [] && ExclusiveRun(INIT, es)
    ensures ExclusiveRun(INIT, es[..|es| - 1]) && Exclusive(Exec(INIT, es[..|es| - 1]), es[|es| - 1])
  {
    hide Exclusive, Exec;
    var n := |es| - 1;
    forall i | 0 <= i < n ensures Exclusive(Exec(INIT, es[..n][..i]), es[..n][i]) {
      assert es[..n][..i] == es[..i];
    }
  }

  /** With windows respected, at most one live process ever holds the lock. */
  lemma ExclusiveRunsExclude(es: seq<Event>)
    requires ExclusiveRun(INIT, es)
    ensures AtMostOneHolder(Exec(INIT, es))
  {
    hide Exec, ExclusiveRun, UndisturbedRun;
    ExclusiveIsUndisturbed(es);
    MutualExclusion(es);
  }

  // ---- the condition cannot be weakened to one cleaner at a time ----

  ghost predicate OneInWindow(s: State) {
    forall p, q :: p in s.procs && q in s.procs && InWindow(s.procs[p].phase) && InWindow(s.procs[q].phase) ==> p == q
  }

  ghost predicate OneCleanerThroughout(es: seq<Event>) {
    forall i :: 0 <= i <= |es| ==> OneInWindow(Exec(INIT, es[..i]))
  }

  lemma Extend(es: seq<Event>, s: State, e: Event, t: State)
    requires Exec(INIT, es) == s && OneCleanerThroughout(es) && Step(s, e) == t && OneInWindow(t)
    ensures Exec(INIT, es + [e]) == t && OneCleanerThroughout(es + [e])
  {
    hide Step, OneInWindow;
    var longer := es + [e];
    assert longer[..|es|] == es && longer[..|longer|] == longer;
    forall i | 0 <= i <= |longer| ensures OneInWindow(Exec(INIT, longer[..i])) {
      if i <= |es| { assert longer[..i] == es[..i]; }
    }
  }

  /** A new process finds no file and acquires. */
  lemma Acquires(es: seq<Event>, s: State, p: nat, pid: nat, now: nat) returns (longer: seq<Event>, t: State)
    requires Exec(INIT, es) == s && OneCleanerThroughout(es) && OneInWindow(s)
    requires s.file == Absent && p !in s.procs && !PidAlive(s, pid)
    ensures t == State(Present(s.nextInode, Body(pid, now)), s.procs[p := Proc(pid, Holding(s.nextInode, now))],
                       s.nextInode + 1)
    ensures Exec(INIT, longer) == t && OneCleanerThroughout(longer) && OneInWindow(t)
  {
    hide Exec, PidAlive, OneCleanerThroughout;
    var i := s.nextInode;
    var s1 := s.(procs := s.procs[p := Proc(pid, Idle)]);
    Extend(es, s, Spawn(p, pid), s1);
    var s2 := s.(procs := s.procs[p := Proc(pid, Creating)]);
    Extend(es + [Spawn(p, pid)], s1, Read(p), s2);
    var s3 := State(Present(i, Unwritten), s.procs[p := Proc(pid, Created(i, now))], i + 1);
    Extend(es + [Spawn(p, pid)] + [Read(p)], s2, CreateNew(p, now), s3);
    t := State(Present(i, Body(pid, now)), s.procs[p := Proc(pid, Holding(i, now))], i + 1);
    Extend(es + [Spawn(p, pid)] + [Read(p)] + [CreateNew(p, now)], s3, WriteBody(p), t);
    longer := es + [Spawn(p, pid)] + [Read(p)] + [CreateNew(p, now)] + [WriteBody(p)];
  }

  /** Process 1 starts up and reads the lock of a live holder. */
  lemma CleanerReads(es: seq<Event>) returns (longer: seq<Event>)
    requires Exec(INIT, es) == State(Present(0, Body(10, 1)), map[0 := Proc(10, Holding(0, 1))], 1)
    requires OneCleanerThroughout(es)
    ensures Exec(INIT, longer)
         == State(Present(0, Body(10, 1)), map[0 := Proc(10, Holding(0, 1)), 1 := Proc(11, Seen(0, 10))], 1)
    ensures OneCleanerThroughout(longer)
  {
    hide Exec, OneCleanerThroughout;
    var held := Present(0, Body(10, 1));
    var s4 := State(held, map[0 := Proc(10, Holding(0, 1))], 1);
    var s5 := State(held, map[0 := Proc(10, Holding(0, 1)), 1 := Proc(11, Idle)], 1);
    Extend(es, s4, Spawn(1, 11), s5);
    var s6 := State(held, map[0 := Proc(10, Holding(0, 1)), 1 := Proc(11, Seen(0, 10))], 1);
    Extend(es + [Spawn(1, 11)], s5, Read(1), s6);
    longer := es + [Spawn(1, 11)] + [Read(1)];
  }

  /** The holder drops the lock and exits. */
  lemma HolderLeaves(es: seq<Event>) returns (longer: seq<Event>)
    requires Exec(INIT, es)
          == State(Present(0, Body(10, 1)), map[0 := Proc(10, Holding(0, 1)), 1 := Proc(11, Seen(0, 10))], 1)
    requires OneCleanerThroughout(es)
    ensures Exec(INIT, longer) == State(Absent, map[1 := Proc(11, Seen(0, 10))], 1) && OneCleanerThroughout(longer)
  {
    hide Exec, OneCleanerThroughout;
    var held, cleaner := Present(0, Body(10, 1)), Proc(11, Seen(0, 10));
    var s6 := State(held, map[0 := Proc(10, Holding(0, 1)), 1 := cleaner], 1);
    var s7 := State(held, map[0 := Proc(10, Dropping(0, 1)), 1 := cleaner], 1);
    Extend(es, s6, DropRead(0), s7);
    var s8 := State(Absent, map[0 := Proc(10, Idle), 1 := cleaner], 1);
    Extend(es + [DropRead(0)], s7, DropUnlink(0), s8);
    Extend(es + [DropRead(0)] + [DropUnlink(0)], s8, Die(0), State(Absent, map[1 := cleaner], 1));
    longer := es + [DropRead(0)] + [DropUnlink(0)] + [Die(0)];
  }

  /** Process 1 finds the old pid dead, unlinks what is there now, and acquires. */
  lemma LateCheck(es: seq<Event>) returns (longer: seq<Event>)
    requires Exec(INIT, es)
          == State(Present(1, Body(12, 2)), map[1 := Proc(11, Seen(0, 10)), 2 := Proc(12, Holding(1, 2))], 2)
    requires OneCleanerThroughout(es)
    ensures OneCleanerThroughout(longer) && !AtMostOneHolder(Exec(INIT, longer))
  {
    hide Exec, OneCleanerThroughout, OneInWindow, InWindow;
    longer := es;
    var s4 := State(Present(1, Body(12, 2)), map[1 := Proc(11, Seen(0, 10)), 2 := Proc(12, Holding(1, 2))], 2);
    var s5 := With(s4, 1, FoundDead(0));
    OnlyCleaner(s4, 1, FoundDead(0), Present(1, Body(12, 2)), 2);
    Extend(longer, s4, CheckAlive(1), s5);
    longer := longer + [CheckAlive(1)];
    var s6 := With(s5, 1, Creating).(file := Absent);
    OnlyCleaner(s5, 1, Creating, Absent, 2);
    Extend(longer, s5, UnlinkStale(1), s6);
    longer := longer + [UnlinkStale(1)];
    var s7 := With(s6, 1, Created(2, 3)).(file := Present(2, Unwritten), nextInode := 3);
    OnlyCleaner(s6, 1, Created(2, 3), Present(2, Unwritten), 3);
    Extend(longer, s6, CreateNew(1, 3), s7);
    longer := longer + [CreateNew(1, 3)];
    var s8 := With(s7, 1, Holding(2, 3)).(file := Present(2, Body(11, 3)));
    OnlyCleaner(s7, 1, Holding(2, 3), Present(2, Body(11, 3)), 3);
    Extend(longer, s7, WriteBody(1), s8);
    longer := longer + [WriteBody(1)];
    assert Holds(s8.procs[1].phase) && Holds(s8.procs[2].phase);
  }

  lemma OnlyCleaner(s: State, p: nat, phase: Phase, file: File, next: nat)
    requires p in s.procs && forall q :: q in s.procs && q != p ==> Holds(s.procs[q].phase)
    ensures OneInWindow(With(s, p, phase).(file := file, nextInode := next))
  {
  }

  lemma ExecNothing()
    ensures Exec(INIT, []) == INIT && OneCleanerThroughout([])
  {
  }

  /** One cleaner at a time is not enough: a holder may drop and exit between the
      cleaner's read and its liveness check, and the unlink then hits the next
      holder's file. */
  lemma OneCleanerIsNotEnough() returns (es: seq<Event>)
    ensures OneCleanerThroughout(es) && !AtMostOneHolder(Exec(INIT, es))
  {
    hide Exec, OneCleanerThroughout, AtMostOneHolder;
    ExecNothing();
    var s: State;
    es, s := Acquires([], INIT, 0, 10, 1);
    assert s.procs == map[0 := Proc(10, Holding(0, 1))];
    es := CleanerReads(es);
    es := HolderLeaves(es);
    es, s := Acquires(es, State(Absent, map[1 := Proc(11, Seen(0, 10))], 1), 2, 12, 2);
    assert s.procs == map[1 := Proc(11, Seen(0, 10)), 2 := Proc(12, Holding(1, 2))];
    es := LateCheck(es);
  }

  /** From a state that respects the invariant, a cleaner that goes on to unlink
      and acquire ends up sharing the lock exactly when somebody alive owns the
      file it is about to unlink. */
  lemma UnlinkSharesIff(s: State, p: nat, now: nat)
    requires Invariant(s) && p in s.procs && s.procs[p].phase.FoundDead?
    ensures var t := Step(Step(Step(s, UnlinkStale(p)), CreateNew(p, now)), WriteBody(p));
            && Holds(t.procs[p].phase)
            && ((exists q :: q in t.procs && q != p && Owns(t.procs[q].phase))
                <==> s.file.Present? && s.file.inode != s.procs[p].phase.inode
                     && exists q :: q in s.procs && Owns(s.procs[q].phase))
  {
    hide PidsDistinct, AtMostOneOwner;
    var t := Step(Step(Step(s, UnlinkStale(p)), CreateNew(p, now)), WriteBody(p));
    assert ProcOk(s, p);
    assert forall q :: q in s.procs && q != p ==> q in t.procs && t.procs[q] == s.procs[q];
    assert forall q :: q in t.procs ==> q in s.procs;
    forall q | q in s.procs && Owns(s.procs[q].phase)
      ensures s.file.Present? && s.file.inode != s.procs[p].phase.inode && q != p
    {
      assert ProcOk(s, q);
    }
  }

  // ---- runs from any state ----

  lemma Snoc(s: State, es: seq<Event>, e: Event)
    ensures Exec(s, es + [e]) == Step(Exec(s, es), e)
  {
    assert (es + [e])[..|es|] == es;
  }

  /** Nothing in the run is done by, or to, these processes. */
  ghost predicate Spares(es: seq<Event>, keep: set<nat>) {
    forall i :: 0 <= i < |es| ==> es[i].p !in keep
  }

  lemma {:induction false} KillSome(s: State, gone: set<nat>) returns (es: seq<Event>)
    ensures Exec(s, es) == s.(procs := s.procs - gone)
    ensures forall i :: 0 <= i < |es| ==> es[i].p in gone
  {
    if gone == {} {
      es := [];
      assert s.procs - gone == s.procs;
    } else {
      var p :| p in gone;
      es := KillSome(s, gone - {p});
      Snoc(s, es, Die(p));
      assert s.procs - (gone - {p}) - {p} == s.procs - gone;
      es := es + [Die(p)];
    }
  }

  /** q can still get to a stale unlink while the processes with these pids live:
      it already found its pid dead, or read one that can still die. */
  predicate CanClean(s: State, q: nat, pids: set<nat>) {
    && q in s.procs
    && (s.procs[q].phase.FoundDead?
        || (s.procs[q].phase.Seen? && s.procs[q].phase.pid != s.procs[q].pid && s.procs[q].phase.pid !in pids))
  }

  function PidsOf(s: State, keep: set<nat>): set<nat> {
    set p | p in keep && p in s.procs :: s.procs[p].pid
  }

  /** q holds the lock, and the file is its own. */
  predicate HoldsFile(s: State, q: nat) {
    && q in s.procs && Holds(s.procs[q].phase)
    && s.file == Present(s.procs[q].phase.inode, Body(s.procs[q].pid, s.procs[q].phase.since))
  }

  /** With everybody else gone but the ones to be kept, q unlinks whatever file is
      there and acquires. */
  lemma CleanerAcquires(s: State, q: nat, keep: set<nat>) returns (es: seq<Event>)
    requires CanClean(s, q, PidsOf(s, keep)) && q !in keep && keep <= s.procs.Keys
    ensures Spares(es, keep) && HoldsFile(Exec(s, es), q)
    ensures forall p :: p in keep ==> p in Exec(s, es).procs && Exec(s, es).procs[p] == s.procs[p]
  {
    var gone := s.procs.Keys - keep - {q};
    es := KillSome(s, gone);
    var s1 := s.(procs := s.procs - gone);
    var s2 := Step(s1, CheckAlive(q));
    StaysAhead(s, s1, q, keep);
    Snoc(s, es, CheckAlive(q));
    es := es + [CheckAlive(q)];
    Snoc(s, es, UnlinkStale(q));
    es := es + [UnlinkStale(q)];
    Snoc(s, es, CreateNew(q, 0));
    es := es + [CreateNew(q, 0)];
    Snoc(s, es, WriteBody(q));
    es := es + [WriteBody(q)];
    hide Exec, PidAlive;
  }

  lemma StaysAhead(s: State, s1: State, q: nat, keep: set<nat>)
    requires CanClean(s, q, PidsOf(s, keep)) && q !in keep && keep <= s.procs.Keys
    requires s1 == s.(procs := s.procs - (s.procs.Keys - keep - {q}))
    ensures q in s1.procs && forall p :: p in keep ==> p in s1.procs && s1.procs[p] == s.procs[p]
    ensures var s2 := Step(s1, CheckAlive(q)); s2 == With(s1, q, s2.procs[q].phase) && s2.procs[q].phase.FoundDead?
  {
    forall p | p in s1.procs && p != q ensures s1.procs[p].pid in PidsOf(s, keep) { assert p in keep && p in s.procs; }
  }

  // ---- exactly when a holder can lose its exclusion ----

  /** p holds the lock and nobody is, or can get, past a liveness test. */
  ghost predicate Safe(s: State, p: nat) {
    && HoldsFile(s, p)
    && forall q :: q in s.procs && q != p ==> !Owns(s.procs[q].phase) && !CanClean(s, q, {s.procs[p].pid})
  }

  lemma SafeStep(s: State, p: nat, e: Event)
    requires Safe(s, p) && e.p != p
    ensures Safe(Step(s, e), p) && Step(s, e).procs[p] == s.procs[p]
  {
    var t := Step(s, e);
    assert p in t.procs && t.procs[p] == s.procs[p];
    assert forall q :: q in t.procs && q != e.p ==> q in s.procs && t.procs[q] == s.procs[q];
  }

  lemma {:induction false} SafeRun(s: State, p: nat, es: seq<Event>)
    requires Safe(s, p) && Spares(es, {p})
    ensures Safe(Exec(s, es), p) && Exec(s, es).procs[p] == s.procs[p]
  {
    if es != [] {
      var n := |es| - 1;
      assert Spares(es[..n], {p});
      assert es[n].p !in {p};
      hide Step, Safe;
      SafeRun(s, p, es[..n]);
      SafeStep(Exec(s, es[..n]), p, es[n]);
    }
  }

  /** While p goes on holding the lock, another process can acquire it in some run
      if and only if some process already read a pid that is dead or can still
      die: its own, and p's, cannot. */
  lemma HolderSharedIff(s: State, p: nat)
    requires Invariant(s) && p in s.procs && Holds(s.procs[p].phase)
    ensures (exists es, q :: Spares(es, {p}) && q != p && HoldsFile(Exec(s, es), q))
       <==> exists q :: q != p && CanClean(s, q, {s.procs[p].pid})
  {
    if q :| q != p && CanClean(s, q, {s.procs[p].pid}) {
      assert PidsOf(s, {p}) == {s.procs[p].pid};
      var es := CleanerAcquires(s, q, {p});
      hide Exec;
      assert Spares(es, {p}) && q != p && HoldsFile(Exec(s, es), q);
    } else {
      assert ProcOk(s, p);
      assert Safe(s, p);
      forall es, q | Spares(es, {p}) && q != p ensures !HoldsFile(Exec(s, es), q) {
        hide Exec;
        SafeRun(s, p, es);
      }
    }
  }

  /** A drop that has read its own body goes on to remove another holder's file in
      some run under exactly the same condition. */
  lemma DropRemovesOthersIff(s: State, p: nat)
    requires Invariant(s) && p in s.procs && s.procs[p].phase.Dropping?
    ensures (exists es, q :: Spares(es, {p}) && q != p && RemovesFileOf(Exec(s, es), p, q))
       <==> exists q :: q != p && CanClean(s, q, {s.procs[p].pid})
  {
    if q :| q != p && CanClean(s, q, {s.procs[p].pid}) {
      assert PidsOf(s, {p}) == {s.procs[p].pid};
      var es := CleanerAcquires(s, q, {p});
      hide Exec;
      assert p in {p};
      assert RemovesFileOf(Exec(s, es), p, q);
    } else {
      forall es, q | Spares(es, {p}) && q != p ensures !RemovesFileOf(Exec(s, es), p, q) {
        HolderSharedIff(s, p);
      }
    }
  }

  /** The unlink that p's drop makes next hits the file of q, which holds the lock. */
  predicate RemovesFileOf(s: State, p: nat, q: nat) {
    && p in s.procs && s.procs[p].phase.Dropping? && HoldsFile(s, q)
    && Step(s, DropUnlink(p)).file == Absent
  }

  // ---- crash recovery ----

  /** A file without a body, and nobody left to write it. */
  ghost predicate Wedged(s: State) {
    && s.file.Present? && s.file.body == Unwritten
    && forall p :: p in s.procs ==> !Owns(s.procs[p].phase)
  }

  /** A step wedges the lock exactly when a process that has created the file dies
      or fails before its body is written. */
  lemma WedgesIff(s: State, e: Event)
    requires Invariant(s) && !Wedged(s)
    ensures Wedged(Step(s, e)) <==>
              (e.Die? || e.WriteFails?) && e.p in s.procs && s.procs[e.p].phase.Created?
  {
    var p, t := e.p, Step(s, e);
    if p in s.procs {
      assert ProcOk(s, p);
      if s.procs[p].phase.Created? {
        forall q | q in t.procs && q != p ensures !Owns(t.procs[q].phase) { assert AtMostOneOwner(s) && q in s.procs; }
      }
    }
    hide Invariant, AtMostOneOwner, PidsDistinct, ProcOk, PidAlive;
    if Wedged(t) { WedgedByOwner(s, e); }
  }

  lemma WedgedByOwner(s: State, e: Event)
    requires !Wedged(s) && Wedged(Step(s, e))
    ensures e.p in s.procs && Owns(s.procs[e.p].phase) && (e.Die? || e.WriteFails? || e.DropRead?)
  {
    hide PidAlive;
    var p, t := e.p, Step(s, e);
    assert forall q :: q in s.procs && q != p ==> q in t.procs && t.procs[q] == s.procs[q];
    assert p in t.procs ==> !Owns(t.procs[p].phase);
    assert t.file == s.file;
  }

  lemma WedgeStays(s: State, e: Event)
    requires Wedged(s) && forall q :: !CanClean(s, q, {})
    ensures Wedged(Step(s, e)) && forall q :: !CanClean(Step(s, e), q, {})
  {
    var t := Step(s, e);
    assert forall q :: q in t.procs && q != e.p ==> q in s.procs && t.procs[q] == s.procs[q];
    assert !CanClean(s, e.p, {});
    forall q ensures !CanClean(t, q, {}) { assert !CanClean(s, q, {}); }
  }

  /** With nobody between its read and its unlink, no run at all recovers a wedged
      lock, and nobody ever holds it again. */
  lemma {:induction false} WedgeIsPermanent(s: State, es: seq<Event>)
    requires Wedged(s) && forall q :: !CanClean(s, q, {})
    ensures Wedged(Exec(s, es)) && forall q :: !CanClean(Exec(s, es), q, {})
  {
    if es != [] {
      WedgeIsPermanent(s, es[..|es| - 1]);
      hide Step, Wedged, CanClean;
      WedgeStays(Exec(s, es[..|es| - 1]), es[|es| - 1]);
    }
  }

  /** Over all runs: a wedged lock can be acquired again if and only if some live
      process found a pid dead before, or read one that can still die. */
  lemma WedgeLiftsIff(s: State)
    requires Wedged(s)
    ensures (exists es, q :: HoldsFile(Exec(s, es), q)) <==> exists q :: CanClean(s, q, {})
    ensures (exists es :: !Wedged(Exec(s, es))) <==> exists q :: CanClean(s, q, {})
  {
    if q :| CanClean(s, q, {}) {
      assert PidsOf(s, {}) == {};
      var es := CleanerAcquires(s, q, {});
      hide Exec;
      assert HoldsFile(Exec(s, es), q) && !Wedged(Exec(s, es));
    } else {
      forall es ensures Wedged(Exec(s, es)) {
        hide Exec;
        WedgeIsPermanent(s, es);
      }
      hide Exec;
      forall es, q ensures !HoldsFile(Exec(s, es), q) { assert Wedged(Exec(s, es)); }
    }
  }

  /** One death, or one failed write, in the very first acquire wedges the lock for
      good. */
  lemma FirstAcquireCanWedge(end: Event) returns (es: seq<Event>)
    requires end == Die(0) || end == WriteFails(0)
    ensures Wedged(Exec(INIT, es)) && forall q :: !CanClean(Exec(INIT, es), q, {})
  {
    var s1 := State(Absent, map[0 := Proc(10, Idle)], 0);
    var s2 := State(Absent, map[0 := Proc(10, Creating)], 0);
    var s3 := State(Present(0, Unwritten), map[0 := Proc(10, Created(0, 1))], 1);
    es := [];
    Snoc(INIT, es, Spawn(0, 10));
    es := es + [Spawn(0, 10)];
    assert Exec(INIT, es) == s1;
    Snoc(INIT, es, Read(0));
    es := es + [Read(0)];
    assert Exec(INIT, es) == s2;
    Snoc(INIT, es, CreateNew(0, 1));
    es := es + [CreateNew(0, 1)];
    assert Exec(INIT, es) == s3;
    Snoc(INIT, es, end);
    es := es + [end];
  }

  /** A wedged lock that still can be lifted: two processes found the same pid dead,
      one of them removed the stale file, created its own and died. */
  lemma LiftableWedge() returns (es: seq<Event>)
    ensures Invariant(Exec(INIT, es)) && Wedged(Exec(INIT, es)) && CanClean(Exec(INIT, es), 1, {})
    ensures exists more, q :: HoldsFile(Exec(Exec(INIT, es), more), q)
  {
    ExecNothing();
    var s: State;
    es, s := Acquires([], INIT, 0, 10, 1);
    assert s.procs == map[0 := Proc(10, Holding(0, 1))];
    hide Exec;
    es, s := BothFindDead(es, s);
    es, s := CreatorDies(es, s);
    hide Step;
    WedgeLiftsIff(s);
  }

  lemma CreatorDies(es: seq<Event>, s: State) returns (longer: seq<Event>, t: State)
    requires Exec(INIT, es) == s
    requires s == State(Present(0, Body(10, 1)), map[1 := Proc(11, FoundDead(0)), 2 := Proc(12, FoundDead(0))], 1)
    ensures Exec(INIT, longer) == t == State(Present(1, Unwritten), map[1 := Proc(11, FoundDead(0))], 2)
  {
    hide Exec, PidAlive;
    Snoc(INIT, es, UnlinkStale(2));
    longer := es + [UnlinkStale(2)];
    Snoc(INIT, longer, CreateNew(2, 2));
    longer := longer + [CreateNew(2, 2)];
    Snoc(INIT, longer, Die(2));
    longer := longer + [Die(2)];
    t := State(Present(1, Unwritten), map[1 := Proc(11, FoundDead(0))], 2);
    assert Exec(INIT, longer) == t;
  }

  /** The holder dies; two new processes read its body and find its pid dead. */
  lemma BothFindDead(es: seq<Event>, s: State) returns (longer: seq<Event>, t: State)
    requires Exec(INIT, es) == s == State(Present(0, Body(10, 1)), map[0 := Proc(10, Holding(0, 1))], 1)
    ensures Exec(INIT, longer) == t
    ensures t == State(Present(0, Body(10, 1)), map[1 := Proc(11, FoundDead(0)), 2 := Proc(12, FoundDead(0))], 1)
  {
    hide Exec;
    Snoc(INIT, es, Die(0));
    longer := es + [Die(0)];
    assert Exec(INIT, longer) == State(s.file, map[], 1);
    Snoc(INIT, longer, Spawn(1, 11));
    longer := longer + [Spawn(1, 11)];
    Snoc(INIT, longer, Spawn(2, 12));
    longer := longer + [Spawn(2, 12)];
    longer, t := BothRead(longer, State(s.file, map[1 := Proc(11, Idle), 2 := Proc(12, Idle)], 1));
    longer, t := BothCheck(longer, t);
  }

  lemma BothRead(es: seq<Event>, s: State) returns (longer: seq<Event>, t: State)
    requires Exec(INIT, es) == s
    requires s == State(Present(0, Body(10, 1)), map[1 := Proc(11, Idle), 2 := Proc(12, Idle)], 1)
    ensures Exec(INIT, longer) == t
    ensures t == State(s.file, map[1 := Proc(11, Seen(0, 10)), 2 := Proc(12, Seen(0, 10))], 1)
  {
    hide Exec, PidAlive;
    Snoc(INIT, es, Read(1));
    Snoc(INIT, es + [Read(1)], Read(2));
    longer := es + [Read(1)] + [Read(2)];
    t := State(s.file, map[1 := Proc(11, Seen(0, 10)), 2 := Proc(12, Seen(0, 10))], 1);
    assert Exec(INIT, longer) == t;
  }

  lemma BothCheck(es: seq<Event>, s: State) returns (longer: seq<Event>, t: State)
    requires Exec(INIT, es) == s
    requires s == State(Present(0, Body(10, 1)), map[1 := Proc(11, Seen(0, 10)), 2 := Proc(12, Seen(0, 10))], 1)
    ensures Exec(INIT, longer) == t
    ensures t == State(s.file, map[1 := Proc(11, FoundDead(0)), 2 := Proc(12, FoundDead(0))], 1)
  {
    hide Exec;
    Snoc(INIT, es, CheckAlive(1));
    Snoc(INIT, es + [CheckAlive(1)], CheckAlive(2));
    longer := es + [CheckAlive(1)] + [CheckAlive(2)];
    t := State(s.file, map[1 := Proc(11, FoundDead(0)), 2 := Proc(12, FoundDead(0))], 1);
    assert Exec(INIT, longer) == t;
  }

  /** Left alone, an acquire succeeds exactly when there is no file, or a file
      whose recorded pid is dead. */
  lemma AloneAcquiresIff(s: State, q: nat, now: nat)
    requires Invariant(s) && q in s.procs && s.procs[q].phase == Idle
    ensures var t := Step(Step(Step(s, Read(q)), CheckAlive(q)), UnlinkStale(q));
            var u := Step(Step(t, CreateNew(q, now)), WriteBody(q));
            Holds(u.procs[q].phase) <==>
              s.file.Absent? || (s.file.body.Body? && !PidAlive(s, s.file.body.pid))
  {
    hide Invariant;
    var a := Step(s, Read(q));
    SamePidsAlive(s, a);
    var b := Step(a, CheckAlive(q));
    var c := Step(b, UnlinkStale(q));
    var d := Step(c, CreateNew(q, now));
  }

  lemma SamePidsAlive(s: State, t: State)
    requires t.procs.Keys == s.procs.Keys && forall p :: p in s.procs ==> t.procs[p].pid == s.procs[p].pid
    ensures forall pid :: PidAlive(s, pid) <==> PidAlive(t, pid)
  {
    forall pid ensures PidAlive(s, pid) <==> PidAlive(t, pid) {
      if PidAlive(s, pid) {
        var p :| p in s.procs && s.procs[p].pid == pid;
        assert p in t.procs && t.procs[p].pid == pid;
      }
      if PidAlive(t, pid) {
        var p :| p in t.procs && t.procs[p].pid == pid;
        assert p in s.procs && s.procs[p].pid == pid;
      }
    }
  }

  /** The read-only check: refused exactly while a readable body names a live pid. */
  predicate CheckUnlocked(s: State) {
    !(s.file.Present? && s.file.body.Body? && PidAlive(s, s.file.body.pid))
  }

  /** While the invariant holds, the query refuses exactly when somebody holds the
      lock, or a live process happens to have the pid that a dead holder left. */
  lemma QueryRefusesIff(s: State)
    requires Invariant(s)
    ensures !CheckUnlocked(s) <==>
              || (exists p :: p in s.procs && Holds(s.procs[p].phase))
              || (s.file.Present? && s.file.body.Body? && exists p :: p in s.procs && s.procs[p].pid == s.file.body.pid)
    ensures Wedged(s) ==> CheckUnlocked(s)
  {
    forall p | p in s.procs && Holds(s.procs[p].phase) ensures !CheckUnlocked(s) { assert ProcOk(s, p); }
  }

  /** In any state at all, a drop removes the file only when its body names the
      process and the time of its own acquire; it leaves any other file alone. */
  lemma DropReadsFirst(s: State, p: nat)
    requires p in s.procs && s.procs[p].phase.Holding?
    ensures var since := s.procs[p].phase.since;
            var own := s.file.Present? && s.file.body == Body(s.procs[p].pid, since);
            Step(Step(s, DropRead(p)), DropUnlink(p))
              == s.(file := if own then Absent else s.file, procs := s.procs[p := Proc(s.procs[p].pid, Idle)])
  {
  }

  /** Undisturbed, a drop releases the lock: the next to come acquires it. */
  lemma DropReleases(s: State, p: nat, q: nat, now: nat)
    requires Invariant(s) && p in s.procs && s.procs[p].phase.Holding?
    requires q in s.procs && q != p && s.procs[q].phase == Idle
    ensures var t := Step(Step(s, DropRead(p)), DropUnlink(p));
            var u := Step(Step(Step(t, Read(q)), CreateNew(q, now)), WriteBody(q));
            t.file == Absent && CheckUnlocked(t) && HoldsFile(u, q)
  {
    assert ProcOk(s, p);
    hide Invariant, ProcOk, PidAlive;
    DropReadsFirst(s, p);
  }

  /** While the invariant holds, a passed check means nobody holds the lock. */
  lemma UnlockedMeansFree(s: State)
    requires Invariant(s) && CheckUnlocked(s)
    ensures forall p :: p in s.procs ==> !Holds(s.procs[p].phase)
  {
    forall p | p in s.procs ensures !Holds(s.procs[p].phase) { assert ProcOk(s, p); }
  }
}
