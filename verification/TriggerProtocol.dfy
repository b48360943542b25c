/** Crash-tolerant dispatch (src/trigger.rs, src/sensord.rs): the daemon, its
    child processes and the disk, in any interleaving. Every file-system call is
    its own step, so a crash can fall between any two of them, and a torn append
    can leave any part of a line behind. Children outlive the daemon. */
module TriggerProtocol {
  import opened Strings
  import opened SeenStore

  /** Where the daemon is in its loop for one binding. */
  datatype Pc =
    | Ready                                              // poll is next
    | Dispatching(queue: seq<EventId>)                   // polled events still to drive
    | Launching(id: EventId, queue: seq<EventId>)        // the marker was absent; spawn is next
    | Waiting(id: EventId, child: nat, queue: seq<EventId>)
    | Launched(id: EventId, queue: seq<EventId>)         // dispatch said admitted; memory is next
    | Appending(id: EventId, queue: seq<EventId>)        // in memory; the log line is next
    | SweepDue
    | Compacting(gone: set<string>, obs: set<EventId>)   // memory filtered; rename is next
    | Removing(left: set<string>, obs: set<EventId>)     // log replaced; markers are next

  datatype Daemon = Down | Up(seen: set<string>, pc: Pc)

  /** acked is a history variable: every id ever acknowledged. */
  datatype State = State(disk: Disk, daemon: Daemon, children: map<nat, EventId>, nextChild: nat, acked: set<EventId>)

  datatype Event =
    | Poll(events: seq<EventId>)
    | PollFails
    | Skip
    | FindMarker
    | MissMarker
    | LaunchFails
    | Spawn
    | SeeAck
    | ChildExited
    | TimeoutKill
    | Remember
    | Append(io: Io)
    | EndDispatch
    | Sweep(obs: set<EventId>)
    | SweepFails
    | Rename(order: seq<string>)
    | RemoveMarker(id: string)
    | RemoveFails(id: string)
    | SweepDone
    | ChildAck(child: nat)
    | ChildDies(child: nat)
    | Crash(torn: nat)
    | Restart

  const INIT := State(Disk("", {}), Down, map[], 0, {})

  function At(s: State, pc: Pc): State
    requires s.daemon.Up?
  {
    s.(daemon := Up(s.daemon.seen, pc))
  }

  /** One step. A step that is not due leaves the state alone. */
  function Step(s: State, e: Event): State {
    match e
    case ChildAck(c) =>
      if c !in s.children then s
      else
        var id := s.children[c];
        // create_new: the first to acknowledge an id wins, a later one fails
        s.(children := s.children - {c}, disk := s.disk.(markers := s.disk.markers + {id}), acked := s.acked + {id})
    case ChildDies(c) => s.(children := s.children - {c})
    case Restart => if s.daemon.Down? then s.(daemon := Up(Reload(s.disk), Ready)) else s
    case Crash(torn) =>
      if s.daemon.Down? then s
      else if s.daemon.pc.Appending? then
        var text := Written(s.daemon.pc.id + "\n", FailsAfter(torn));
        s.(daemon := Down, disk := s.disk.(log := s.disk.log + text))
      else s.(daemon := Down)
    case _ => if s.daemon.Down? then s else DaemonStep(s, e)
  }

  function DaemonStep(s: State, e: Event): State
    requires s.daemon.Up?
  {
    var seen := s.daemon.seen;
    match s.daemon.pc
    case Ready =>
      if e.Poll? then At(s, Dispatching(e.events)) else if e.PollFails? then At(s, SweepDue) else s
    case Dispatching(queue) =>
      if queue == [] then (if e.EndDispatch? then At(s, SweepDue) else s)
      else if queue[0] in seen then (if e.Skip? then At(s, Dispatching(queue[1..])) else s)
      else if e.LaunchFails? then At(s, Dispatching(queue[1..]))
      else if e.FindMarker? && queue[0] in s.disk.markers then At(s, Launched(queue[0], queue[1..]))
      else if e.MissMarker? && queue[0] !in s.disk.markers then At(s, Launching(queue[0], queue[1..]))
      else s
    case Launching(id, queue) =>
      if e.Spawn? then
        At(s, Waiting(id, s.nextChild, queue)).(children := s.children[s.nextChild := id], nextChild := s.nextChild + 1)
      else if e.LaunchFails? then At(s, Dispatching(queue))
      else s
    case Waiting(id, child, queue) =>
      if e.SeeAck? && id in s.disk.markers then At(s, Launched(id, queue))
      else if e.ChildExited? && child !in s.children then At(s, Dispatching(queue))
      else if e.TimeoutKill? then At(s, Dispatching(queue)).(children := s.children - {child})
      else if e.LaunchFails? then At(s, Dispatching(queue))  // asking after the child failed; it lives on
      else s
    case Launched(id, queue) =>
      if !e.Remember? then s
      else if id in seen then At(s, Dispatching(queue))
      else s.(daemon := Up(seen + {id}, Appending(id, queue)))
    case Appending(id, queue) =>
      if !e.Append? then s
      else
        var text := Written(id + "\n", e.io);
        At(s, if text == id + "\n" then Dispatching(queue) else SweepDue).(disk := s.disk.(log := s.disk.log + text))
    case SweepDue =>
      if e.SweepFails? then At(s, Ready)
      else if !e.Sweep? then s
      else
        var gone := seen - e.obs;
        if gone == {} then At(s, Ready) else s.(daemon := Up(seen * e.obs, Compacting(gone, e.obs)))
    case Compacting(gone, obs) =>
      if e.SweepFails? then At(s, Ready)
      else if e.Rename? && (set x: string | x in e.order) == seen then
        At(s, Removing(gone, obs)).(disk := s.disk.(log := Render(e.order)))
      else s
    case Removing(left, obs) =>
      if e.RemoveMarker? && e.id in left then
        At(s, Removing(left - {e.id}, obs)).(disk := s.disk.(markers := set m | m in s.disk.markers && m != e.id))
      else if e.RemoveFails? && e.id in left then At(s, Removing(left - {e.id}, obs))
      else if e.SweepDone? && left == {} then At(s, Ready)
      else s
  }

  function Exec(s: State, es: seq<Event>): State {
    if es == [] then s else Step(Exec(s, es[..|es| - 1]), es[|es| - 1])
  }

  lemma ExecSnoc(s: State, es: seq<Event>, e: Event)
    ensures Exec(s, es + [e]) == Step(Exec(s, es), e)
  {
    assert (es + [e])[..|es|] == es;
  }

  // ---- the store's operations are runs of these steps ----

  /** Remembering and appending, undisturbed, is the store's insert. */
  lemma InsertIsTwoSteps(s: State, io: Io)
    requires s.daemon.Up? && s.daemon.pc.Launched?
    ensures var t, id := Step(Step(s, Remember), Append(io)), s.daemon.pc.id;
            && t.daemon.Up? && t.daemon.seen == s.daemon.seen + {id}
            && t.disk.markers == s.disk.markers
            && t.disk.log == (if id in s.daemon.seen then s.disk.log else s.disk.log + Written(id + "\n", io))
            && (t.daemon.pc.SweepDue? <==> !(id in s.daemon.seen || Written(id + "\n", io) == id + "\n"))
  {
    hide Written;
    var id := s.daemon.pc.id;
    if id in s.daemon.seen { assert s.daemon.seen + {id} == s.daemon.seen; }
  }

  /** Markers left standing when these are removed, as far as they can be. */
  function Without(markers: set<EventId>, gone: set<string>, stuck: set<string>): set<EventId> {
    set m | m in markers && (m !in gone || m in stuck)
  }

  /** The removal loop, for any part of what is left to remove. */
  lemma {:induction false} RemoveSome(s: State, gone: set<string>, stuck: set<string>) returns (es: seq<Event>)
    requires s.daemon.Up? && s.daemon.pc.Removing? && gone <= s.daemon.pc.left
    ensures Exec(s, es) == At(s, Removing(s.daemon.pc.left - gone, s.daemon.pc.obs))
                             .(disk := s.disk.(markers := Without(s.disk.markers, gone, stuck)))
    decreases gone
  {
    if gone == {} {
      es := [];
      assert s.daemon.pc.left - gone == s.daemon.pc.left;
      assert Without(s.disk.markers, gone, stuck) == s.disk.markers;
    } else {
      var id :| id in gone;
      var before := RemoveSome(s, gone - {id}, stuck);
      var e := if id in stuck then RemoveFails(id) else RemoveMarker(id);
      es := before + [e];
      ExecSnoc(s, before, e);
      hide Exec;
      OneMoreRemoved(s.disk.markers, s.daemon.pc.left, gone, stuck, id);
    }
  }

  lemma OneMoreRemoved(markers: set<EventId>, left: set<string>, gone: set<string>, stuck: set<string>, id: string)
    requires id in gone && gone <= left
    ensures left - (gone - {id}) - {id} == left - gone && id in left - (gone - {id})
    ensures id in stuck ==> Without(markers, gone, stuck) == Without(markers, gone - {id}, stuck)
    ensures id !in stuck ==>
              Without(markers, gone, stuck) == set m | m in Without(markers, gone - {id}, stuck) && m != id
  {
  }

  /** A sweep that runs to its end is the store's reclaim: memory filtered, the log
      replaced by what stays, the markers of the rest removed where possible. */
  lemma SweepIsRetain(s: State, obs: set<EventId>, order: seq<string>, stuck: set<string>) returns (es: seq<Event>)
    requires s.daemon.Up? && s.daemon.pc.SweepDue? && s.daemon.seen - obs != {}
    requires (set x: string | x in order) == s.daemon.seen * obs
    ensures Exec(s, es) == State(Disk(Render(order), Without(s.disk.markers, s.daemon.seen - obs, stuck)),
                                 Up(s.daemon.seen * obs, Ready), s.children, s.nextChild, s.acked)
  {
    hide Render, Exec;
    var gone := s.daemon.seen - obs;
    var s2 := s.(daemon := Up(s.daemon.seen * obs, Removing(gone, obs)), disk := s.disk.(log := Render(order)));
    SweepStarts(s, obs, order);
    var removals := RemoveSome(s2, gone, stuck);
    assert gone - gone == {};
    var most := [Sweep(obs), Rename(order)] + removals;
    ExecConcat(s, [Sweep(obs), Rename(order)], removals);
    es := most + [SweepDone];
    ExecSnoc(s, most, SweepDone);
  }

  lemma SweepStarts(s: State, obs: set<EventId>, order: seq<string>)
    requires s.daemon.Up? && s.daemon.pc.SweepDue? && s.daemon.seen - obs != {}
    requires (set x: string | x in order) == s.daemon.seen * obs
    ensures Exec(s, [Sweep(obs), Rename(order)])
         == s.(daemon := Up(s.daemon.seen * obs, Removing(s.daemon.seen - obs, obs)),
               disk := s.disk.(log := Render(order)))
  {
    hide Render, Exec;
    ExecTwo(s, Sweep(obs), Rename(order));
  }

  lemma ExecTwo(s: State, e: Event, f: Event)
    ensures Exec(s, [e, f]) == Step(Step(s, e), f)
  {
    ExecSnoc(s, [], e);
    ExecSnoc(s, [e], f);
    assert [] + [e] == [e] && [e] + [f] == [e, f];
  }

  lemma {:induction false} ExecConcat(s: State, es: seq<Event>, fs: seq<Event>)
    ensures Exec(s, es + fs) == Exec(Exec(s, es), fs)
  {
    if fs == [] {
      assert es + fs == es;
    } else {
      var n := |fs| - 1;
      assert fs == fs[..n] + [fs[n]] && es + fs == es + fs[..n] + [fs[n]];
      hide Step;
      ExecConcat(s, es, fs[..n]);
      ExecSnoc(s, es + fs[..n], fs[n]);
    }
  }

  // ---- what can be in the log ----

  /** g is made of pieces that are each the start of an acknowledged id. */
  ghost predicate Pieces(g: string, acked: set<EventId>)
    decreases |g|
  {
    g == "" || exists a: EventId, j: nat :: a in acked && EndsWithStart(g, a, j) && Pieces(g[..|g| - j], acked)
  }

  ghost predicate EndsWithStart(g: string, a: EventId, j: nat) {
    0 < j <= 64 && j <= |g| && g[|g| - j..] == a[..j]
  }

  /** g is made of two or more such pieces: the trace of a torn append with
      something appended behind it. */
  ghost predicate Spliced(g: string, acked: set<EventId>) {
    exists a: EventId, j: nat :: a in acked && EndsWithStart(g, a, j) && j < |g| && Pieces(g[..|g| - j], acked)
  }

  lemma PiecesAppend(g: string, a: EventId, j: nat, acked: set<EventId>)
    requires Pieces(g, acked) && a in acked && 0 < j <= 64
    ensures Pieces(g + a[..j], acked)
    ensures g != "" ==> Spliced(g + a[..j], acked)
  {
    var h := g + a[..j];
    assert h[..|h| - j] == g && EndsWithStart(h, a, j);
  }

  lemma {:induction false} PiecesGrow(g: string, acked: set<EventId>, more: set<EventId>)
    requires Pieces(g, acked) && acked <= more
    ensures Pieces(g, more)
    decreases |g|
  {
    if g != "" {
      var a: EventId, j: nat :| a in acked && EndsWithStart(g, a, j) && Pieces(g[..|g| - j], acked);
      PiecesGrow(g[..|g| - j], acked, more);
    }
  }

  lemma SplicedGrow(g: string, acked: set<EventId>, more: set<EventId>)
    requires Spliced(g, acked) && acked <= more
    ensures Spliced(g, more)
  {
    var a: EventId, j: nat :| a in acked && EndsWithStart(g, a, j) && j < |g| && Pieces(g[..|g| - j], acked);
    PiecesGrow(g[..|g| - j], acked, more);
  }

  lemma {:induction false} PiecesAreHex(g: string, acked: set<EventId>)
    requires Pieces(g, acked)
    ensures forall i :: 0 <= i < |g| ==> IsHex(g[i])
    decreases |g|
  {
    if g != "" {
      var a: EventId, j: nat :| a in acked && EndsWithStart(g, a, j) && Pieces(g[..|g| - j], acked);
      PiecesAreHex(g[..|g| - j], acked);
      var n := |g| - j;
      forall i | 0 <= i < |g| ensures IsHex(g[i]) {
        if i < n { assert g[i] == g[..n][i]; } else { assert g[i] == g[n..][i - n] == a[..j][i - n] == a[i - n]; }
      }
    }
  }

  function Others(acked: set<EventId>, x: string): set<EventId> {
    set y | y in acked && y != x
  }

  /** Text the daemon may take for an id: it names a standing marker, or it is an
      accident of splicing other ids. */
  ghost predicate Accounted(x: string, markers: set<EventId>, acked: set<EventId>) {
    IsDigest(x) ==> x in markers || Spliced(x, Others(acked, x))
  }

  /** Pieces of ids whose markers stand, or a whole line that a sweep kept. */
  ghost predicate LineOk(l: string, markers: set<EventId>, acked: set<EventId>) {
    Pieces(l, markers) || (IsDigest(l) && Accounted(l, markers, acked))
  }

  ghost predicate LogOk(log: string, markers: set<EventId>, acked: set<EventId>) {
    var cut := CutLines(log);
    && (forall i :: 0 <= i < |cut.done| ==> LineOk(cut.done[i], markers, acked))
    && Pieces(cut.tail, markers)
  }

  lemma SplicedIsPieces(g: string, acked: set<EventId>)
    requires Spliced(g, acked)
    ensures Pieces(g, acked)
  {
  }

  /** Pieces of standing ids that read as an id make a standing one, or a splice of
      others. */
  lemma PiecesAccounted(l: string, m: set<EventId>, a: set<EventId>)
    requires Pieces(l, m) && m <= a
    ensures Accounted(l, m, a)
  {
    if IsDigest(l) && l !in m {
      var id: EventId, j: nat :| id in m && EndsWithStart(l, id, j) && Pieces(l[..|l| - j], m);
      assert id[..64] == id && l[0..] == l;
      assert Spliced(l, m);
      hide Spliced;
      SplicedGrow(l, m, Others(a, l));
    }
  }

  lemma LineOkGrow(l: string, m: set<EventId>, a: set<EventId>, m': set<EventId>, a': set<EventId>)
    requires LineOk(l, m, a) && m <= m' && a <= a'
    ensures LineOk(l, m', a')
  {
    hide Pieces, Accounted;
    if Pieces(l, m) { PiecesGrow(l, m, m'); } else { AccountedGrow(l, m, a, m', a'); }
  }

  lemma AccountedGrow(x: string, m: set<EventId>, a: set<EventId>, m': set<EventId>, a': set<EventId>)
    requires Accounted(x, m, a) && m <= m' && a <= a'
    ensures Accounted(x, m', a')
  {
    hide Spliced;
    if Spliced(x, Others(a, x)) { SplicedGrow(x, Others(a, x), Others(a', x)); }
  }

  lemma LogOkGrow(log: string, m: set<EventId>, a: set<EventId>, m': set<EventId>, a': set<EventId>)
    requires LogOk(log, m, a) && m <= m' && a <= a'
    ensures LogOk(log, m', a')
  {
    hide LineOk, CutLines, Pieces;
    var cut := CutLines(log);
    forall i | 0 <= i < |cut.done| ensures LineOk(cut.done[i], m', a') { LineOkGrow(cut.done[i], m, a, m', a'); }
    PiecesGrow(cut.tail, m, m');
  }

  /** Any part of a standing id may end up behind whatever was there. */
  lemma TornTailOk(tail: string, id: EventId, j: nat, m: set<EventId>)
    requires Pieces(tail, m) && id in m && j <= 64
    ensures Pieces(tail + id[..j], m)
  {
    hide Pieces, Spliced;
    if j == 0 {
      assert tail + id[..0] == tail;
    } else {
      PiecesAppend(tail, id, j, m);
    }
  }

  lemma HexHasNoNewline(x: string)
    requires forall i :: 0 <= i < |x| ==> IsHex(x[i])
    ensures '\n' !in x && Chomp(x) == x
  {
  }

  /** An append, whole or torn, of an id whose marker stands. */
  lemma AppendOk(log: string, id: EventId, io: Io, m: set<EventId>, a: set<EventId>)
    requires LogOk(log, m, a) && id in m
    ensures LogOk(log + Written(id + "\n", io), m, a)
  {
    hide Pieces, CutLines;
    var cut, text := CutLines(log), Written(id + "\n", io);
    HexHasNoNewline(id);
    if text == id + "\n" {
      TornTailOk(cut.tail, id, 64, m);
      assert id[..64] == id;
      CutAppendLine(log, id);
      assert log + (id + "\n") == log + id + "\n";
      NoPieces(m);
    } else {
      var j := io.chars;
      assert text == id[..j] && '\n' !in id[..j];
      TornTailOk(cut.tail, id, j, m);
      CutAppend(log, id[..j]);
    }
  }

  lemma NoPieces(m: set<EventId>)
    ensures Pieces("", m)
  {
  }

  /** Every line read back is accounted for. */
  lemma LinesOk(log: string, m: set<EventId>, a: set<EventId>)
    requires LogOk(log, m, a)
    ensures forall l :: l in Lines(log) ==> LineOk(l, m, a)
  {
    hide Pieces, Accounted, CutLines, Chomp;
    var cut := CutLines(log);
    var raw := if cut.tail == "" then cut.done else cut.done + [cut.tail];
    forall i | 0 <= i < |raw| ensures LineOk(Lines(log)[i], m, a) {
      LineOkHex(raw[i], m, a);
      HexHasNoNewline(raw[i]);
    }
  }

  lemma LineOkHex(l: string, m: set<EventId>, a: set<EventId>)
    requires LineOk(l, m, a)
    ensures forall i :: 0 <= i < |l| ==> IsHex(l[i])
  {
    if Pieces(l, m) { PiecesAreHex(l, m); }
  }

  lemma {:induction false} CutOfRender(ids: seq<string>)
    requires forall i :: 0 <= i < |ids| ==> IsDigest(ids[i])
    ensures CutLines(Render(ids)) == Cut(ids, "")
  {
    if ids != [] {
      var n := |ids| - 1;
      assert Render(ids) == Render(ids[..n]) + ids[n] + "\n";
      hide CutLines, Render, IsHex;
      CutOfRender(ids[..n]);
      HexHasNoNewline(ids[n]);
      CutAppendLine(Render(ids[..n]), ids[n]);
      EmptyPrefix(ids[n]);
      LastApart(ids);
    }
  }

  lemma EmptyPrefix(s: string)
    ensures "" + s == s
  {
  }

  lemma LastApart<T>(s: seq<T>)
    requires s != []
    ensures s == s[..|s| - 1] + [s[|s| - 1]]
  {
  }

  // ---- the invariant ----

  ghost predicate AllAccounted(xs: set<string>, m: set<EventId>, a: set<EventId>) {
    forall x :: x in xs ==> Accounted(x, m, a)
  }

  /** The log holds exactly whole lines, each of them in memory. */
  ghost predicate LogWithin(log: string, seen: set<string>) {
    CutLines(log).tail == "" && forall i :: 0 <= i < |CutLines(log).done| ==> CutLines(log).done[i] in seen
  }

  ghost predicate PcOk(pc: Pc, seen: set<string>, d: Disk, acked: set<EventId>) {
    match pc
    case Launched(id, _) => id in d.markers
    case Appending(id, _) => id in d.markers
    case Compacting(gone, obs) => seen <= obs && gone !! obs && AllAccounted(gone, d.markers, acked)
    case Removing(left, obs) =>
      seen <= obs && left !! obs && AllAccounted(left, d.markers, acked) && LogWithin(d.log, seen)
    case _ => true
  }

  ghost predicate Invariant(s: State) {
    && s.disk.markers <= s.acked
    && LogOk(s.disk.log, s.disk.markers, s.acked)
    && (s.daemon.Up? ==>
          && AllAccounted(s.daemon.seen, s.disk.markers, s.acked)
          && PcOk(s.daemon.pc, s.daemon.seen, s.disk, s.acked))
  }

  lemma InitOk()
    ensures Invariant(INIT)
  {
  }

  lemma ReloadAccounted(d: Disk, acked: set<EventId>)
    requires LogOk(d.log, d.markers, acked) && d.markers <= acked
    ensures AllAccounted(Reload(d), d.markers, acked)
  {
    hide Spliced, Pieces, Lines;
    LinesOk(d.log, d.markers, acked);
    forall l | Pieces(l, d.markers) ensures Accounted(l, d.markers, acked) { PiecesAccounted(l, d.markers, acked); }
  }

  lemma AckKeeps(s: State, c: nat)
    requires Invariant(s)
    ensures Invariant(Step(s, ChildAck(c)))
  {
    hide LogOk, Accounted, LogWithin;
    if c in s.children {
      var id := s.children[c];
      var m, a := s.disk.markers + {id}, s.acked + {id};
      LogOkGrow(s.disk.log, s.disk.markers, s.acked, m, a);
      forall x | Accounted(x, s.disk.markers, s.acked) ensures Accounted(x, m, a) {
        AccountedGrow(x, s.disk.markers, s.acked, m, a);
      }
    }
  }

  lemma CrashKeeps(s: State, torn: nat)
    requires Invariant(s)
    ensures Invariant(Step(s, Crash(torn)))
  {
    hide LogOk, Accounted, LogWithin, Written;
    if s.daemon.Up? && s.daemon.pc.Appending? {
      AppendOk(s.disk.log, s.daemon.pc.id, FailsAfter(torn), s.disk.markers, s.acked);
    }
  }

  lemma RestartKeeps(s: State)
    requires Invariant(s)
    ensures Invariant(Step(s, Restart))
  {
    hide LogOk, Accounted, LogWithin, Reload;
    ReloadAccounted(s.disk, s.acked);
  }

  lemma AppendKeeps(s: State, io: Io)
    requires Invariant(s) && s.daemon.Up? && s.daemon.pc.Appending?
    ensures Invariant(DaemonStep(s, Append(io)))
  {
    hide LogOk, Accounted, LogWithin, Written;
    AppendOk(s.disk.log, s.daemon.pc.id, io, s.disk.markers, s.acked);
  }

  lemma SweepKeeps(s: State, obs: set<EventId>)
    requires Invariant(s) && s.daemon.Up? && s.daemon.pc.SweepDue?
    ensures Invariant(DaemonStep(s, Sweep(obs)))
  {
    hide LogOk, Accounted, LogWithin;
  }

  /** The rewritten log holds what memory holds, and nothing else. */
  lemma RenameKeeps(s: State, order: seq<string>)
    requires Invariant(s) && s.daemon.Up? && s.daemon.pc.Compacting?
    ensures Invariant(DaemonStep(s, Rename(order)))
  {
    hide Accounted, Pieces, CutLines;
    var seen, m, a := s.daemon.seen, s.disk.markers, s.acked;
    if (set x: string | x in order) == seen {
      forall i | 0 <= i < |order| ensures order[i] in seen && IsDigest(order[i]) && LineOk(order[i], m, a) {
        assert order[i] in (set x: string | x in order);
        assert order[i] in s.daemon.pc.obs;
      }
      CutOfRender(order);
      NoPieces(m);
    }
  }

  /** A marker is removed only after its line is gone, so no line is left
      without its marker. */
  lemma RemoveKeeps(s: State, id: string)
    requires Invariant(s) && s.daemon.Up? && s.daemon.pc.Removing?
    ensures Invariant(DaemonStep(s, RemoveMarker(id)))
  {
    hide Pieces, Spliced, CutLines;
    var t := DaemonStep(s, RemoveMarker(id));
    if id in s.daemon.pc.left {
      assert t.disk.markers <= s.disk.markers;
      assert forall x :: x in s.disk.markers && x != id ==> x in t.disk.markers;
      assert forall x :: x in s.daemon.seen ==> x != id;
      NoPieces(t.disk.markers);
    }
  }

  lemma DaemonKeeps(s: State, e: Event)
    requires Invariant(s) && s.daemon.Up?
    ensures Invariant(DaemonStep(s, e))
  {
    hide LogOk, Accounted, LogWithin, Written, Render;
    if s.daemon.pc.Appending? && e.Append? {
      AppendKeeps(s, e.io);
    } else if s.daemon.pc.SweepDue? && e.Sweep? {
      SweepKeeps(s, e.obs);
    } else if s.daemon.pc.Compacting? && e.Rename? {
      RenameKeeps(s, e.order);
    } else if s.daemon.pc.Removing? && e.RemoveMarker? {
      RemoveKeeps(s, e.id);
    } else if s.daemon.pc.Launched? && e.Remember? {
      RememberKeeps(s);
    }
  }

  lemma RememberKeeps(s: State)
    requires Invariant(s) && s.daemon.Up? && s.daemon.pc.Launched?
    ensures Invariant(DaemonStep(s, Remember))
  {
    hide LogOk, LogWithin, Spliced;
  }

  lemma StepKeeps(s: State, e: Event)
    requires Invariant(s)
    ensures Invariant(Step(s, e))
  {
    match e
    case ChildAck(c) => AckKeeps(s, c);
    case Restart => RestartKeeps(s);
    case Crash(torn) => CrashKeeps(s, torn);
    case ChildDies(_) =>
    case _ => if s.daemon.Up? { hide Invariant, DaemonStep; DaemonKeeps(s, e); }
  }

  lemma {:induction false} RunKeeps(es: seq<Event>)
    ensures Invariant(Exec(INIT, es))
  {
    if es == [] {
      InitOk();
    } else {
      RunKeeps(es[..|es| - 1]);
      hide Step, Invariant;
      StepKeeps(Exec(INIT, es[..|es| - 1]), es[|es| - 1]);
    }
  }

  // ---- crash safety ----

  /** At every point of every run, what a restart would recover is, as far as
      event ids go, exactly the standing markers: nothing the daemon held is
      lost, and an event without a marker stays eligible. The one exception is
      an id that happens to be spliced together from starts of other admitted ids. */
  lemma ReloadIsExactlyMarkers(es: seq<Event>, id: EventId)
    requires !Spliced(id, Others(Exec(INIT, es).acked, id))
    ensures var s := Exec(INIT, es);
            && (id in Reload(s.disk) <==> id in s.disk.markers)
            && (s.daemon.Up? && id in s.daemon.seen ==> id in Reload(s.disk))
  {
    hide Exec, LogOk, Spliced;
    RunKeeps(es);
    var s := Exec(INIT, es);
    ReloadAccounted(s.disk, s.acked);
  }

  // ---- acknowledgements and reclaims along a run ----

  /** This step is the successful acknowledgement of id. */
  predicate Acks(s: State, e: Event, id: EventId) {
    e.ChildAck? && e.child in s.children && s.children[e.child] == id && id !in s.disk.markers
  }

  /** This step removes the marker of id, for a sweep whose poll did not see it. */
  predicate Reclaims(s: State, e: Event, id: EventId) {
    && e.RemoveMarker? && e.id == id && s.daemon.Up? && s.daemon.pc.Removing?
    && id in s.daemon.pc.left && id in s.disk.markers && id !in s.daemon.pc.obs
  }

  ghost predicate AcksAt(es: seq<Event>, i: nat, id: EventId) {
    i < |es| && Acks(Exec(INIT, es[..i]), es[i], id)
  }

  ghost predicate ReclaimsAt(es: seq<Event>, i: nat, id: EventId) {
    i < |es| && Reclaims(Exec(INIT, es[..i]), es[i], id)
  }

  /** Markers change by acknowledgements and reclaims only. */
  lemma MarkerStep(s: State, e: Event, id: EventId)
    requires Invariant(s)
    ensures Acks(s, e, id) ==> id in Step(s, e).disk.markers
    ensures Reclaims(s, e, id) ==> id !in Step(s, e).disk.markers
    ensures !Acks(s, e, id) && !Reclaims(s, e, id) ==> (id in Step(s, e).disk.markers <==> id in s.disk.markers)
  {
    hide LogOk, Accounted, LogWithin, Written, Render, Reload, DaemonStep;
    if s.daemon.Up? { MarkerDaemon(s, e, id); }
  }

  lemma MarkerDaemon(s: State, e: Event, id: EventId)
    requires Invariant(s) && s.daemon.Up?
    ensures Reclaims(s, e, id) ==> id !in DaemonStep(s, e).disk.markers
    ensures !Reclaims(s, e, id) ==> (id in DaemonStep(s, e).disk.markers <==> id in s.disk.markers)
  {
    hide LogOk, Accounted, LogWithin, Written, Render;
  }

  lemma ExecNext(es: seq<Event>, n: nat)
    requires n < |es|
    ensures Exec(INIT, es[..n + 1]) == Step(Exec(INIT, es[..n]), es[n])
  {
    assert es[..n + 1][..n] == es[..n];
  }

  /** A marker stands from its acknowledgement until a reclaim. */
  lemma {:induction false} MarkerStands(es: seq<Event>, i: nat, j: nat, id: EventId)
    requires i < j <= |es| && AcksAt(es, i, id)
    requires forall k: nat :: i < k < j ==> !ReclaimsAt(es, k, id)
    ensures id in Exec(INIT, es[..j]).disk.markers
    decreases j
  {
    hide Exec, Step, Invariant, Acks, Reclaims;
    RunKeeps(es[..j - 1]);
    ExecNext(es, j - 1);
    MarkerStep(Exec(INIT, es[..j - 1]), es[j - 1], id);
    if i < j - 1 {
      MarkerStands(es, i, j - 1, id);
      assert !ReclaimsAt(es, j - 1, id);
    }
  }

  /** The standing markers are exactly the ids acknowledged and not since
      reclaimed. */
  lemma {:induction false} MarkersAreHistory(es: seq<Event>, id: EventId)
    ensures id in Exec(INIT, es).disk.markers <==>
              exists i: nat :: AcksAt(es, i, id) && forall k: nat :: i < k < |es| ==> !ReclaimsAt(es, k, id)
  {
    assert es[..|es|] == es;
    hide Exec, AcksAt, ReclaimsAt;
    if i: nat :| AcksAt(es, i, id) && forall k: nat :: i < k < |es| ==> !ReclaimsAt(es, k, id) {
      MarkerStands(es, i, |es|, id);
    }
    if id in Exec(INIT, es).disk.markers {
      var i := LastAck(es, |es|, id);
    }
  }

  lemma {:induction false} LastAck(es: seq<Event>, n: nat, id: EventId) returns (i: nat)
    requires n <= |es| && id in Exec(INIT, es[..n]).disk.markers
    ensures i < n && AcksAt(es, i, id) && forall k: nat :: i < k < n ==> !ReclaimsAt(es, k, id)
  {
    hide Exec, Step, Invariant, Acks, Reclaims;
    StartState(es);
    assert n > 0;
    ExecNext(es, n - 1);
    RunKeeps(es[..n - 1]);
    MarkerStep(Exec(INIT, es[..n - 1]), es[n - 1], id);
    if AcksAt(es, n - 1, id) {
      i := n - 1;
    } else {
      i := LastAck(es, n - 1, id);
    }
  }

  lemma StartState(es: seq<Event>)
    ensures Exec(INIT, es[..0]) == INIT
  {
  }

  /** Between two successful acknowledgements of an id lies a reclaim of it. */
  lemma OneAckPerReclaim(es: seq<Event>, i: nat, j: nat, id: EventId)
    requires i < j && AcksAt(es, i, id) && AcksAt(es, j, id)
    ensures exists k: nat :: i < k < j && ReclaimsAt(es, k, id)
  {
    if forall k: nat :: i < k < j ==> !ReclaimsAt(es, k, id) {
      hide Exec;
      MarkerStands(es, i, j, id);
    }
  }

  // ---- the sweep behind a reclaim ----

  predicate Sweeping(s: State, id: EventId, obs: set<EventId>) {
    s.daemon.Up? && ((s.daemon.pc.Compacting? && s.daemon.pc.obs == obs && id in s.daemon.pc.gone)
                  || (s.daemon.pc.Removing? && s.daemon.pc.obs == obs && id in s.daemon.pc.left))
  }

  predicate StartsSweep(s: State, e: Event, obs: set<EventId>) {
    e == Sweep(obs) && s.daemon.Up? && s.daemon.pc.SweepDue?
  }

  ghost predicate StartsSweepAt(es: seq<Event>, i: nat, obs: set<EventId>) {
    i < |es| && StartsSweep(Exec(INIT, es[..i]), es[i], obs)
  }

  lemma SweepingStep(s: State, e: Event, id: EventId, obs: set<EventId>)
    requires Sweeping(Step(s, e), id, obs)
    ensures Sweeping(s, id, obs) || StartsSweep(s, e, obs)
  {
    hide Written, Render, Reload;
  }

  /** A sweep under way was started by a poll, and has meant to drop the id ever
      since. */
  lemma {:induction false} SweepOf(es: seq<Event>, n: nat, id: EventId, obs: set<EventId>) returns (m: nat)
    requires n <= |es| && Sweeping(Exec(INIT, es[..n]), id, obs)
    ensures m < n && StartsSweepAt(es, m, obs)
    ensures forall x :: m < x <= n ==> Sweeping(Exec(INIT, es[..x]), id, obs)
  {
    hide Exec, Step, StartsSweep;
    StartState(es);
    assert n > 0;
    hide Sweeping;
    ExecNext(es, n - 1);
    SweepingStep(Exec(INIT, es[..n - 1]), es[n - 1], id, obs);
    if Sweeping(Exec(INIT, es[..n - 1]), id, obs) {
      m := SweepOf(es, n - 1, id, obs);
    } else {
      m := n - 1;
    }
  }

  /** While a sweep means to drop an id, the id's marker stands. */
  lemma SweepingHasMarker(s: State, id: EventId, obs: set<EventId>)
    requires Invariant(s) && Sweeping(s, id, obs) && !Spliced(id, Others(s.acked, id))
    ensures id in s.disk.markers && id !in obs
  {
    hide LogOk, LogWithin, Spliced;
  }

  lemma {:induction false} AckedGrows(es: seq<Event>, n: nat)
    requires n <= |es|
    ensures Exec(INIT, es[..n]).acked <= Exec(INIT, es).acked
    decreases |es| - n
  {
    if n == |es| {
      assert es[..n] == es;
    } else {
      ExecNext(es, n);
      AckedGrows(es, n + 1);
      AckedStep(Exec(INIT, es[..n]), es[n]);
    }
  }

  lemma AckedStep(s: State, e: Event)
    ensures s.acked <= Step(s, e).acked
  {
    hide Written, Render, Reload;
  }

  /** Between two successful acknowledgements of an id there is a sweep whose poll
      did not observe it: the sweep starts after the first acknowledgement, and
      removes the marker before the second. */
  lemma SweepBetweenAcks(es: seq<Event>, i: nat, j: nat, id: EventId) returns (m: nat, k: nat, obs: set<EventId>)
    requires i < j && AcksAt(es, i, id) && AcksAt(es, j, id) && !Spliced(id, Others(Exec(INIT, es).acked, id))
    ensures i < m < k < j && StartsSweepAt(es, m, obs) && id !in obs && ReclaimsAt(es, k, id)
  {
    OneAckPerReclaim(es, i, j, id);
    k :| i < k < j && ReclaimsAt(es, k, id);
    obs := Exec(INIT, es[..k]).daemon.pc.obs;
    m := SweepOf(es, k, id, obs);
    RunKeeps(es[..k]);
    if m <= i {
      NotAckedWhileSweeping(es, i, m, id, obs);
    }
  }

  lemma NotAckedWhileSweeping(es: seq<Event>, i: nat, m: nat, id: EventId, obs: set<EventId>)
    requires m <= i < |es| && StartsSweepAt(es, m, obs) && !Spliced(id, Others(Exec(INIT, es).acked, id))
    requires m < i ==> Sweeping(Exec(INIT, es[..i]), id, obs)
    ensures !AcksAt(es, i, id)
  {
    if m < i {
      hide Exec, Spliced, Sweeping;
      RunKeeps(es[..i]);
      AckedGrows(es, i);
      var s := Exec(INIT, es[..i]);
      if Spliced(id, Others(s.acked, id)) { SplicedGrow(id, Others(s.acked, id), Others(Exec(INIT, es).acked, id)); }
      SweepingHasMarker(s, id, obs);
    }
  }

  // ---- no launch over a marker ----

  predicate Misses(s: State, e: Event, id: EventId) {
    e.MissMarker? && s.daemon.Up? && s.daemon.pc.Dispatching? && s.daemon.pc.queue != [] && s.daemon.pc.queue[0] == id
      && id !in s.daemon.seen && id !in s.disk.markers
  }

  predicate LaunchingOf(s: State, id: EventId) { s.daemon.Up? && s.daemon.pc.Launching? && s.daemon.pc.id == id }

  /** A launch under way looked for the marker and did not find it. */
  lemma {:induction false} LaunchFollowsMiss(es: seq<Event>, n: nat, id: EventId) returns (m: nat)
    requires n <= |es| && LaunchingOf(Exec(INIT, es[..n]), id)
    ensures m < n && Misses(Exec(INIT, es[..m]), es[m], id)
    ensures forall x :: m < x <= n ==> LaunchingOf(Exec(INIT, es[..x]), id)
  {
    hide Exec, Step, Misses;
    StartState(es);
    assert n > 0;
    hide LaunchingOf;
    ExecNext(es, n - 1);
    LaunchingStep(Exec(INIT, es[..n - 1]), es[n - 1], id);
    if LaunchingOf(Exec(INIT, es[..n - 1]), id) {
      m := LaunchFollowsMiss(es, n - 1, id);
    } else {
      m := n - 1;
    }
  }

  /** The step from here adds child c for id. */
  predicate AddsChild(s: State, e: Event, c: nat, id: EventId) {
    var t := Step(s, e);
    (c !in s.children || s.children[c] != id) && c in t.children && t.children[c] == id
  }

  lemma OnlySpawnAdds(s: State, e: Event, c: nat, id: EventId)
    requires AddsChild(s, e, c, id)
    ensures e == Spawn && c == s.nextChild && LaunchingOf(s, id)
  {
    hide Written, Render, Reload, DaemonStep;
    if s.daemon.Up? { DaemonAdds(s, e, c); }
  }

  lemma DaemonAdds(s: State, e: Event, c: nat)
    requires s.daemon.Up? && c in DaemonStep(s, e).children
    ensures if c in s.children && DaemonStep(s, e).children[c] == s.children[c] then true
            else e == Spawn && s.daemon.pc.Launching? && c == s.nextChild
                 && DaemonStep(s, e).children[c] == s.daemon.pc.id
  {
    hide Written, Render;
  }

  /** Whenever a step adds a child for an event, it is the spawn of a launch that
      looked for the event's marker, did not find it, and has done nothing since. */
  lemma SpawnFollowsMiss(es: seq<Event>, n: nat, c: nat, id: EventId) returns (m: nat)
    requires n < |es| && AddsChild(Exec(INIT, es[..n]), es[n], c, id)
    ensures es[n] == Spawn && m < n && Misses(Exec(INIT, es[..m]), es[m], id)
    ensures forall x :: m < x <= n ==> LaunchingOf(Exec(INIT, es[..x]), id)
  {
    hide Exec, Step, Misses, LaunchingOf;
    OnlySpawnAdds(Exec(INIT, es[..n]), es[n], c, id);
    m := LaunchFollowsMiss(es, n, id);
  }

  lemma LaunchingStep(s: State, e: Event, id: EventId)
    requires LaunchingOf(Step(s, e), id)
    ensures LaunchingOf(s, id) || Misses(s, e, id)
  {
    hide Written, Render, Reload;
  }

  // ---- admitted again without being observed again ----

  /** Nothing under way can acknowledge id. */
  ghost predicate Quiet(s: State, id: EventId) {
    NoChild(s, id) && (s.daemon.Up? ==> QuietPc(s.daemon.pc, id))
  }

  predicate NoChild(s: State, id: EventId) {
    forall c :: c in s.children ==> s.children[c] != id
  }

  predicate QuietPc(pc: Pc, id: EventId) {
    match pc
    case Dispatching(queue) => id !in queue
    case Launching(x, queue) => x != id && id !in queue
    case Waiting(_, _, queue) => id !in queue
    case Launched(_, queue) => id !in queue
    case Appending(_, queue) => id !in queue
    case _ => true
  }

  predicate Observes(e: Event, id: EventId) { e.Poll? && id in e.events }

  lemma QuietStep(s: State, e: Event, id: EventId)
    requires Quiet(s, id) && !Observes(e, id)
    ensures Quiet(Step(s, e), id) && !Acks(s, e, id)
  {
    hide Written, Render, Reload, DaemonStep;
    if s.daemon.Up? {
      NoChildDaemon(s, e, id);
      QuietPcDaemon(s, e, id);
    }
  }

  lemma NoChildDaemon(s: State, e: Event, id: EventId)
    requires Quiet(s, id) && s.daemon.Up?
    ensures NoChild(DaemonStep(s, e), id)
  {
    hide Written, Render;
  }

  lemma QuietPcDaemon(s: State, e: Event, id: EventId)
    requires s.daemon.Up? && QuietPc(s.daemon.pc, id) && !Observes(e, id)
    ensures var t := DaemonStep(s, e); t.daemon.Up? && QuietPc(t.daemon.pc, id)
  {
    hide Written, Render;
  }

  /** es runs from s without any poll observing id. */
  ghost predicate Unobserved(es: seq<Event>, id: EventId) {
    forall i :: 0 <= i < |es| ==> !Observes(es[i], id)
  }

  lemma {:induction false} QuietRun(s: State, es: seq<Event>, id: EventId)
    requires Quiet(s, id) && Unobserved(es, id)
    ensures Quiet(Exec(s, es), id)
  {
    if es != [] {
      QuietRun(s, es[..|es| - 1], id);
      hide Step, Quiet, Observes;
      QuietStep(Exec(s, es[..|es| - 1]), es[|es| - 1], id);
    }
  }

  /** id can be acknowledged again, from s on, without any poll observing it first. */
  ghost predicate CanReadmitUnobserved(s: State, id: EventId) {
    exists es, e :: Unobserved(es + [e], id) && Acks(Exec(s, es), e, id)
  }

  /** Right after a reclaim, the event can be admitted again without being observed
      again exactly when a child launched for it is still alive. */
  lemma ReadmitIffOrphan(s: State, e: Event, id: EventId)
    requires Reclaims(s, e, id)
    ensures var t := Step(s, e);
            CanReadmitUnobserved(t, id) <==> exists c :: c in t.children && t.children[c] == id
  {
    var t := Step(s, e);
    if c :| c in t.children && t.children[c] == id {
      var es: seq<Event> := [];
      assert Exec(t, es) == t && Acks(t, ChildAck(c), id);
      assert Unobserved(es + [ChildAck(c)], id);
    } else {
      assert Quiet(t, id);
      forall es, f | Unobserved(es + [f], id) ensures !Acks(Exec(t, es), f, id) {
        assert forall i :: 0 <= i < |es| ==> es[i] == (es + [f])[i];
        assert f == (es + [f])[|es|];
        assert Unobserved(es, id) && !Observes(f, id);
        hide Exec, Step, Quiet, Acks;
        QuietRun(t, es, id);
        QuietStep(Exec(t, es), f, id);
      }
    }
  }

  // ---- runs that show the limits ----

  lemma Next(es: seq<Event>, s: State, e: Event, t: State)
    requires Exec(INIT, es) == s && Step(s, e) == t
    ensures Exec(INIT, es + [e]) == t
  {
    assert (es + [e])[..|es|] == es;
  }

  /** An idle daemon polls a fresh event and launches a child for it. */
  lemma LaunchFresh(es: seq<Event>, s: State, id: EventId) returns (longer: seq<Event>, t: State)
    requires Exec(INIT, es) == s && s.daemon.Up? && s.daemon.pc.Ready? && id !in s.daemon.seen && id !in s.disk.markers
    ensures Exec(INIT, longer) == t
    ensures t == At(s, Waiting(id, s.nextChild, []))
                   .(children := s.children[s.nextChild := id], nextChild := s.nextChild + 1)
  {
    hide Exec;
    var none: seq<EventId> := [];
    assert [id][1..] == none;
    Next(es, s, Poll([id]), At(s, Dispatching([id])));
    Next(es + [Poll([id])], At(s, Dispatching([id])), MissMarker, At(s, Launching(id, none)));
    t := At(s, Waiting(id, s.nextChild, none))
           .(children := s.children[s.nextChild := id], nextChild := s.nextChild + 1);
    Next(es + [Poll([id])] + [MissMarker], At(s, Launching(id, none)), Spawn, t);
    longer := es + [Poll([id])] + [MissMarker] + [Spawn];
  }

  /** The child acknowledges, the daemon sees it and records it in memory. */
  lemma Acknowledge(es: seq<Event>, s: State) returns (longer: seq<Event>, t: State)
    requires Exec(INIT, es) == s && s.daemon.Up? && s.daemon.pc.Waiting? && s.daemon.pc.queue == []
    requires s.daemon.pc.child in s.children && s.children[s.daemon.pc.child] == s.daemon.pc.id
    requires s.daemon.pc.id !in s.daemon.seen
    ensures Exec(INIT, longer) == t
    ensures var id := s.daemon.pc.id;
            t == State(Disk(s.disk.log, s.disk.markers + {id}), Up(s.daemon.seen + {id}, Appending(id, [])),
                       s.children - {s.daemon.pc.child}, s.nextChild, s.acked + {id})
  {
    hide Exec;
    var id, c := s.daemon.pc.id, s.daemon.pc.child;
    var s1 := s.(disk := Disk(s.disk.log, s.disk.markers + {id}),
                 children := s.children - {c}, acked := s.acked + {id});
    Next(es, s, ChildAck(c), s1);
    Next(es + [ChildAck(c)], s1, SeeAck, At(s1, Launched(id, [])));
    t := s1.(daemon := Up(s.daemon.seen + {id}, Appending(id, [])));
    Next(es + [ChildAck(c)] + [SeeAck], At(s1, Launched(id, [])), Remember, t);
    longer := es + [ChildAck(c)] + [SeeAck] + [Remember];
  }

  lemma FirstStart() returns (es: seq<Event>, s: State)
    ensures Exec(INIT, es) == s == State(Disk("", {}), Up({}, Ready), map[], 0, {})
  {
    es := [Restart];
    s := State(Disk("", {}), Up({}, Ready), map[], 0, {});
    assert Reload(Disk("", {})) == {};
    assert es[..0] == [];
  }

  /** The reclaim that ends the example below. */
  lemma SweepEverything(es: seq<Event>, s: State, id: EventId) returns (longer: seq<Event>, t: State)
    requires Exec(INIT, es) == s && s.daemon == Up({id}, Appending(id, [])) && s.disk.log == ""
    ensures Exec(INIT, longer) == t
    ensures t == s.(daemon := Up({}, Removing({id}, {})))
  {
    hide Exec;
    var line := id + "\n";
    var s1 := s.(daemon := Up({id}, Dispatching([])), disk := s.disk.(log := "" + line));
    Next(es, s, Append(Works), s1);
    Next(es + [Append(Works)], s1, EndDispatch, At(s1, SweepDue));
    var s2 := s1.(daemon := Up({}, Compacting({id}, {})));
    var none: set<EventId> := {};
    assert {id} - none == {id} && {id} * none == {};
    Next(es + [Append(Works)] + [EndDispatch], At(s1, SweepDue), Sweep({}), s2);
    t := s2.(daemon := Up({}, Removing({id}, {})), disk := s.disk.(log := ""));
    assert Render([]) == "";
    Next(es + [Append(Works)] + [EndDispatch] + [Sweep({})], s2, Rename([]), t);
    longer := es + [Append(Works)] + [EndDispatch] + [Sweep({})] + [Rename([])];
  }

  /** The daemon crashes and comes back; an open append leaves `torn` characters. */
  lemma CrashAndRestart(es: seq<Event>, s: State, torn: nat) returns (longer: seq<Event>, t: State)
    requires Exec(INIT, es) == s && s.daemon.Up?
    ensures Exec(INIT, longer) == t
    ensures var disk := if s.daemon.pc.Appending?
                        then s.disk.(log := s.disk.log + Written(s.daemon.pc.id + "\n", FailsAfter(torn)))
                        else s.disk;
            t == s.(disk := disk, daemon := Up(Reload(disk), Ready))
  {
    hide Exec, DaemonStep, Reload, Written;
    var down := Step(s, Crash(torn));
    t := Step(down, Restart);
    Next(es, s, Crash(torn), down);
    Next(es + [Crash(torn)], down, Restart, t);
    longer := es + [Crash(torn)] + [Restart];
  }

  /** An orphan can outlive the record of its own event: a child launched before a
      daemon crash is still alive when the event, admitted through a second
      child, is reclaimed, and it can then be admitted a second time. */
  lemma OrphanReadmits(id: EventId) returns (es: seq<Event>)
    ensures Reclaims(Exec(INIT, es), RemoveMarker(id), id)
    ensures CanReadmitUnobserved(Step(Exec(INIT, es), RemoveMarker(id)), id)
  {
    hide Exec, DaemonStep, Quiet, CanReadmitUnobserved;
    var s: State;
    es, s := FirstStart();
    es, s := LaunchFresh(es, s, id);
    es, s := CrashAndRestart(es, s, 0);
    assert s.daemon.seen == {} && s.children == map[0 := id];
    es, s := LaunchFresh(es, s, id);
    es, s := Acknowledge(es, s);
    assert {} + {id} == {id};
    es, s := SweepEverything(es, s, id);
    assert s.children[0] == id;
    OrphanAlive(s, id, 0);
  }

  lemma OrphanAlive(s: State, id: EventId, c: nat)
    requires s.daemon == Up({}, Removing({id}, {})) && id in s.disk.markers && c in s.children && s.children[c] == id
    ensures Reclaims(s, RemoveMarker(id), id) && CanReadmitUnobserved(Step(s, RemoveMarker(id)), id)
  {
    hide CanReadmitUnobserved;
    ReadmitIffOrphan(s, RemoveMarker(id), id);
  }

  // ---- exactly which ids can be taken for dispatched ----

  /** Nothing in memory, nothing waited for; these markers, this history and these
      children left over from earlier. */
  ghost predicate Idle(s: State, log: string, markers: set<EventId>, acked: set<EventId>, kids: map<nat, EventId>) {
    && s.disk == Disk(log, markers) && s.daemon == Up({}, Ready) && s.acked == acked
    && s.children == kids && forall c :: c in kids ==> c < s.nextChild
  }

  /** An append that stops after j characters; the sweep that follows clears
      memory but cannot replace the log. */
  lemma FailedAppend(es: seq<Event>, s: State, id: EventId, j: nat) returns (longer: seq<Event>, t: State)
    requires Exec(INIT, es) == s && s.daemon == Up({id}, Appending(id, [])) && j <= 64
    ensures Exec(INIT, longer) == t
    ensures t == s.(daemon := Up({}, Ready), disk := s.disk.(log := s.disk.log + id[..j]))
  {
    hide Exec, Written;
    var e1 := Append(FailsAfter(j));
    WrittenTorn(id, j);
    var s1 := s.(daemon := Up({id}, SweepDue), disk := s.disk.(log := s.disk.log + id[..j]));
    Next(es, s, e1, s1);
    var none: set<EventId> := {};
    assert {id} - none == {id} && {id} * none == {};
    var s2 := s1.(daemon := Up({}, Compacting({id}, {})));
    Next(es + [e1], s1, Sweep({}), s2);
    t := s1.(daemon := Up({}, Ready));
    Next(es + [e1] + [Sweep({})], s2, SweepFails, t);
    longer := es + [e1] + [Sweep({})] + [SweepFails];
  }

  /** An event whose marker stands is recognised and appended again. */
  lemma AppendAgain(es: seq<Event>, s: State, id: EventId, j: nat) returns (longer: seq<Event>, t: State)
    requires Exec(INIT, es) == s && s.daemon == Up({}, Ready) && id in s.disk.markers && j <= 64
    ensures Exec(INIT, longer) == t
    ensures t == s.(disk := s.disk.(log := s.disk.log + id[..j]))
  {
    hide Exec;
    var none: seq<EventId> := [];
    assert [id][1..] == none;
    Next(es, s, Poll([id]), At(s, Dispatching([id])));
    Next(es + [Poll([id])], At(s, Dispatching([id])), FindMarker, At(s, Launched(id, none)));
    assert {} + {id} == {id};
    var s1 := s.(daemon := Up({id}, Appending(id, none)));
    Next(es + [Poll([id])] + [FindMarker], At(s, Launched(id, none)), Remember, s1);
    hide DaemonStep;
    longer, t := FailedAppend(es + [Poll([id])] + [FindMarker] + [Remember], s1, id, j);
  }

  lemma AdmitOne(es: seq<Event>, s: State, id: EventId, m: set<EventId>, a: set<EventId>, kids: map<nat, EventId>)
    returns (longer: seq<Event>, t: State)
    requires Exec(INIT, es) == s && Idle(s, "", m, a, kids) && id !in m
    ensures Exec(INIT, longer) == t && Idle(t, "", m + {id}, a + {id}, kids)
  {
    hide Exec, Step;
    longer, t := LaunchFresh(es, s, id);
    longer, t := Acknowledge(longer, t);
    assert {} + {id} == {id} && t.children == kids;
    longer, t := FailedAppend(longer, t, id, 0);
    assert "" + id[..0] == "";
  }

  lemma {:induction false} AdmitAll(es: seq<Event>, s: State, more: set<EventId>, a: set<EventId>,
                                    kids: map<nat, EventId>)
    returns (longer: seq<Event>, t: State)
    requires Exec(INIT, es) == s && Idle(s, "", {}, a, kids)
    ensures Exec(INIT, longer) == t && Idle(t, "", more, a + more, kids)
    decreases more
  {
    hide Exec;
    if more == {} {
      longer, t := es, s;
      assert a + more == a;
    } else {
      var id :| id in more;
      var rest := more - {id};
      longer, t := AdmitAll(es, s, rest, a, kids);
      assert rest + {id} == more && a + rest + {id} == a + more;
      hide Idle;
      longer, t := AdmitOne(longer, t, id, rest, a + rest, kids);
    }
  }

  lemma LastPiece(g: string, acked: set<EventId>) returns (a: EventId, j: nat)
    requires g != "" && Pieces(g, acked)
    ensures a in acked && 0 < j <= 64 && j <= |g|
    ensures Pieces(g[..|g| - j], acked) && g == g[..|g| - j] + a[..j]
  {
    a, j :| a in acked && EndsWithStart(g, a, j) && Pieces(g[..|g| - j], acked);
    hide Pieces;
    assert g == g[..|g| - j] + g[|g| - j..];
  }

  lemma {:induction false} WritePieces(es: seq<Event>, s: State, g: string, m: set<EventId>, a: set<EventId>,
                                       kids: map<nat, EventId>)
    returns (longer: seq<Event>, t: State)
    requires Exec(INIT, es) == s && Idle(s, "", m, a, kids) && Pieces(g, m)
    ensures Exec(INIT, longer) == t && Idle(t, g, m, a, kids)
    decreases |g|
  {
    if g == "" {
      return es, s;
    }
    hide Exec, Pieces, Step;
    var id, j := LastPiece(g, m);
    longer, t := WritePieces(es, s, g[..|g| - j], m, a, kids);
    longer, t := AppendAgain(longer, t, id, j);
  }

  /** From an idle state, a splice of other ids can be left alone in the log. */
  lemma WriteSplice(es: seq<Event>, s: State, id: EventId, others: set<EventId>, a: set<EventId>,
                    kids: map<nat, EventId>)
    returns (longer: seq<Event>, t: State)
    requires Exec(INIT, es) == s && Idle(s, "", {}, a, kids) && Spliced(id, others)
    ensures Exec(INIT, longer) == t && Idle(t, id, others, a + others, kids)
    ensures Reload(t.disk) == {id} + others
  {
    SplicedIsPieces(id, others);
    hide Exec, Idle, Spliced, Pieces, Reload;
    longer, t := AdmitAll(es, s, others, a, kids);
    longer, t := WritePieces(longer, t, id, others, a + others, kids);
    assert id[..64] == id;
    TornReload(id, 64, others);
    IdleDisk(t, id, others, a + others, kids);
  }

  lemma IdleDisk(s: State, log: string, m: set<EventId>, a: set<EventId>, kids: map<nat, EventId>)
    requires Idle(s, log, m, a, kids)
    ensures s.disk == Disk(log, m) && s.daemon == Up({}, Ready) && s.acked == a && s.children == kids
  {
  }

  /** An event admitted and reclaimed again, with nothing left of it. */
  lemma Forgotten(id: EventId) returns (es: seq<Event>, s: State)
    ensures Exec(INIT, es) == s && Idle(s, "", {}, {id}, map[])
  {
    hide Exec;
    es, s := FirstStart();
    es, s := LaunchFresh(es, s, id);
    es, s := Acknowledge(es, s);
    assert {} + {id} == {id};
    es, s := SweepEverything(es, s, id);
    var s1 := s.(daemon := Up({}, Removing({}, {})), disk := Disk("", {}));
    assert {id} - {id} == {};
    Next(es, s, RemoveMarker(id), s1);
    es := es + [RemoveMarker(id)];
    s := s1.(daemon := Up({}, Ready));
    Next(es, s1, SweepDone, s);
    es := es + [SweepDone];
  }

  /** The reloaded set of some run with this history holds an id that has no marker
      if and only if the id is spliced together from the other ids of the history:
      whether it was never admitted, or was admitted and has been reclaimed. */
  lemma TakenForDispatchedIff(id: EventId, acked: set<EventId>)
    ensures (exists es :: var s := Exec(INIT, es); s.acked == acked && id in Reload(s.disk) && id !in s.disk.markers)
       <==> Spliced(id, Others(acked, id))
  {
    hide Exec, Reload;
    if es :| var s := Exec(INIT, es); s.acked == acked && id in Reload(s.disk) && id !in s.disk.markers {
      hide LogOk, Spliced;
      RunKeeps(es);
      ReloadAccounted(Exec(INIT, es).disk, acked);
      assert Accounted(id, Exec(INIT, es).disk.markers, acked);
    }
    if Spliced(id, Others(acked, id)) {
      var es, s := SomeStart(id, acked);
      var history := if id in acked then {id} else {};
      var others := Others(acked, id);
      assert history + others == acked;
      hide Spliced;
      es, s := WriteSplice(es, s, id, others, history, map[]);
      IdleDisk(s, id, others, acked, map[]);
    }
  }

  lemma SomeStart(id: EventId, acked: set<EventId>) returns (es: seq<Event>, s: State)
    ensures Exec(INIT, es) == s && Idle(s, "", {}, if id in acked then {id} else {}, map[])
  {
    hide Exec;
    if id in acked { es, s := Forgotten(id); } else { es, s := FirstStart(); }
  }

  function Repeated(c: char, n: nat): (s: string)
    ensures |s| == n && forall i :: 0 <= i < n ==> s[i] == c
  {
    if n == 0 then "" else Repeated(c, n - 1) + [c]
  }

  /** Half of one id and half of another. */
  lemma HalvesAreSpliced(id: EventId, a: EventId, b: EventId)
    requires id == a[..32] + b[..32] && id != a && id != b
    ensures Spliced(id, Others({a, b}, id))
  {
    hide Pieces, Spliced;
    var others := Others({a, b}, id);
    NoPieces(others);
    PiecesAppend("", a, 32, others);
    EmptyPrefix(a[..32]);
    assert a[..32] != "";
    PiecesAppend(a[..32], b, 32, others);
  }

  /** There are such ids. */
  lemma SpliceExample() returns (id: EventId, a: EventId, b: EventId)
    ensures id != a && id != b && Spliced(id, Others({a, b}, id))
  {
    hide Spliced, Repeated;
    a, b := Repeated('0', 64), Repeated('1', 64);
    id := Repeated('0', 32) + Repeated('1', 32);
    assert id[0] == '0' && id[63] == '1' && a[63] == '0' && b[0] == '1';
    assert id == a[..32] + b[..32];
    HalvesAreSpliced(id, a, b);
  }

  // ---- exactly when two acknowledgements lack a sweep between them ----

  /** Two successful acknowledgements with no sweep started between them. */
  ghost predicate SweeplessAcks(es: seq<Event>, i: nat, j: nat, id: EventId) {
    i < j && AcksAt(es, i, id) && AcksAt(es, j, id) && forall k: nat, obs :: i < k < j ==> !StartsSweepAt(es, k, obs)
  }

  /** Two children of one event outlive two crashes of the daemon. */
  lemma TwoOrphans(id: EventId) returns (es: seq<Event>, s: State)
    ensures Exec(INIT, es) == s && Idle(s, "", {}, {}, map[0 := id, 1 := id])
  {
    hide Exec, DaemonStep;
    es, s := FirstStart();
    es, s := LaunchFresh(es, s, id);
    es, s := CrashAndRestart(es, s, 0);
    assert s.daemon.seen == {};
    es, s := LaunchFresh(es, s, id);
    es, s := CrashAndRestart(es, s, 0);
    assert s.daemon.seen == {};
    assert s.children == map[0 := id, 1 := id];
  }

  /** A sweep that means to drop everything, the spliced id among it, is about to
      replace the log. */
  lemma SweepUnderWay(id: EventId, others: set<EventId>) returns (es: seq<Event>, s: State)
    requires Spliced(id, others)
    ensures Exec(INIT, es) == s
    ensures s.disk.markers == others && s.acked == others && s.children == map[0 := id, 1 := id]
    ensures s.daemon == Up({}, Compacting({id} + others, {}))
  {
    hide Exec, Idle, Spliced, Reload;
    var kids := map[0 := id, 1 := id];
    es, s := TwoOrphans(id);
    assert {} + others == others;
    es, s := WriteSplice(es, s, id, others, {}, kids);
    IdleDisk(s, id, others, others, kids);
    es, s := CrashAndRestart(es, s, 0);
    Next(es, s, PollFails, At(s, SweepDue));
    es := es + [PollFails];
    s := At(s, SweepDue);
    var none: set<EventId> := {};
    var all: set<string> := {id} + others;
    assert all - none == all && all * none == {} && id in all;
    var t := s.(daemon := Up({}, Compacting(all, {})));
    Next(es, s, Sweep({}), t);
    es := es + [Sweep({})];
    s := t;
  }

  /** The sweep goes on between the acknowledgements of the two orphans. */
  lemma AcksAroundRemoval(pre: seq<Event>, s: State, id: EventId, others: set<EventId>) returns (es: seq<Event>)
    requires Exec(INIT, pre) == s && id !in others
    requires s.disk.markers == others && s.acked == others && s.children == map[0 := id, 1 := id]
    requires s.daemon == Up({}, Compacting({id} + others, {}))
    ensures SweeplessAcks(es, |pre|, |pre| + 3, id) && Exec(INIT, es).acked == others + {id}
  {
    hide Exec, Step, Acks, StartsSweep;
    var e1 := pre + [ChildAck(0)];
    var e2 := e1 + [Rename([])];
    var e3 := e2 + [RemoveMarker(id)];
    es := e3 + [ChildAck(1)];
    var n := |pre|;
    assert es[..n] == pre && es[..n + 1] == e1 && es[..n + 2] == e2 && es[..n + 3] == e3;
    var s1, s3 := RemovalStates(s, id, others);
    Next(pre, s, ChildAck(0), s1);
    Next(e1, s1, Rename([]), Step(s1, Rename([])));
    Next(e2, Step(s1, Rename([])), RemoveMarker(id), s3);
    Next(e3, s3, ChildAck(1), Step(s3, ChildAck(1)));
    forall k: nat, obs | n < k < n + 3 ensures !StartsSweepAt(es, k, obs) {
      assert es[k] == Rename([]) || es[k] == RemoveMarker(id);
      NoSweepStarts(Exec(INIT, es[..k]), es[k], obs);
    }
  }

  lemma NoSweepStarts(s: State, e: Event, obs: set<EventId>)
    requires !e.Sweep?
    ensures !StartsSweep(s, e, obs)
  {
  }

  lemma RemovalStates(s: State, id: EventId, others: set<EventId>) returns (s1: State, s3: State)
    requires id !in others
    requires s.disk.markers == others && s.acked == others && s.children == map[0 := id, 1 := id]
    requires s.daemon == Up({}, Compacting({id} + others, {}))
    ensures s1 == Step(s, ChildAck(0)) && s3 == Step(Step(s1, Rename([])), RemoveMarker(id))
    ensures Acks(s, ChildAck(0), id) && Acks(s3, ChildAck(1), id)
    ensures Step(s3, ChildAck(1)).acked == others + {id}
  {
    hide Step;
    s1 := Step(s, ChildAck(0));
    ChildAcks(s, 0, id);
    assert s.children - {0} == map[1 := id];
    s3 := Step(Step(s1, Rename([])), RemoveMarker(id));
    RenamedAndRemoved(s1, id, others);
    ChildAcks(s3, 1, id);
    assert others + {id} + {id} == others + {id};
  }

  lemma ChildAcks(s: State, c: nat, id: EventId)
    requires c in s.children && s.children[c] == id && id !in s.disk.markers
    ensures Acks(s, ChildAck(c), id)
    ensures Step(s, ChildAck(c)) == s.(children := s.children - {c}, acked := s.acked + {id},
                                       disk := s.disk.(markers := s.disk.markers + {id}))
  {
    hide DaemonStep;
  }

  lemma RenamedAndRemoved(s: State, id: EventId, others: set<EventId>)
    requires s.daemon == Up({}, Compacting({id} + others, {}))
    ensures var t := Step(Step(s, Rename([])), RemoveMarker(id));
            t.children == s.children && t.acked == s.acked && id !in t.disk.markers
  {
    hide Render;
    var s2 := Step(s, Rename([]));
    assert s2 == s.(daemon := Up({}, Removing({id} + others, {})), disk := s.disk.(log := Render([])));
    assert id in {id} + others;
  }

  /** In some run with this history two acknowledgements of an id have no sweep
      started between them if and only if the id is spliced together from the other
      ids of the history. */
  lemma SweeplessAcksIff(id: EventId, acked: set<EventId>)
    ensures (exists es, i, j :: SweeplessAcks(es, i, j, id) && Exec(INIT, es).acked == acked)
       <==> id in acked && Spliced(id, Others(acked, id))
  {
    hide Exec, Spliced, StartsSweepAt;
    if es, i, j :| SweeplessAcks(es, i, j, id) && Exec(INIT, es).acked == acked {
      AckIsHistory(es, i, id);
      if !Spliced(id, Others(acked, id)) {
        var m, k, obs := SweepBetweenAcks(es, i, j, id);
      }
    }
    if id in acked && Spliced(id, Others(acked, id)) {
      var others := Others(acked, id);
      var pre, s := SweepUnderWay(id, others);
      var es := AcksAroundRemoval(pre, s, id, others);
      assert others + {id} == acked;
    }
  }

  lemma AckIsHistory(es: seq<Event>, i: nat, id: EventId)
    requires AcksAt(es, i, id)
    ensures id in Exec(INIT, es).acked
  {
    ExecNext(es, i);
    AckedGrows(es, i + 1);
  }

  lemma WrittenTorn(a: EventId, i: nat)
    requires i <= 64
    ensures Written(a + "\n", FailsAfter(i)) == a[..i]
  {
  }

  /** A log that is one unfinished line reads as that line. */
  lemma TornReload(a: EventId, i: nat, markers: set<EventId>)
    requires 0 < i <= 64
    ensures Reload(Disk(a[..i], markers)) == {a[..i]} + markers
  {
    HexHasNoNewline(a[..i]);
    CutAppend("", a[..i]);
    assert "" + a[..i] == a[..i];
    assert Lines(a[..i]) == [a[..i]];
    TornSet(a[..i], markers);
  }

  lemma TornSet(line: string, markers: set<EventId>)
    requires Lines(line) == [line]
    ensures Reload(Disk(line, markers)) == {line} + markers
  {
    hide Lines;
    var lines := set l: string | l in Lines(line);
    assert Lines(line)[0] == line;
    assert line in Lines(line);
    assert line in lines;
    forall l | l in lines ensures l == line { assert l in Lines(line); }
    assert lines == {line};
    assert Reload(Disk(line, markers)) == lines + markers;
  }
}
