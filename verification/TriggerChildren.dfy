/** The life of a launched child, and of one poll, in the dispatch protocol
    (src/sensord.rs, src/trigger.rs). */
module TriggerChildren {
  import opened Strings
  import opened SeenStore
  import opened TriggerProtocol

  // ---- where orphans come from ----

  predicate WaitingFor(s: State, c: nat) {
    s.daemon.Up? && s.daemon.pc.Waiting? && s.daemon.pc.child == c
  }

  /** Ids of children are never given out twice. */
  ghost predicate ChildrenNumbered(s: State) {
    && (forall c :: c in s.children ==> c < s.nextChild)
    && (s.daemon.Up? && s.daemon.pc.Waiting? ==> s.daemon.pc.child < s.nextChild)
  }

  lemma NumberedStep(s: State, e: Event)
    requires ChildrenNumbered(s)
    ensures ChildrenNumbered(Step(s, e)) && s.nextChild <= Step(s, e).nextChild
  {
    hide Written, Render, Reload, DaemonStep;
    if s.daemon.Up? { NumberedDaemon(s, e); }
  }

  lemma NumberedDaemon(s: State, e: Event)
    requires ChildrenNumbered(s) && s.daemon.Up?
    ensures ChildrenNumbered(DaemonStep(s, e)) && s.nextChild <= DaemonStep(s, e).nextChild
  {
    hide Written, Render;
  }

  lemma {:induction false} NumberedRun(es: seq<Event>)
    ensures ChildrenNumbered(Exec(INIT, es))
  {
    if es != [] {
      NumberedRun(es[..|es| - 1]);
      hide Step, ChildrenNumbered;
      NumberedStep(Exec(INIT, es[..|es| - 1]), es[|es| - 1]);
    }
  }

  /** A child that is gone never comes back: nothing it does matters any more. */
  lemma {:induction false} GoneForGood(s: State, es: seq<Event>, c: nat)
    requires c < s.nextChild && c !in s.children
    ensures c < Exec(s, es).nextChild && c !in Exec(s, es).children
    ensures Step(Exec(s, es), ChildAck(c)) == Exec(s, es)
  {
    if es != [] {
      GoneForGood(s, es[..|es| - 1], c);
      hide Step;
      GoneStep(Exec(s, es[..|es| - 1]), es[|es| - 1], c);
    }
    AckOfNobody(Exec(s, es), c);
  }

  lemma AckOfNobody(s: State, c: nat)
    requires c !in s.children
    ensures Step(s, ChildAck(c)) == s
  {
  }

  lemma GoneStep(s: State, e: Event, c: nat)
    requires c < s.nextChild && c !in s.children
    ensures c < Step(s, e).nextChild && c !in Step(s, e).children
  {
    hide Written, Render, Reload, DaemonStep;
    if s.daemon.Up? { GoneDaemon(s, e, c); }
  }

  lemma GoneDaemon(s: State, e: Event, c: nat)
    requires c < s.nextChild && c !in s.children && s.daemon.Up?
    ensures c < DaemonStep(s, e).nextChild && c !in DaemonStep(s, e).children
  {
    hide Written, Render;
  }

  /** A timeout kills the child it waited for, and so does a child's own death: it
      acknowledges nothing from then on, in any run. */
  lemma KilledIsSilent(es: seq<Event>, c: nat, more: seq<Event>)
    requires WaitingFor(Exec(INIT, es), c)
    ensures var t := Step(Exec(INIT, es), TimeoutKill);
            && c !in t.children && !WaitingFor(t, c) && c !in Exec(t, more).children
            && Step(Exec(t, more), ChildAck(c)) == Exec(t, more)
  {
    hide Exec;
    NumberedRun(es);
    GoneForGood(Step(Exec(INIT, es), TimeoutKill), more, c);
  }

  lemma DeadIsSilent(es: seq<Event>, c: nat, more: seq<Event>)
    requires c in Exec(INIT, es).children
    ensures var t := Step(Exec(INIT, es), ChildDies(c));
            c !in Exec(t, more).children && Step(Exec(t, more), ChildAck(c)) == Exec(t, more)
  {
    hide Exec;
    NumberedRun(es);
    GoneForGood(Step(Exec(INIT, es), ChildDies(c)), more, c);
  }

  /** The three ways in which the daemon stops waiting for a child without its being
      gone: a crash, the marker, and a failure to ask. */
  predicate Abandons(e: Event) { e.Crash? || e.SeeAck? || e.LaunchFails? }

  lemma ChildStep(s: State, e: Event, c: nat)
    requires c in Step(s, e).children && !WaitingFor(Step(s, e), c)
    ensures c in s.children && (WaitingFor(s, c) ==> Abandons(e))
  {
    hide Written, Render, Reload, DaemonStep;
    if s.daemon.Up? && !e.ChildAck? && !e.ChildDies? && !e.Restart? && !e.Crash? { ChildDaemon(s, e, c); }
  }

  lemma ChildDaemon(s: State, e: Event, c: nat)
    requires s.daemon.Up? && c in DaemonStep(s, e).children && !WaitingFor(DaemonStep(s, e), c)
    ensures c in s.children && (WaitingFor(s, c) ==> Abandons(e))
  {
    hide Written, Render;
  }

  /** Whenever a child is alive and nobody waits for it, the daemon stopped waiting
      for it at an earlier step, by one of the three. */
  lemma {:induction false} OrphanWasAbandoned(es: seq<Event>, n: nat, c: nat) returns (m: nat)
    requires n <= |es| && c in Exec(INIT, es[..n]).children && !WaitingFor(Exec(INIT, es[..n]), c)
    ensures m < n && WaitingFor(Exec(INIT, es[..m]), c) && Abandons(es[m])
    ensures forall x :: m < x <= n ==> !WaitingFor(Exec(INIT, es[..x]), c)
  {
    hide Exec, Step, WaitingFor, Abandons;
    StartState(es);
    assert n > 0;
    ExecNext(es, n - 1);
    ChildStep(Exec(INIT, es[..n - 1]), es[n - 1], c);
    if WaitingFor(Exec(INIT, es[..n - 1]), c) {
      m := n - 1;
    } else {
      m := OrphanWasAbandoned(es, n - 1, c);
    }
  }

  predicate Spawns(s: State, e: Event, c: nat) {
    e == Spawn && s.daemon.Up? && s.daemon.pc.Launching? && s.nextChild == c
  }

  lemma WaitStep(s: State, e: Event, c: nat)
    requires WaitingFor(Step(s, e), c)
    ensures WaitingFor(s, c) || Spawns(s, e, c)
  {
    hide Written, Render, Reload;
  }

  /** And it waited for it from its spawn on. */
  lemma {:induction false} WaitedSinceSpawn(es: seq<Event>, n: nat, c: nat) returns (m: nat)
    requires n <= |es| && WaitingFor(Exec(INIT, es[..n]), c)
    ensures m < n && Spawns(Exec(INIT, es[..m]), es[m], c)
    ensures forall x :: m < x <= n ==> WaitingFor(Exec(INIT, es[..x]), c)
  {
    hide Exec, Step, Spawns;
    StartState(es);
    assert n > 0;
    hide WaitingFor;
    ExecNext(es, n - 1);
    WaitStep(Exec(INIT, es[..n - 1]), es[n - 1], c);
    if WaitingFor(Exec(INIT, es[..n - 1]), c) {
      m := WaitedSinceSpawn(es, n - 1, c);
    } else {
      m := n - 1;
    }
  }

  /** So a run without these steps leaves no orphan. */
  lemma NoOrphans(es: seq<Event>, c: nat)
    requires forall i :: 0 <= i < |es| ==> !Abandons(es[i])
    requires c in Exec(INIT, es).children
    ensures WaitingFor(Exec(INIT, es), c)
  {
    hide Exec, WaitingFor, Abandons;
    assert es[..|es|] == es;
    if !WaitingFor(Exec(INIT, es), c) {
      var n := OrphanWasAbandoned(es, |es|, c);
    }
  }

  // ---- one poll, event by event ----

  /** The daemon is at this point of a poll, with this memory and log. */
  ghost predicate AtPoll(s: State, queue: seq<EventId>, seen: set<string>, log: string) {
    s.daemon == Up(seen, Dispatching(queue)) && s.disk.log == log && ChildrenNumbered(s)
  }

  lemma Run2(s: State, e: Event, f: Event)
    ensures Exec(s, [e, f]) == Step(Step(s, e), f)
  {
    ExecTwo(s, e, f);
  }

  lemma Run1(s: State, e: Event)
    ensures Exec(s, [e]) == Step(s, e)
  {
    ExecSnoc(s, [], e);
    assert [] + [e] == [e];
  }

  /** An event already seen is passed over; one whose launch fails is refused. */
  lemma PassOver(s: State, queue: seq<EventId>, seen: set<string>, log: string) returns (es: seq<Event>)
    requires AtPoll(s, queue, seen, log) && queue != []
    ensures AtPoll(Exec(s, es), queue[1..], seen, log)
  {
    var e := if queue[0] in seen then Skip else LaunchFails;
    es := [e];
    Run1(s, e);
  }

  /** An event not yet seen is admitted: by its marker, or by a child. */
  lemma Admit(s: State, queue: seq<EventId>, seen: set<string>, log: string) returns (es: seq<Event>)
    requires AtPoll(s, queue, seen, log) && queue != [] && queue[0] !in seen
    ensures AtPoll(Exec(s, es), queue[1..], seen + {queue[0]}, log + (queue[0] + "\n"))
  {
    hide Exec, Step, AtPoll;
    var before, t := Found(s, queue, seen, log);
    es := before + [Remember, Append(Works)];
    ExecConcat(s, before, [Remember, Append(Works)]);
    Run2(t, Remember, Append(Works));
    Recorded(t, queue, seen, log);
  }

  /** The event counts as launched. */
  ghost predicate AtLaunched(s: State, queue: seq<EventId>, seen: set<string>, log: string)
    requires queue != []
  {
    s.daemon == Up(seen, Launched(queue[0], queue[1..])) && s.disk.log == log && ChildrenNumbered(s)
  }

  lemma Recorded(s: State, queue: seq<EventId>, seen: set<string>, log: string)
    requires queue != [] && queue[0] !in seen && AtLaunched(s, queue, seen, log)
    ensures AtPoll(Step(Step(s, Remember), Append(Works)), queue[1..], seen + {queue[0]}, log + (queue[0] + "\n"))
  {
    assert Step(s, Remember).daemon == Up(seen + {queue[0]}, Appending(queue[0], queue[1..]));
  }

  lemma Found(s: State, queue: seq<EventId>, seen: set<string>, log: string) returns (es: seq<Event>, t: State)
    requires AtPoll(s, queue, seen, log) && queue != [] && queue[0] !in seen
    ensures Exec(s, es) == t && AtLaunched(t, queue, seen, log)
  {
    if queue[0] in s.disk.markers {
      es, t := [FindMarker], At(s, Launched(queue[0], queue[1..]));
      Run1(s, FindMarker);
    } else {
      es, t := Launch(s, queue, seen, log);
    }
  }

  lemma Launch(s: State, queue: seq<EventId>, seen: set<string>, log: string) returns (es: seq<Event>, t: State)
    requires AtPoll(s, queue, seen, log) && queue != [] && queue[0] !in seen && queue[0] !in s.disk.markers
    ensures Exec(s, es) == t && ChildrenNumbered(t)
    ensures t.daemon == Up(seen, Launched(queue[0], queue[1..])) && t.disk.log == log
  {
    hide Exec;
    var id, rest, c := queue[0], queue[1..], s.nextChild;
    var waiting := At(s, Waiting(id, c, rest)).(children := s.children[c := id], nextChild := c + 1);
    Run2(s, MissMarker, Spawn);
    assert Exec(s, [MissMarker, Spawn]) == waiting;
    Run2(waiting, ChildAck(c), SeeAck);
    ExecConcat(s, [MissMarker, Spawn], [ChildAck(c), SeeAck]);
    es := [MissMarker, Spawn] + [ChildAck(c), SeeAck];
    t := Exec(waiting, [ChildAck(c), SeeAck]);
  }

  /** The poll up to its i-th event. */
  lemma {:induction false} PollTo(s: State, events: seq<EventId>, answers: seq<Outcome>, i: nat)
    returns (es: seq<Event>)
    requires s.daemon.Up? && s.daemon.pc == Ready && ChildrenNumbered(s)
    requires |answers| == |events| && i <= |events|
    ensures Exec(s, es).daemon.Up?
    ensures AtPoll(Exec(s, es), events[i..], Exec(s, es).daemon.seen, Exec(s, es).disk.log)
    ensures Remembers(Exec(s, es).daemon.seen, s.daemon.seen, Taken(events, s.daemon.seen, answers, i))
    ensures Logged(Exec(s, es).disk.log, s.disk.log, Taken(events, s.daemon.seen, answers, i), true, Works)
  {
    hide Remembers, Logged, Taken, Written;
    if i == 0 {
      es := [Poll(events)];
      Run1(s, Poll(events));
      NothingDriven(events, s.daemon.seen, answers, s.disk.log);
      assert events[0..] == events;
    } else {
      var before := PollTo(s, events, answers, i - 1);
      var t := Exec(s, before);
      var seen, log, queue := t.daemon.seen, t.disk.log, events[i - 1..];
      assert queue[0] == events[i - 1] && queue[1..] == events[i..];
      hide Exec, Step, AtPoll;
      DrivenStep(events, s.daemon.seen, answers, i - 1);
      RemembersOne(seen, s.daemon.seen, Taken(events, s.daemon.seen, answers, i - 1), events[i - 1], answers[i - 1]);
      LoggedOne(log, s.disk.log, Taken(events, s.daemon.seen, answers, i - 1), Works, events[i - 1], Works);
      var more: seq<Event>;
      if queue[0] !in seen && answers[i - 1] == Admitted {
        more := Admit(t, queue, seen, log);
        PollState(Exec(t, more), events[i..], seen + {queue[0]}, log + (queue[0] + "\n"));
      } else {
        more := PassOver(t, queue, seen, log);
        PollState(Exec(t, more), events[i..], seen, log);
      }
      ExecConcat(s, before, more);
      es := before + more;
    }
  }

  lemma PollState(s: State, queue: seq<EventId>, seen: set<string>, log: string)
    requires AtPoll(s, queue, seen, log)
    ensures s.daemon.Up? && s.daemon.seen == seen && s.disk.log == log
  {
  }

  /** A poll of the store's contract is a run of the protocol: for all events and all
      answers there is one that takes every event up in order, and leaves in memory
      and in the log exactly what driving the poll once does. */
  lemma PollIsDrive(s: State, events: seq<EventId>, answers: seq<Outcome>) returns (es: seq<Event>)
    requires s.daemon.Up? && s.daemon.pc == Ready && ChildrenNumbered(s) && |answers| == |events|
    ensures var t, taken := Exec(s, es), Taken(events, s.daemon.seen, answers, |events|);
            && t.daemon.Up? && t.daemon.pc == SweepDue
            && Remembers(t.daemon.seen, s.daemon.seen, taken)
            && Logged(t.disk.log, s.disk.log, taken, true, Works)
  {
    hide Remembers, Logged, Taken, Exec;
    var before := PollTo(s, events, answers, |events|);
    assert events[|events|..] == [];
    ExecSnoc(s, before, EndDispatch);
    es := before + [EndDispatch];
  }

  /** The daemon never leaves a poll early: it ends the dispatch only when every
      polled event was taken up, one step at a time from the front. */
  lemma QueueShrinksFromFront(s: State, e: Event)
    requires s.daemon.Up? && s.daemon.pc.Dispatching?
    ensures var t := Step(s, e);
            t.daemon.Up? ==>
              || t.daemon.pc == s.daemon.pc
              || (s.daemon.pc.queue == [] && t.daemon.pc == SweepDue)
              || (s.daemon.pc.queue != [] && t.daemon.pc == Dispatching(s.daemon.pc.queue[1..]))
              || (s.daemon.pc.queue != [] && t.daemon.pc == Launching(s.daemon.pc.queue[0], s.daemon.pc.queue[1..]))
              || (s.daemon.pc.queue != [] && t.daemon.pc == Launched(s.daemon.pc.queue[0], s.daemon.pc.queue[1..]))
  {
    hide Written, Render, Reload;
  }
}
