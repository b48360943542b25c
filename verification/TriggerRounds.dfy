/** What any undisturbed poll and any undisturbed sweep of the dispatch protocol
    amount to, whatever happens beside them (src/trigger.rs, src/sensord.rs). */
module TriggerRounds {
  import opened Strings
  import opened SeenStore
  import opened TriggerProtocol

  // ---- polls ----

  /** Polled and still to be driven, or being driven. */
  predicate IsLeft(id: EventId, pc: Pc) {
    match pc
    case Dispatching(queue) => id in queue
    case Launching(current, queue) => id == current || id in queue
    case Waiting(current, _, queue) => id == current || id in queue
    case Launched(current, queue) => id == current || id in queue
    case Appending(_, queue) => id in queue
    case _ => false
  }

  predicate InPoll(pc: Pc) {
    pc.Dispatching? || pc.Launching? || pc.Waiting? || pc.Launched? || pc.Appending?
  }

  /** The ways in which an event is refused or its record lost. */
  predicate Refuses(e: Event) {
    e.LaunchFails? || e.ChildExited? || e.TimeoutKill? || e.Crash? || (e.Append? && e.io.FailsAfter?)
  }

  /** From s the run does not leave the poll before its last step, and refuses nothing. */
  ghost predicate PollOf(s: State, es: seq<Event>) {
    && s.daemon.Up?
    && s.daemon.pc.Dispatching?
    && forall n :: 0 <= n < |es| ==> !Refuses(es[n]) && UpInPoll(Exec(s, es[..n]))
  }

  ghost predicate UpInPoll(s: State) { s.daemon.Up? && InPoll(s.daemon.pc) }

  /** Nothing polled is lost: it is in memory, or still to be driven. */
  ghost predicate Accounted(queue: seq<EventId>, t: State) {
    && t.daemon.Up?
    && (InPoll(t.daemon.pc) || t.daemon.pc == SweepDue)
    && (forall id :: id in queue ==> id in t.daemon.seen || IsLeft(id, t.daemon.pc))
    && (t.daemon.pc.Appending? ==> t.daemon.pc.id in t.daemon.seen)
  }

  lemma StaysInPoll(t: State, e: Event)
    requires UpInPoll(t) && !Refuses(e) && (t.daemon.pc.Appending? ==> t.daemon.pc.id in t.daemon.seen)
    ensures var u := Step(t, e).daemon;
            u.Up? && (InPoll(u.pc) || u.pc == SweepDue) && (u.pc.Appending? ==> u.pc.id in u.seen)
  {
    hide Render, Reload, Written;
  }

  lemma NotLost(t: State, e: Event, id: EventId)
    requires UpInPoll(t) && !Refuses(e) && (t.daemon.pc.Appending? ==> t.daemon.pc.id in t.daemon.seen)
    requires id in t.daemon.seen || IsLeft(id, t.daemon.pc)
    ensures var u := Step(t, e).daemon;
            u.Up? && (id in u.seen || IsLeft(id, u.pc))
  {
    hide Render, Reload;
    if t.daemon.pc.Dispatching? && t.daemon.pc.queue != [] { HeadOrTail(id, t.daemon.pc.queue); }
  }

  lemma HeadOrTail(id: EventId, queue: seq<EventId>)
    requires queue != []
    ensures id in queue ==> id == queue[0] || id in queue[1..]
  {
    assert queue == [queue[0]] + queue[1..];
  }

  lemma AccountedStep(queue: seq<EventId>, t: State, e: Event)
    requires Accounted(queue, t) && UpInPoll(t) && !Refuses(e)
    ensures Accounted(queue, Step(t, e))
  {
    hide Step, Refuses, IsLeft;
    StaysInPoll(t, e);
    forall id | id in queue ensures id in Step(t, e).daemon.seen || IsLeft(id, Step(t, e).daemon.pc) {
      NotLost(t, e, id);
    }
  }

  lemma PollPrefix(s: State, es: seq<Event>)
    requires PollOf(s, es) && es != []
    ensures var n := |es| - 1;
            PollOf(s, es[..n]) && !Refuses(es[n]) && UpInPoll(Exec(s, es[..n]))
  {
    hide Exec, Refuses, UpInPoll;
    var n := |es| - 1;
    assert forall k :: 0 <= k < n ==> es[..n][..k] == es[..k] && es[..n][k] == es[k];
  }

  /** A poll that nothing refuses ends with every polled event remembered. */
  lemma {:induction false} PollRemembersAll(s: State, es: seq<Event>)
    requires PollOf(s, es)
    ensures Accounted(s.daemon.pc.queue, Exec(s, es))
    ensures Exec(s, es).daemon.pc == SweepDue ==>
              forall id :: id in s.daemon.pc.queue ==> id in Exec(s, es).daemon.seen
  {
    hide Step, Accounted, InPoll, Refuses;
    if es == [] {
      PollStarts(s);
    } else {
      var n := |es| - 1;
      PollPrefix(s, es);
      PollRemembersAll(s, es[..n]);
      AccountedStep(s.daemon.pc.queue, Exec(s, es[..n]), es[n]);
    }
    AllRemembered(s.daemon.pc.queue, Exec(s, es));
  }

  lemma PollStarts(s: State)
    requires s.daemon.Up? && s.daemon.pc.Dispatching?
    ensures Accounted(s.daemon.pc.queue, s)
  {
  }

  lemma AllRemembered(queue: seq<EventId>, t: State)
    requires Accounted(queue, t)
    ensures t.daemon.Up? && (t.daemon.pc == SweepDue ==> forall id :: id in queue ==> id in t.daemon.seen)
  {
  }

  // ---- sweeps ----

  /** From s the run does not leave the sweep before its last step, and neither the
      daemon nor the sweep as a whole fails. */
  ghost predicate SweepOf(s: State, es: seq<Event>) {
    && s.daemon.Up?
    && s.daemon.pc == SweepDue
    && forall n :: 0 <= n < |es| ==> !Disturbs(es[n]) && UpInSweep(Exec(s, es[..n]))
  }

  predicate Disturbs(e: Event) { e.SweepFails? || e.Crash? }

  ghost predicate UpInSweep(s: State) {
    s.daemon.Up? && (s.daemon.pc.SweepDue? || s.daemon.pc.Compacting? || s.daemon.pc.Removing?)
  }

  /** What a sweep decided and met: what it observed, the order it wrote the log in,
      the markers it could not remove, and what was acknowledged meanwhile. */
  datatype Plan = Plan(obs: set<EventId>, order: seq<string>, stuck: set<string>, acks: set<EventId>)

  /** A child acknowledged the id in the course of the run. */
  ghost predicate AckedIn(s: State, es: seq<Event>, id: EventId) {
    exists n :: 0 <= n < |es| && Acks(Exec(s, es[..n]), es[n], id)
  }

  predicate Acks(t: State, e: Event, id: EventId) {
    e.ChildAck? && e.child in t.children && t.children[e.child] == id
  }

  /** These markers, up to acknowledgements. */
  ghost predicate Stand(markers: set<EventId>, p: Plan, now: set<EventId>) { markers <= now <= markers + p.acks }

  /** The store's reclaim, as far as it got. */
  ghost predicate Reclaimed(s: State, t: State, p: Plan, tried: set<string>, es: seq<Event>)
    requires s.daemon.Up? && t.daemon.Up?
  {
    && Sweep(p.obs) in es
    && t.daemon.seen == s.daemon.seen * p.obs
    && (set x: string | x in p.order) == t.daemon.seen
    && t.disk.log == Render(p.order)
    && Stand(Without(s.disk.markers, tried, p.stuck), p, t.disk.markers)
    && p.stuck <= tried <= s.daemon.seen - p.obs
    && (forall id :: id in p.stuck ==> RemoveFails(id) in es)
  }

  ghost predicate Untouched(s: State, t: State, p: Plan) {
    t.disk.log == s.disk.log && Stand(s.disk.markers, p, t.disk.markers)
  }

  ghost predicate Doing(s: State, t: State, p: Plan, es: seq<Event>)
    requires s.daemon.Up?
  {
    && t.daemon.Up?
    && match t.daemon.pc
       case SweepDue => Untouched(s, t, p) && t.daemon.seen == s.daemon.seen
       case Compacting(gone, obs) =>
         && obs == p.obs && Sweep(obs) in es && gone == s.daemon.seen - obs && gone != {}
         && t.daemon.seen == s.daemon.seen * obs && Untouched(s, t, p)
       case Removing(left, obs) =>
         && obs == p.obs && left <= s.daemon.seen - obs && s.daemon.seen - obs != {}
         && Reclaimed(s, t, p, s.daemon.seen - obs - left, es)
       case Ready => Swept(s, t, p, es)
       case _ => false
  }

  /** A finished sweep: nothing to do, or all of the store's reclaim. */
  ghost predicate Swept(s: State, t: State, p: Plan, es: seq<Event>)
    requires s.daemon.Up? && t.daemon.Up?
  {
    if s.daemon.seen <= p.obs then Sweep(p.obs) in es && t.daemon.seen == s.daemon.seen && Untouched(s, t, p)
    else Reclaimed(s, t, p, s.daemon.seen - p.obs, es)
  }

  lemma StartsStep(s: State, t: State, p: Plan, es: seq<Event>, e: Event) returns (q: Plan)
    requires s.daemon.Up? && Doing(s, t, p, es) && t.daemon.pc == SweepDue && !Disturbs(e) && !e.ChildAck?
    ensures Doing(s, Step(t, e), q, es + [e]) && q.acks == p.acks
  {
    hide Render, Reclaimed, Written;
    q := p;
    if e.Sweep? {
      q := p.(obs := e.obs);
      assert e in es + [e];
      assert forall x :: x in t.daemon.seen && x !in e.obs ==> x in t.daemon.seen - e.obs;
    }
  }

  lemma CompactStep(s: State, t: State, p: Plan, es: seq<Event>, e: Event) returns (q: Plan)
    requires s.daemon.Up? && Doing(s, t, p, es) && t.daemon.pc.Compacting? && !Disturbs(e) && !e.ChildAck?
    ensures Doing(s, Step(t, e), q, es + [e]) && q.acks == p.acks
  {
    hide Render, Written;
    q := if e.Rename? && (set x: string | x in e.order) == t.daemon.seen then p.(order := e.order, stuck := {}) else p;
    assert Sweep(p.obs) in es + [e];
    var gone := s.daemon.seen - p.obs;
    assert gone - gone == {};
    assert Without(s.disk.markers, {}, {}) == s.disk.markers;
  }

  /** One marker more was tried. */
  lemma TriedOne(s: State, t: State, u: State, p: Plan, left: set<string>, id: string, es: seq<Event>, e: Event)
    requires s.daemon.Up? && t.daemon.Up? && u.daemon.Up? && id in left && left <= s.daemon.seen - p.obs
    requires Reclaimed(s, t, p, s.daemon.seen - p.obs - left, es) && u.daemon.seen == t.daemon.seen
    ensures e == RemoveMarker(id) && u.disk == t.disk.(markers := set m | m in t.disk.markers && m != id) ==>
              Reclaimed(s, u, p, s.daemon.seen - p.obs - (left - {id}), es + [e])
    ensures e == RemoveFails(id) && u.disk == t.disk ==>
              Reclaimed(s, u, p.(stuck := p.stuck + {id}), s.daemon.seen - p.obs - (left - {id}), es + [e])
  {
    hide Render;
    var gone := s.daemon.seen - p.obs;
    var tried := gone - left;
    assert gone - (left - {id}) == tried + {id};
    assert Sweep(p.obs) in es + [e] && forall x :: x in p.stuck ==> RemoveFails(x) in es + [e];
    var markers := Without(s.disk.markers, tried, p.stuck);
    assert Without(s.disk.markers, tried + {id}, p.stuck) == set m | m in markers && m != id;
    assert Without(s.disk.markers, tried + {id}, p.stuck + {id}) == markers;
    assert e in es + [e];
  }

  lemma RemoveStep(s: State, t: State, p: Plan, es: seq<Event>, e: Event) returns (q: Plan)
    requires s.daemon.Up? && Doing(s, t, p, es) && t.daemon.pc.Removing? && !Disturbs(e) && !e.ChildAck?
    ensures Doing(s, Step(t, e), q, es + [e]) && q.acks == p.acks
  {
    hide Render, Written;
    var left := t.daemon.pc.left;
    q := p;
    if (e.RemoveMarker? || e.RemoveFails?) && e.id in left {
      if e.RemoveFails? { q := p.(stuck := p.stuck + {e.id}); }
      TriedOne(s, t, Step(t, e), p, left, e.id, es, e);
    } else {
      StillReclaimed(s, t, Step(t, e), p, s.daemon.seen - p.obs - left, es, e);
      assert left == {} ==> s.daemon.seen - p.obs - left == s.daemon.seen - p.obs;
    }
  }

  lemma StillReclaimed(s: State, t: State, u: State, p: Plan, tried: set<string>, es: seq<Event>, e: Event)
    requires s.daemon.Up? && t.daemon.Up? && Reclaimed(s, t, p, tried, es)
    requires u.daemon.Up? && u.daemon.seen == t.daemon.seen && u.disk == t.disk
    ensures Reclaimed(s, u, p, tried, es + [e])
  {
  }

  /** An acknowledgement adds its marker, wherever the sweep is. */
  lemma AckStep(s: State, t: State, p: Plan, es: seq<Event>, e: Event) returns (q: Plan)
    requires s.daemon.Up? && Doing(s, t, p, es) && e.ChildAck?
    ensures Doing(s, Step(t, e), q, es + [e])
    ensures forall id :: id in q.acks ==> id in p.acks || Acks(t, e, id)
  {
    hide Render, Without;
    q := if e.child in t.children then p.(acks := p.acks + {t.children[e.child]}) else p;
    assert forall f :: f in es ==> f in es + [e];
  }

  lemma AckedKept(s: State, es: seq<Event>, ids: set<EventId>)
    requires es != [] && forall id :: id in ids ==> AckedIn(s, es[..|es| - 1], id)
    ensures forall id :: id in ids || Acks(Exec(s, es[..|es| - 1]), es[|es| - 1], id) ==> AckedIn(s, es, id)
  {
    hide Exec, Acks;
    var n := |es| - 1;
    forall id | id in ids ensures AckedIn(s, es, id) {
      var k :| 0 <= k < n && Acks(Exec(s, es[..n][..k]), es[..n][k], id);
      assert es[..n][..k] == es[..k] && es[..n][k] == es[k];
    }
  }

  lemma SweepPrefix(s: State, es: seq<Event>)
    requires SweepOf(s, es) && es != []
    ensures var n := |es| - 1;
            SweepOf(s, es[..n]) && !Disturbs(es[n]) && UpInSweep(Exec(s, es[..n]))
  {
    hide Exec, Disturbs, UpInSweep;
    var n := |es| - 1;
    assert forall k :: 0 <= k < n ==> es[..n][..k] == es[..k] && es[..n][k] == es[k];
  }

  lemma {:induction false} SweepSoFar(s: State, es: seq<Event>) returns (p: Plan)
    requires SweepOf(s, es)
    ensures Doing(s, Exec(s, es), p, es) && forall id :: id in p.acks ==> AckedIn(s, es, id)
  {
    hide Step, Doing, Disturbs, Acks, AckedIn;
    if es == [] {
      p := Plan({}, [], {}, {});
      SweepNotBegun(s, p);
    } else {
      var n := |es| - 1;
      SweepPrefix(s, es);
      p := SweepSoFar(s, es[..n]);
      var t := Exec(s, es[..n]);
      assert es == es[..n] + [es[n]];
      AckedKept(s, es, p.acks);
      if es[n].ChildAck? {
        p := AckStep(s, t, p, es[..n], es[n]);
      } else if t.daemon.pc.SweepDue? {
        p := StartsStep(s, t, p, es[..n], es[n]);
      } else if t.daemon.pc.Compacting? {
        p := CompactStep(s, t, p, es[..n], es[n]);
      } else {
        p := RemoveStep(s, t, p, es[..n], es[n]);
      }
    }
  }

  lemma SweepNotBegun(s: State, p: Plan)
    requires s.daemon.Up? && s.daemon.pc == SweepDue
    ensures Doing(s, s, p, [])
  {
  }

  /** Every sweep that comes to its end is the store's reclaim, whatever happens beside
      it: memory and log hold what was observed, and no marker of the rest stands but
      those whose removal failed and those acknowledged meanwhile. */
  lemma SweepMeansRetain(s: State, es: seq<Event>) returns (p: Plan)
    requires SweepOf(s, es) && Exec(s, es).daemon.Up? && Exec(s, es).daemon.pc == Ready
    ensures Swept(s, Exec(s, es), p, es)
    ensures forall id :: id in p.acks ==> AckedIn(s, es, id)
  {
    hide Step, Exec, SweepOf, Swept, AckedIn;
    p := SweepSoFar(s, es);
  }
}
