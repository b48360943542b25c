/** The persistent dedupe store of a trigger (src/trigger.rs): a set in memory,
    an append log and one admission marker per admitted event on disk. */
module SeenStore {
  import opened Strings

  const ZEROS: string := seq(64, i => '0')

  type EventId = s: string | IsDigest(s) witness ZEROS

  /** What survives a crash. An absent log reads as an empty one. */
  datatype Disk = Disk(log: string, markers: set<EventId>)

  /** Everything a restarted daemon takes as already dispatched. */
  function Reload(d: Disk): set<string> {
    (set l: string | l in Lines(d.log)) + d.markers
  }

  /** One id per line, in the order given. */
  function Render(ids: seq<string>): string {
    if ids == [] then "" else Render(ids[..|ids| - 1]) + ids[|ids| - 1] + "\n"
  }

  datatype Outcome = Admitted | Refused

  class Store {
    var disk: Disk
    var seen: set<string>

    /** Load the log and recover the markers. */
    constructor (disk: Disk)
      ensures this.disk == disk && seen == Reload(disk)
    {
      this.disk := disk;
      seen := (set l: string | l in Lines(disk.log)) + disk.markers;
    }

    method Contains(id: string) returns (r: bool)
      ensures r == (id in seen)
    {
      r := id in seen;
    }

    /** Mark an id dispatched: memory first, then one appended line. */
    method Insert(id: EventId, io: Io) returns (ok: bool)
      modifies this
      ensures seen == old(seen) + {id}
      ensures disk.markers == old(disk).markers
      ensures disk.log == if id in old(seen) then old(disk).log else old(disk).log + Written(id + "\n", io)
      ensures ok <==> id in old(seen) || Written(id + "\n", io) == id + "\n"
    {
      if id in seen {
        assert seen == seen + {id};
        return true;
      }
      seen := seen + {id};
      var text := Written(id + "\n", io);
      disk := disk.(log := disk.log + text);
      ok := text == id + "\n";
    }

    /** Reclaim what a fresh poll no longer observes: filter memory, replace the
        log by rename, then remove the markers one by one. Failing to write the
        new log leaves the old one; failing to remove a marker is ignored. */
    method RetainObservable(observable: set<EventId>, renameOk: bool, stuck: set<string>)
      returns (ok: bool, dropped: nat)
      modifies this
      ensures ok <==> old(seen) - observable == {} || renameOk
      ensures var gone := old(seen) - observable;
              && seen == old(seen) * observable
              && dropped == (if gone == {} || !renameOk then 0 else |gone|)
              && (gone == {} || !renameOk ==> disk == old(disk))
              && (gone != {} && renameOk ==>
                    && disk.markers == old(disk).markers - (gone - stuck)
                    && exists order: seq<string> :: (set x: string | x in order) == seen && disk.log == Render(order))
    {
      var gone := seen - observable;
      if gone == {} {
        forall x | x in seen ensures x in observable { assert x !in gone; }
        assert seen == seen * observable;
        return true, 0;
      }
      seen := seen * observable;
      if !renameOk {
        return false, 0;
      }
      var order := Enumerate(seen);
      disk := disk.(log := Render(order));
      assert (set x: string | x in order) == seen && disk.log == Render(order);
      var left := gone;
      while left != {}
        invariant left <= gone && seen == old(seen) * observable
        invariant disk.markers == old(disk).markers - ((gone - left) - stuck)
        invariant disk.log == Render(order)
        decreases left
      {
        var id :| id in left;
        left := left - {id};
        if id !in stuck {
          disk := disk.(markers := set m | m in disk.markers && m != id);
        }
      }
      ok, dropped := true, |gone|;
    }
  }

  /** The members of a set in some order. */
  method Enumerate(s: set<string>) returns (order: seq<string>)
    ensures (set x: string | x in order) == s
  {
    order := [];
    var rest := s;
    while rest != {}
      invariant rest <= s && forall x :: x in order <==> x in s && x !in rest
      decreases rest
    {
      var x :| x in rest;
      rest := rest - {x};
      order := order + [x];
    }
  }

  // ---- one poll ----

  /** Which of the polled events are dispatched, and with what outcome, given
      what was seen before: an event already seen is skipped. */
  function Driven(events: seq<EventId>, seen: set<string>, answers: seq<Outcome>): seq<(EventId, Outcome)>
    requires |answers| == |events|
  {
    if events == [] then []
    else
      var n := |events| - 1;
      var rest := Driven(events[..n], seen, answers[..n]);
      if events[n] in seen || (events[n], Admitted) in rest then rest else rest + [(events[n], answers[n])]
  }

  /** The ids a poll admitted, in order. */
  function AdmittedIds(results: seq<(EventId, Outcome)>): seq<string> {
    if results == [] then []
    else
      var last := results[|results| - 1];
      AdmittedIds(results[..|results| - 1]) + (if last.1 == Admitted then [last.0] else [])
  }

  lemma AdmittedSnoc(results: seq<(EventId, Outcome)>, id: EventId, outcome: Outcome)
    ensures AdmittedIds(results + [(id, outcome)])
         == if outcome == Admitted then AdmittedIds(results) + [id] else AdmittedIds(results)
  {
    assert (results + [(id, outcome)])[..|results|] == results;
  }

  lemma RenderSnoc(ids: seq<string>, id: string)
    ensures Render(ids + [id]) == Render(ids) + (id + "\n")
  {
    assert (ids + [id])[..|ids|] == ids;
    assert Render(ids) + id + "\n" == Render(ids) + (id + "\n");
  }

  /** The dispatches among the first n events of a poll. */
  function Taken(events: seq<EventId>, seen: set<string>, answers: seq<Outcome>, n: nat): seq<(EventId, Outcome)>
    requires |answers| == |events| && n <= |events|
  {
    Driven(events[..n], seen, answers[..n])
  }

  /** Memory holds what it held before, and what the poll admitted. */
  ghost predicate Remembers(seen: set<string>, before: set<string>, taken: seq<(EventId, Outcome)>) {
    forall x :: x in seen <==> x in before || (IsDigest(x) && (x, Admitted) in taken)
  }

  lemma RemembersOne(seen: set<string>, before: set<string>, taken: seq<(EventId, Outcome)>, id: EventId,
                     outcome: Outcome)
    requires Remembers(seen, before, taken)
    ensures Remembers(if outcome == Admitted then seen + {id} else seen, before, taken + [(id, outcome)])
    ensures id !in seen ==> id !in before && (id, Admitted) !in taken
    ensures id in seen ==> id in before || (id, Admitted) in taken
  {
  }

  /** What a poll leaves in the log: a line for each id admitted, the last one as far
      as it was written. */
  function PollLog(taken: seq<(EventId, Outcome)>, ok: bool, io: Io): string {
    if ok || taken == [] then Render(AdmittedIds(taken))
    else Render(AdmittedIds(taken[..|taken| - 1])) + Written(taken[|taken| - 1].0 + "\n", io)
  }

  predicate Logged(log: string, before: string, taken: seq<(EventId, Outcome)>, ok: bool, io: Io) {
    log == before + PollLog(taken, ok, io)
  }

  /** One more event taken up: refused, admitted with its line, or stopped at it. */
  lemma LoggedOne(log: string, before: string, taken: seq<(EventId, Outcome)>, any: Io, id: EventId, io: Io)
    requires Logged(log, before, taken, true, any)
    ensures Logged(log, before, taken + [(id, Refused)], true, any)
    ensures Logged(log + (id + "\n"), before, taken + [(id, Admitted)], true, any)
    ensures Logged(log + Written(id + "\n", io), before, taken + [(id, Admitted)], false, io)
  {
    hide Render, Written, AdmittedIds;
    AdmittedSnoc(taken, id, Refused);
    AdmittedSnoc(taken, id, Admitted);
    RenderSnoc(AdmittedIds(taken), id);
    assert (taken + [(id, Admitted)])[..|taken|] == taken;
    var text, line, torn := Render(AdmittedIds(taken)), id + "\n", Written(id + "\n", io);
    assert before + text + line == before + (text + line) && before + text + torn == before + (text + torn);
  }

  /** Drive one poll: skip what is seen, dispatch the rest, remember only what
      was admitted. An append that fails ends the poll, and its outcomes are lost;
      done says how many events had been taken up by then. */
  method DriveOnce(store: Store, events: seq<EventId>, answers: seq<Outcome>, ios: seq<Io>)
    returns (ok: bool, results: seq<(EventId, Outcome)>, done: nat)
    requires |answers| == |events| == |ios|
    modifies store
    ensures done <= |events| && store.disk.markers == old(store.disk).markers
    ensures var taken := Taken(events, old(store.seen), answers, done);
            && Remembers(store.seen, old(store.seen), taken)
            && Logged(store.disk.log, old(store.disk).log, taken, ok, if done > 0 then ios[done - 1] else Works)
            && (ok ==> done == |events| && results == taken)
            && (!ok ==>
                  && results == [] && done > 0 && taken != [] && taken[|taken| - 1] == (events[done - 1], Admitted)
                  && Written(events[done - 1] + "\n", ios[done - 1]) != events[done - 1] + "\n")
  {
    hide Written, Remembers, Taken, Logged, PollLog, Render, AdmittedIds, IsDigest;
    results := [];
    NothingDriven(events, old(store.seen), answers, old(store.disk).log);
    for i := 0 to |events|
      invariant results == Taken(events, old(store.seen), answers, i)
      invariant Remembers(store.seen, old(store.seen), results)
      invariant store.disk.markers == old(store.disk).markers
      invariant Logged(store.disk.log, old(store.disk).log, results, true, Works)
    {
      var ev := events[i];
      DrivenStep(events, old(store.seen), answers, i);
      RemembersOne(store.seen, old(store.seen), results, ev, answers[i]);
      LoggedOne(store.disk.log, old(store.disk).log, results, Works, ev, ios[i]);
      var skip := store.Contains(ev);
      if skip {
        continue;
      }
      var outcome := answers[i];
      if outcome == Admitted {
        var inserted := store.Insert(ev, ios[i]);
        if !inserted {
          return false, [], i + 1;
        }
      }
      results := results + [(ev, outcome)];
    }
    LoggedAnyIo(store.disk.log, old(store.disk).log, results);
    return true, results, |events|;
  }

  lemma LoggedAnyIo(log: string, before: string, taken: seq<(EventId, Outcome)>)
    requires Logged(log, before, taken, true, Works)
    ensures forall io :: Logged(log, before, taken, true, io)
  {
  }

  lemma NothingDriven(events: seq<EventId>, seen: set<string>, answers: seq<Outcome>, log: string)
    requires |answers| == |events|
    ensures Taken(events, seen, answers, 0) == [] && Remembers(seen, seen, []) && Logged(log, log, [], true, Works)
  {
    assert Render(AdmittedIds([])) == "" && log + "" == log;
  }

  lemma DrivenStep(events: seq<EventId>, seen: set<string>, answers: seq<Outcome>, i: nat)
    requires |answers| == |events| && i < |events|
    ensures var rest := Taken(events, seen, answers, i);
            Taken(events, seen, answers, i + 1)
              == if events[i] in seen || (events[i], Admitted) in rest then rest else rest + [(events[i], answers[i])]
  {
    assert events[..i + 1][..i] == events[..i] && answers[..i + 1][..i] == answers[..i];
  }

  /** Every event not seen before is dispatched, with an answer of its own, and
      nothing else is; after its first admission it is not dispatched again. */
  lemma {:induction false} DrivenIff(events: seq<EventId>, seen: set<string>, answers: seq<Outcome>, id: EventId)
    requires |answers| == |events|
    ensures (exists o :: (id, o) in Driven(events, seen, answers)) <==> id in events && id !in seen
    ensures forall o :: (id, o) in Driven(events, seen, answers) ==>
              exists i :: 0 <= i < |events| && events[i] == id && answers[i] == o
    ensures id !in seen ==>
              ((id, Admitted) in Driven(events, seen, answers) <==>
                 exists i :: 0 <= i < |events| && events[i] == id && answers[i] == Admitted)
  {
    if events != [] {
      var n := |events| - 1;
      var rest := Driven(events[..n], seen, answers[..n]);
      DrivenIff(events[..n], seen, answers[..n], id);
      assert events == events[..n] + [events[n]];
      assert forall i :: 0 <= i < n ==> events[..n][i] == events[i] && answers[..n][i] == answers[i];
      if events[n] == id && id !in seen && (id, Admitted) !in rest {
        assert (id, answers[n]) in Driven(events, seen, answers);
      }
    }
  }

  /** Within one poll no event is admitted twice, and nothing already seen is
      dispatched at all. */
  lemma {:induction false} DrivenOnce(events: seq<EventId>, seen: set<string>, answers: seq<Outcome>, i: nat, j: nat)
    requires |answers| == |events| && i < j < |Driven(events, seen, answers)|
    requires Driven(events, seen, answers)[i].0 == Driven(events, seen, answers)[j].0
    ensures Driven(events, seen, answers)[i].1 == Refused
    ensures Driven(events, seen, answers)[j].0 !in seen
  {
    var n := |events| - 1;
    var rest := Driven(events[..n], seen, answers[..n]);
    if j < |rest| {
      DrivenOnce(events[..n], seen, answers[..n], i, j);
    } else {
      assert rest[i] in rest;
    }
  }
}
