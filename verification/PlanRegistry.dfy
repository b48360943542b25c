/** The plan deployment registry (src/registry_db.rs): the same pointers, with a
    typecheck at the door and frozen specs behind the fingerprints. */
module PlanRegistry {
  import opened Options
  import opened Pointers

  type Fingerprint = string

  /** A plan specification. */
  datatype Spec = Spec(content: seq<int>)

  /** What is kept of a published plan: its canonical bytes. */
  datatype Deployment = Deployment(bytes: seq<int>, tenant: string)

  datatype Key = Key(tenant: string, name: string)

  datatype Registry = Registry(deployments: map<Fingerprint, Deployment>, table: Table<Key, Fingerprint>)

  /** The compiled-in stages decide what typechecks; hash and serialization are
      opaque. */
  datatype World = World(
    typechecks: Spec -> bool, fingerprint: Spec -> Fingerprint,
    encode: Spec -> seq<int>, decode: seq<int> -> Option<Spec>)

  datatype Error =
    | DoesNotTypecheck | OtherTenant | NotPublished | NoPrior | ForeignPrior | NoPointer | RowMissing | Garbled

  datatype Outcome = Ok(target: Option<Fingerprint>) | Err(error: Error)

  function Publish(w: World, r: Registry, spec: Spec, tenant: string): (Registry, Outcome) {
    var fp := w.fingerprint(spec);
    if !w.typechecks(spec) then (r, Err(DoesNotTypecheck))
    else if fp in r.deployments then
      if r.deployments[fp].tenant != tenant then (r, Err(OtherTenant)) else (r, Ok(Some(fp)))
    else (r.(deployments := r.deployments[fp := Deployment(w.encode(spec), tenant)]), Ok(Some(fp)))
  }

  function Promote(r: Registry, fp: Fingerprint, k: Key): (Registry, Outcome) {
    if fp !in r.deployments then (r, Err(NotPublished))
    else if r.deployments[fp].tenant != k.tenant then (r, Err(OtherTenant))
    else (r.(table := Move(r.table, k, fp)), Ok(None))
  }

  predicate Owned(r: Registry, fp: Fingerprint, k: Key) {
    fp in r.deployments && r.deployments[fp].tenant == k.tenant
  }

  function Rollback(r: Registry, k: Key): (Registry, Outcome) {
    var prev := Previous(r.table, k);
    if prev.None? then (r, Err(NoPrior))
    else if !Owned(r, prev.value, k) then (r, Err(ForeignPrior))
    else (r.(table := Repoint(r.table, k, prev.value)), Ok(prev))
  }

  datatype Resolution = Found(spec: Spec) | Missing(error: Error)

  /** From a pointer all the way to the frozen spec. */
  function ResolveSpec(w: World, r: Registry, k: Key): Resolution {
    if k !in r.table.pointers then Missing(NoPointer)
    else if r.table.pointers[k] !in r.deployments then Missing(RowMissing)
    else
      var spec := w.decode(r.deployments[r.table.pointers[k]].bytes);
      if spec.None? then Missing(Garbled) else Found(spec.value)
  }

  /** The deployment database. The tables are updated in place; the compiled-in
      stages and the hash never change. */
  class PlanDb {
    const world: World
    var reg: Registry

    constructor (w: World)
      ensures world == w && reg == EMPTY && Invariant(world, reg)
    {
      world := w;
      reg := EMPTY;
    }

    method DoPublish(spec: Spec, tenant: string) returns (out: Outcome)
      modifies this
      ensures (reg, out) == Step(world, old(reg), OpPublish(spec, tenant))
      ensures old(Invariant(world, reg)) ==> Invariant(world, reg)
    {
      if Invariant(world, reg) { StepKeeps(world, reg, OpPublish(spec, tenant)); }
      if !world.typechecks(spec) {
        return Err(DoesNotTypecheck);
      }
      var fp := world.fingerprint(spec);
      if fp in reg.deployments {
        if reg.deployments[fp].tenant != tenant {
          return Err(OtherTenant);
        }
        return Ok(Some(fp));
      }
      reg := reg.(deployments := reg.deployments[fp := Deployment(world.encode(spec), tenant)]);
      return Ok(Some(fp));
    }

    method DoPromote(fp: Fingerprint, k: Key) returns (out: Outcome)
      modifies this
      ensures (reg, out) == Step(world, old(reg), OpPromote(fp, k))
      ensures old(Invariant(world, reg)) ==> Invariant(world, reg)
    {
      if Invariant(world, reg) { StepKeeps(world, reg, OpPromote(fp, k)); }
      if fp !in reg.deployments {
        return Err(NotPublished);
      }
      if reg.deployments[fp].tenant != k.tenant {
        return Err(OtherTenant);
      }
      reg := reg.(table := Move(reg.table, k, fp));
      return Ok(None);
    }

    method DoRollback(k: Key) returns (out: Outcome)
      modifies this
      ensures (reg, out) == Step(world, old(reg), OpRollback(k))
      ensures old(Invariant(world, reg)) ==> Invariant(world, reg)
    {
      if Invariant(world, reg) { StepKeeps(world, reg, OpRollback(k)); }
      var prev := Previous(reg.table, k);
      if prev.None? {
        return Err(NoPrior);
      }
      if !Owned(reg, prev.value, k) {
        return Err(ForeignPrior);
      }
      reg := reg.(table := Repoint(reg.table, k, prev.value));
      return Ok(prev);
    }

    /** Under the invariant, and with a serialization that can be read back, a
        pointer always leads to a vetted spec. */
    method Resolve(k: Key) returns (res: Resolution)
      ensures res == ResolveSpec(world, reg, k)
      ensures Invariant(world, reg) && Readable(world) ==>
                && (res.Found? <==> k in reg.table.pointers)
                && (res.Found? ==> world.typechecks(res.spec) && world.fingerprint(res.spec) == reg.table.pointers[k])
    {
      if Invariant(world, reg) && Readable(world) { PointerOwned(world, reg, k); }
      if k !in reg.table.pointers {
        return Missing(NoPointer);
      }
      var fp := reg.table.pointers[k];
      if fp !in reg.deployments {
        return Missing(RowMissing);
      }
      var spec := world.decode(reg.deployments[fp].bytes);
      if spec.None? {
        return Missing(Garbled);
      }
      return Found(spec.value);
    }
  }

  // ---- runs ----

  datatype Op = OpPublish(spec: Spec, tenant: string) | OpPromote(fp: Fingerprint, k: Key) | OpRollback(k: Key)

  function Step(w: World, r: Registry, op: Op): (Registry, Outcome) {
    match op
    case OpPublish(spec, tenant) => Publish(w, r, spec, tenant)
    case OpPromote(fp, k) => Promote(r, fp, k)
    case OpRollback(k) => Rollback(r, k)
  }

  const EMPTY := Registry(map[], Table(map[], []))

  function Exec(w: World, ops: seq<Op>): Registry {
    if ops == [] then EMPTY else Step(w, Exec(w, ops[..|ops| - 1]), ops[|ops| - 1]).0
  }

  ghost predicate Invariant(w: World, r: Registry) {
    && Consistent(r.table)
    && (forall i :: 0 <= i < |r.table.history| ==> Owned(r, r.table.history[i].1, r.table.history[i].0))
    && (forall fp :: fp in r.deployments ==> exists spec :: IsPublished(w, fp, r.deployments[fp], spec))
  }

  /** The deployment is that of a spec that typechecked and has this fingerprint. */
  predicate IsPublished(w: World, fp: Fingerprint, d: Deployment, spec: Spec) {
    w.typechecks(spec) && w.fingerprint(spec) == fp && d.bytes == w.encode(spec)
  }

  /** What was serialized reads back as it was. */
  ghost predicate Readable(w: World) { forall spec :: w.decode(w.encode(spec)) == Some(spec) }

  lemma StepKeeps(w: World, r: Registry, op: Op)
    requires Invariant(w, r)
    ensures Invariant(w, Step(w, r, op).0)
    ensures r.table.history <= Step(w, r, op).0.table.history
    ensures forall fp :: fp in r.deployments ==>
              fp in Step(w, r, op).0.deployments && Step(w, r, op).0.deployments[fp] == r.deployments[fp]
  {
    hide Consistent, Previous;
    match op
    case OpPublish(spec, tenant) =>
      var fp := w.fingerprint(spec);
      assert w.typechecks(spec) ==> IsPublished(w, fp, Deployment(w.encode(spec), tenant), spec);
    case OpPromote(fp, k) => MoveConsistent(r.table, k, fp);
    case OpRollback(k) =>
      if Previous(r.table, k).Some? {
        MoveConsistent(r.table, k, Previous(r.table, k).value);
        RepointIsMove(r.table, k, Previous(r.table, k).value);
      }
  }

  /** Every pointer leads to a deployment of its own tenant. */
  lemma PointerOwned(w: World, r: Registry, k: Key)
    requires Invariant(w, r)
    ensures k in r.table.pointers <==> Trail(r.table.history, k) != []
    ensures k in r.table.pointers ==> Owned(r, r.table.pointers[k], k)
  {
    hide Trail, Owned;
    assert PointsAtLast(r.table, k);
    var trail := Trail(r.table.history, k);
    if trail != [] {
      var j := TrailIsHistory(r.table.history, k, |trail| - 1);
    }
  }

  lemma {:induction false} RunKeeps(w: World, ops: seq<Op>)
    ensures Invariant(w, Exec(w, ops))
  {
    if ops != [] {
      RunKeeps(w, ops[..|ops| - 1]);
      hide Step, Invariant;
      StepKeeps(w, Exec(w, ops[..|ops| - 1]), ops[|ops| - 1]);
    }
  }

  /** How a spec reads once it has been serialized. */
  function ReadBack(w: World, spec: Spec): Resolution {
    var read := w.decode(w.encode(spec));
    if read.None? then Missing(Garbled) else Found(read.value)
  }

  /** In every reachable state a pointer leads to the bytes of a spec that
      typechecked, whose fingerprint is the pointer's target, and that belongs to the
      tenant; what comes back is how those bytes read. A missing row behind a pointer
      cannot be seen. */
  lemma ResolvedSpecIsVetted(w: World, ops: seq<Op>, k: Key)
    ensures var r := Exec(w, ops);
            if k !in r.table.pointers then ResolveSpec(w, r, k) == Missing(NoPointer) && Trail(r.table.history, k) == []
            else
              && Owned(r, r.table.pointers[k], k)
              && exists spec ::
                   && IsPublished(w, r.table.pointers[k], r.deployments[r.table.pointers[k]], spec)
                   && ResolveSpec(w, r, k) == ReadBack(w, spec)
  {
    hide Exec, Trail;
    RunKeeps(w, ops);
    PointerOwned(w, Exec(w, ops), k);
  }

  /** In every reachable state publishing succeeds exactly when the spec typechecks
      and nobody else published the same content; then its bytes are there under its
      fingerprint, which is returned, and nothing else changed. */
  lemma PublishesIff(w: World, ops: seq<Op>, spec: Spec, tenant: string)
    ensures var r, fp := Exec(w, ops), w.fingerprint(spec);
            var (next, out) := Step(w, r, OpPublish(spec, tenant));
            && (out.Ok? <==> w.typechecks(spec) && (fp in r.deployments ==> r.deployments[fp].tenant == tenant))
            && next.table == r.table
            && (out.Ok? ==>
                  && out.target == Some(fp) && fp in next.deployments && next.deployments[fp].tenant == tenant
                  && (fp !in r.deployments ==> next.deployments[fp].bytes == w.encode(spec))
                  && next.deployments - {fp} == r.deployments - {fp}
                  && (fp in r.deployments ==> next == r))
            && (!out.Ok? ==> next == r)
  {
    hide Exec;
  }

  /** A promotion succeeds exactly for a published fingerprint of the pointer's own
      tenant, and then takes effect whatever was there before. */
  lemma PromotesIff(w: World, ops: seq<Op>, fp: Fingerprint, k: Key)
    ensures var r := Exec(w, ops);
            var (next, out) := Step(w, r, OpPromote(fp, k));
            && (out.Ok? <==> fp in r.deployments && r.deployments[fp].tenant == k.tenant)
            && (out.Ok? ==> next.deployments == r.deployments && MovedTo(r.table, next.table, k, fp))
            && (!out.Ok? ==> next == r)
  {
    hide Exec, MovedTo, Move;
    MoveMoves(Exec(w, ops).table, k, fp);
  }

  /** Rolling back succeeds exactly when the pointer has moved at least twice; it
      then moves to the target before the last. */
  lemma RollbackSucceedsIff(w: World, ops: seq<Op>, k: Key)
    ensures var r := Exec(w, ops);
            var (next, out) := Rollback(r, k);
            && (out.Ok? <==> |Trail(r.table.history, k)| >= 2)
            && (out.Ok? ==> out.target == Previous(r.table, k)
                            && next.table == Move(r.table, k, Previous(r.table, k).value))
  {
    hide Exec, Trail;
    RunKeeps(w, ops);
    var r := Exec(w, ops);
    PreviousIff(r.table, k);
    hide Previous;
    if Previous(r.table, k).Some? { RepointIsMove(r.table, k, Previous(r.table, k).value); }
  }

  /** Publish, promote, run: whatever happened before, the deploy identity leads
      back to the exact spec if and only if the spec's serialization reads back as
      it, as long as no other spec shares its fingerprint. */
  lemma DeployRoundTrip(w: World, ops: seq<Op>, spec: Spec, k: Key)
    requires forall other :: w.fingerprint(other) == w.fingerprint(spec) ==> other == spec
    requires Publish(w, Exec(w, ops), spec, k.tenant).1.Ok?
    ensures var r := Exec(w, ops + [OpPublish(spec, k.tenant), OpPromote(w.fingerprint(spec), k)]);
            ResolveSpec(w, r, k) == Found(spec) <==> w.decode(w.encode(spec)) == Some(spec)
  {
    var first := ops + [OpPublish(spec, k.tenant)];
    var both := ops + [OpPublish(spec, k.tenant), OpPromote(w.fingerprint(spec), k)];
    assert first[..|ops|] == ops && both[..|ops| + 1] == first;
    assert Exec(w, first) == Publish(w, Exec(w, ops), spec, k.tenant).0;
    assert Exec(w, both) == Promote(Exec(w, first), w.fingerprint(spec), k).0;
    RunKeeps(w, ops);
  }
}
