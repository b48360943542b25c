/** Promotable model pointers with governance (src/model_registry.rs). Each
    IMMEDIATE transaction is one atomic step. */
module ModelRegistry {
  import opened Options
  import opened Pointers
  import opened Strings
  import Tenants

  type Hash = string

  datatype Key = Key(tenant: string, name: string, alias: string)

  datatype Model = Model(name: string, tenant: string)

  datatype Registry = Registry(models: map<Hash, Model>, table: Table<Key, Hash>)

  datatype Verdict = Pass | Fail | NotConfigured

  datatype Error =
    | BadTenant | BadHash | BadName | OtherTenant | OtherName
    | BadAlias | NotRegistered | GateNotPassed | NoPrior | ForeignPrior

  datatype Outcome = Ok(target: Option<Hash>) | Err(error: Error)

  function Register(r: Registry, hash: Hash, name: string, tenant: string): (Registry, Outcome) {
    if Tenants.Parse(tenant).None? then (r, Err(BadTenant))
    else if !IsDigest(hash) then (r, Err(BadHash))
    else if !Tenants.IsSafeIdent(name) then (r, Err(BadName))
    else if hash in r.models then
      if r.models[hash].tenant != tenant then (r, Err(OtherTenant))
      else if r.models[hash].name != name then (r, Err(OtherName))
      else (r, Ok(None))
    else (r.(models := r.models[hash := Model(name, tenant)]), Ok(None))
  }

  function PromoteUnchecked(r: Registry, hash: Hash, k: Key): (Registry, Outcome) {
    if Tenants.Parse(k.tenant).None? then (r, Err(BadTenant))
    else if !Tenants.IsSafeIdent(k.alias) then (r, Err(BadAlias))
    else if hash !in r.models then (r, Err(NotRegistered))
    else if r.models[hash].tenant != k.tenant then (r, Err(OtherTenant))
    else if r.models[hash].name != k.name then (r, Err(OtherName))
    else (r.(table := Move(r.table, k, hash)), Ok(None))
  }

  function PromoteGoverned(r: Registry, hash: Hash, k: Key, governed: set<string>,
                           verdict: Option<Verdict>): (Registry, Outcome) {
    if k.alias in governed && verdict != Some(Pass) then (r, Err(GateNotPassed))
    else PromoteUnchecked(r, hash, k)
  }

  function Rollback(r: Registry, k: Key): (Registry, Outcome) {
    var prev := Previous(r.table, k);
    if prev.None? then (r, Err(NoPrior))
    else if !Owned(r.models, prev.value, k) then (r, Err(ForeignPrior))
    else (r.(table := Repoint(r.table, k, prev.value)), Ok(prev))
  }

  /** The hash is registered to the pointer's tenant and name. */
  predicate Owned(models: map<Hash, Model>, hash: Hash, k: Key) {
    hash in models && models[hash] == Model(k.name, k.tenant)
  }

  /** The aliases the default entry point treats as governed. */
  const DEFAULT_GOVERNED: set<string> := {"prod"}

  class RegistryDb {
    var reg: Registry

    constructor ()
      ensures reg == EMPTY
    {
      reg := EMPTY;
    }

    method DoRegister(hash: Hash, name: string, tenant: string) returns (out: Outcome)
      modifies this
      ensures (reg, out) == Step(old(reg), OpRegister(hash, name, tenant))
      ensures old(Invariant(reg)) ==> Invariant(reg)
    {
      if Invariant(reg) { StepKeeps(reg, OpRegister(hash, name, tenant)); }
      if Tenants.Parse(tenant).None? {
        return Err(BadTenant);
      }
      if !IsDigest(hash) {
        return Err(BadHash);
      }
      if !Tenants.IsSafeIdent(name) {
        return Err(BadName);
      }
      if hash in reg.models {
        if reg.models[hash].tenant != tenant {
          return Err(OtherTenant);
        }
        if reg.models[hash].name != name {
          return Err(OtherName);
        }
        return Ok(None);
      }
      reg := reg.(models := reg.models[hash := Model(name, tenant)]);
      return Ok(None);
    }

    method DoPromoteGoverned(hash: Hash, k: Key, governed: set<string>, verdict: Option<Verdict>) returns (out: Outcome)
      modifies this
      ensures (reg, out) == Step(old(reg), OpPromote(hash, k, governed, verdict))
      ensures old(Invariant(reg)) ==> Invariant(reg)
    {
      if Invariant(reg) { StepKeeps(reg, OpPromote(hash, k, governed, verdict)); }
      if k.alias in governed && verdict != Some(Pass) {
        return Err(GateNotPassed);
      }
      var (next, o) := PromoteUnchecked(reg, hash, k);
      reg := next;
      return o;
    }

    /** The default entry point: no verdict, the default governed aliases. */
    method DoPromote(hash: Hash, k: Key) returns (out: Outcome)
      modifies this
      ensures (reg, out) == Step(old(reg), OpPromote(hash, k, DEFAULT_GOVERNED, None))
      ensures old(Invariant(reg)) ==> Invariant(reg)
    {
      out := DoPromoteGoverned(hash, k, DEFAULT_GOVERNED, None);
    }

    method DoRollback(k: Key) returns (out: Outcome)
      modifies this
      ensures (reg, out) == Step(old(reg), OpRollback(k))
      ensures old(Invariant(reg)) ==> Invariant(reg)
    {
      if Invariant(reg) { StepKeeps(reg, OpRollback(k)); }
      var prev := Previous(reg.table, k);
      if prev.None? {
        return Err(NoPrior);
      }
      if !Owned(reg.models, prev.value, k) {
        return Err(ForeignPrior);
      }
      reg := reg.(table := Repoint(reg.table, k, prev.value));
      return Ok(prev);
    }
  }

  // ---- runs ----

  datatype Op =
    | OpRegister(hash: Hash, name: string, tenant: string)
    | OpPromote(hash: Hash, k: Key, governed: set<string>, verdict: Option<Verdict>)
    | OpRollback(k: Key)

  function Step(r: Registry, op: Op): (Registry, Outcome) {
    match op
    case OpRegister(hash, name, tenant) => Register(r, hash, name, tenant)
    case OpPromote(hash, k, governed, verdict) => PromoteGoverned(r, hash, k, governed, verdict)
    case OpRollback(k) => Rollback(r, k)
  }

  const EMPTY := Registry(map[], Table(map[], []))

  function Exec(ops: seq<Op>): Registry {
    if ops == [] then EMPTY else Step(Exec(ops[..|ops| - 1]), ops[|ops| - 1]).0
  }

  /** Every move ever made targeted a hash registered to that tenant and name. */
  ghost predicate TargetsOwned(r: Registry) {
    forall i :: 0 <= i < |r.table.history| ==> Owned(r.models, r.table.history[i].1, r.table.history[i].0)
  }

  ghost predicate Invariant(r: Registry) { Consistent(r.table) && TargetsOwned(r) }

  lemma StepKeeps(r: Registry, op: Op)
    requires Invariant(r)
    ensures Invariant(Step(r, op).0)
    ensures r.table.history <= Step(r, op).0.table.history
    ensures r.models.Keys <= Step(r, op).0.models.Keys
    ensures forall h :: h in r.models ==> Step(r, op).0.models[h] == r.models[h]
  {
    hide Consistent, Tenants.Parse, IsDigest, Tenants.IsSafeIdent, Previous;
    match op
    case OpRegister(_, _, _) =>
    case OpPromote(hash, k, _, _) => MoveConsistent(r.table, k, hash);
    case OpRollback(k) =>
      if Previous(r.table, k).Some? {
        MoveConsistent(r.table, k, Previous(r.table, k).value);
        RepointIsMove(r.table, k, Previous(r.table, k).value);
      }
  }

  /** Over every run: pointers agree with their trails, every target belongs to
      its pointer's tenant and name. */
  lemma {:induction false} RunKeeps(ops: seq<Op>)
    ensures Invariant(Exec(ops))
  {
    hide Step;
    if ops == [] {
      EmptyInvariant();
    } else {
      RunKeeps(ops[..|ops| - 1]);
      StepKeeps(Exec(ops[..|ops| - 1]), ops[|ops| - 1]);
    }
  }

  lemma EmptyInvariant()
    ensures Invariant(EMPTY)
  {
  }

  /** The trail and the registered models only ever grow. */
  lemma {:induction false} RunOnlyGrows(ops: seq<Op>, more: seq<Op>)
    ensures Exec(ops).table.history <= Exec(ops + more).table.history
    ensures forall h :: h in Exec(ops).models ==>
              h in Exec(ops + more).models && Exec(ops + more).models[h] == Exec(ops).models[h]
  {
    hide Step, Invariant;
    if more == [] {
      assert ops + more == ops;
    } else {
      var rest := more[..|more| - 1];
      RunOnlyGrows(ops, rest);
      assert (ops + more)[..|ops + more| - 1] == ops + rest;
      RunKeeps(ops + rest);
      StepKeeps(Exec(ops + rest), more[|more| - 1]);
    }
  }

  /** In every reachable state rollback succeeds exactly when the trail has two
      entries, and then it returns and installs the one before the last. */
  lemma RollbackSucceedsIff(ops: seq<Op>, k: Key)
    ensures var r := Exec(ops);
            var (next, out) := Rollback(r, k);
            && (out.Ok? <==> |Trail(r.table.history, k)| >= 2)
            && (out.Ok? ==> && out.target == Previous(r.table, k)
                            && next.table == Move(r.table, k, Previous(r.table, k).value))
  {
    hide Exec, Trail;
    RunKeeps(ops);
    var r := Exec(ops);
    PreviousIff(r.table, k);
    hide Previous;
    if Previous(r.table, k).Some? { RepointIsMove(r.table, k, Previous(r.table, k).value); }
  }

  /** Two rollbacks in a row restore the pointer. */
  lemma TwoRollbacksRestore(ops: seq<Op>, k: Key)
    requires |Trail(Exec(ops).table.history, k)| >= 2
    ensures Exec(ops + [OpRollback(k), OpRollback(k)]).table.pointers == Exec(ops).table.pointers
  {
    hide Exec, Trail, Rollback, Previous, Move, Consistent;
    var once := ops + [OpRollback(k)];
    assert ops + [OpRollback(k), OpRollback(k)] == once + [OpRollback(k)];
    ExecSnoc(ops, OpRollback(k));
    ExecSnoc(once, OpRollback(k));
    RunKeeps(ops);
    RollbackSucceedsIff(ops, k);
    RollbackSucceedsIff(once, k);
    PreviousIff(Exec(ops).table, k);
    PreviousIff(Exec(once).table, k);
    TwoRollbacks(Exec(ops).table, k);
  }

  // ---- exactly when an operation takes effect ----

  /** In every reachable state a promotion succeeds exactly when all of this holds,
      and then the pointer is at the hash and its trail one longer, whatever it
      pointed at before; otherwise nothing changes. */
  lemma PromotesIff(ops: seq<Op>, hash: Hash, k: Key, governed: set<string>, verdict: Option<Verdict>)
    ensures var r := Exec(ops);
            var (next, out) := Step(r, OpPromote(hash, k, governed, verdict));
            && (out.Ok? <==>
                  && (k.alias in governed ==> verdict == Some(Pass))
                  && Tenants.Parse(k.tenant).Some? && Tenants.IsSafeIdent(k.alias)
                  && hash in r.models && r.models[hash].tenant == k.tenant && r.models[hash].name == k.name)
            && (out.Ok? ==> next.models == r.models && MovedTo(r.table, next.table, k, hash))
            && (!out.Ok? ==> next == r)
  {
    hide Exec, Tenants.Parse, Tenants.IsSafeIdent, MovedTo, Move;
    MoveMoves(Exec(ops).table, k, hash);
  }

  /** The default entry point never moves `prod`, and asks no verdict of any other
      alias. */
  lemma DefaultGoverns(ops: seq<Op>, hash: Hash, k: Key)
    ensures var r := Exec(ops);
            && (k.alias == "prod" ==>
                  Step(r, OpPromote(hash, k, DEFAULT_GOVERNED, None)) == (r, Err(GateNotPassed)))
            && (k.alias != "prod" ==>
                  Step(r, OpPromote(hash, k, DEFAULT_GOVERNED, None)) == Step(r, OpPromote(hash, k, {}, None)))
  {
    hide Exec, Tenants.Parse, Tenants.IsSafeIdent, Move;
  }

  /** A registration succeeds exactly when this holds; then the hash belongs to that
      name and tenant, everything else is as it was, and otherwise all of it is. */
  lemma RegistersIff(ops: seq<Op>, hash: Hash, name: string, tenant: string)
    ensures var r := Exec(ops);
            var (next, out) := Step(r, OpRegister(hash, name, tenant));
            && (out.Ok? <==>
                  && Tenants.Parse(tenant).Some? && Tenants.IsSafeIdent(name)
                  && |hash| == 64 && (forall i :: 0 <= i < 64 ==> '0' <= hash[i] <= '9' || 'a' <= hash[i] <= 'f')
                  && (hash in r.models ==> r.models[hash].name == name && r.models[hash].tenant == tenant))
            && next.table == r.table
            && (out.Ok? ==> next.models == r.models[hash := Model(name, tenant)])
            && (!out.Ok? ==> next == r)
  {
    hide Exec, Tenants.Parse, Tenants.IsSafeIdent;
    var r := Exec(ops);
    var row := Model(name, tenant);
    if hash in r.models { assert r.models[hash] == row ==> r.models[hash := row] == r.models; }
  }

  // ---- governance ----

  /** The run put this hash through this pointer's gate, and it passed. */
  ghost predicate Vetted(ops: seq<Op>, k: Key, hash: Hash) {
    exists i :: 0 <= i < |ops| && PassedAt(ops[i], k, hash)
  }

  predicate PassedAt(op: Op, k: Key, hash: Hash) {
    op.OpPromote? && op.k == k && op.hash == hash && op.verdict == Some(Pass)
  }

  /** Every promotion onto k in the run treats its alias as governed. */
  ghost predicate AlwaysGoverned(ops: seq<Op>, k: Key) {
    forall i :: 0 <= i < |ops| && ops[i].OpPromote? && ops[i].k == k ==> k.alias in ops[i].governed
  }

  /** An alias always treated as governed has only ever pointed at hashes that
      passed its gate earlier in the run. */
  lemma {:induction false} GovernedOnlyVetted(ops: seq<Op>, k: Key, i: nat)
    requires AlwaysGoverned(ops, k) && i < |Trail(Exec(ops).table.history, k)|
    ensures Vetted(ops, k, Trail(Exec(ops).table.history, k)[i])
  {
    hide Exec, Trail, Vetted;
    if ops == [] {
      EmptyTrail(k);
    } else {
      var n := |ops| - 1;
      var rest, op := ops[..n], ops[n];
      assert ops == rest + [op];
      assert AlwaysGoverned(rest, k);
      var before := Trail(Exec(rest).table.history, k);
      if i < |before| {
        TrailPrefix(rest, op, k, i);
        GovernedOnlyVetted(rest, k, i);
        VettedEarlier(rest, op, k, before[i]);
      } else {
        NewTarget(rest, op, k, i);
        if op.OpPromote? {
          VettedNow(rest, op, k);
        } else {
          GovernedOnlyVetted(rest, k, |before| - 2);
          VettedEarlier(rest, op, k, before[|before| - 2]);
        }
      }
    }
  }

  lemma EmptyTrail(k: Key)
    ensures Trail(Exec([]).table.history, k) == []
  {
  }

  lemma VettedNow(ops: seq<Op>, op: Op, k: Key)
    requires op.OpPromote? && op.k == k && op.verdict == Some(Pass)
    ensures Vetted(ops + [op], k, op.hash)
  {
    assert PassedAt((ops + [op])[|ops|], k, op.hash);
  }

  lemma VettedEarlier(ops: seq<Op>, op: Op, k: Key, hash: Hash)
    requires Vetted(ops, k, hash)
    ensures Vetted(ops + [op], k, hash)
  {
    hide PassedAt;
    var i :| 0 <= i < |ops| && PassedAt(ops[i], k, hash);
    assert PassedAt((ops + [op])[i], k, hash);
  }

  /** What one step adds to a trail. */
  lemma StepTrail(r: Registry, op: Op, k: Key)
    requires Invariant(r)
    ensures var was, now := Trail(r.table.history, k), Trail(Step(r, op).0.table.history, k);
            || now == was
            || (op.OpPromote? && op.k == k && now == was + [op.hash]
                && (k.alias in op.governed ==> op.verdict == Some(Pass)))
            || (op.OpRollback? && op.k == k && |was| >= 2 && now == was + [was[|was| - 2]])
  {
    hide Trail, Tenants.Parse, Tenants.IsSafeIdent, IsDigest;
    match op
    case OpRegister(_, _, _) =>
    case OpPromote(hash, j, _, _) => TrailSnoc(r.table.history, j, hash, k);
    case OpRollback(j) =>
      if Previous(r.table, j).Some? { TrailSnoc(r.table.history, j, Previous(r.table, j).value, k); }
  }

  lemma TrailPrefix(ops: seq<Op>, op: Op, k: Key, i: nat)
    requires i < |Trail(Exec(ops).table.history, k)|
    ensures i < |Trail(Exec(ops + [op]).table.history, k)|
    ensures Trail(Exec(ops + [op]).table.history, k)[i] == Trail(Exec(ops).table.history, k)[i]
  {
    ExecSnoc(ops, op);
    hide Exec, Step, Trail, Invariant;
    RunKeeps(ops);
    StepTrail(Exec(ops), op, k);
  }

  lemma ExecSnoc(ops: seq<Op>, op: Op)
    ensures Exec(ops + [op]) == Step(Exec(ops), op).0
  {
    assert (ops + [op])[..|ops|] == ops;
  }

  lemma NewTarget(ops: seq<Op>, op: Op, k: Key, i: nat)
    requires |Trail(Exec(ops).table.history, k)| <= i < |Trail(Exec(ops + [op]).table.history, k)|
    ensures var was, now := Trail(Exec(ops).table.history, k), Trail(Exec(ops + [op]).table.history, k);
            if op.OpPromote? then
              op.k == k && now[i] == op.hash && (k.alias in op.governed ==> op.verdict == Some(Pass))
            else
              op.OpRollback? && op.k == k && |was| >= 2 && now[i] == was[|was| - 2]
  {
    ExecSnoc(ops, op);
    hide Exec, Step, Trail, Invariant;
    RunKeeps(ops);
    StepTrail(Exec(ops), op, k);
  }

  /** Every promotion in the run uses the same governed set. */
  ghost predicate Uses(ops: seq<Op>, governed: set<string>) {
    forall i :: 0 <= i < |ops| && ops[i].OpPromote? ==> ops[i].governed == governed
  }

  ghost predicate PointsOnlyAtVetted(ops: seq<Op>, k: Key) {
    var r := Exec(ops);
    k in r.table.pointers ==> Vetted(ops, k, r.table.pointers[k])
  }

  /** The governed set comes from the caller: an alias is protected in every run
      exactly when the caller's set names it (or no pointer can have that key). */
  lemma GovernanceIff(governed: set<string>, k: Key)
    ensures (forall ops :: Uses(ops, governed) ==> PointsOnlyAtVetted(ops, k))
       <==> k.alias in governed || !UsableKey(k)
  {
    hide UsableKey;
    if k.alias in governed || !UsableKey(k) {
      forall ops | Uses(ops, governed) ensures PointsOnlyAtVetted(ops, k) { ProtectedRun(ops, governed, k); }
    } else {
      BypassRun(governed, k);
    }
  }

  /** A key that some pointer could have. */
  predicate UsableKey(k: Key) {
    Tenants.Parse(k.tenant).Some? && Tenants.IsSafeIdent(k.name) && Tenants.IsSafeIdent(k.alias)
  }

  lemma ProtectedRun(ops: seq<Op>, governed: set<string>, k: Key)
    requires Uses(ops, governed) && (k.alias in governed || !UsableKey(k))
    ensures PointsOnlyAtVetted(ops, k)
  {
    hide Exec, Trail, Vetted;
    RunKeeps(ops);
    var r := Exec(ops);
    assert PointsAtLast(r.table, k);
    var trail := Trail(r.table.history, k);
    if k in r.table.pointers {
      if k.alias in governed {
        GovernedOnlyVetted(ops, k, |trail| - 1);
      } else {
        UnusableHasNoTrail(ops, k);
      }
    }
  }

  lemma {:induction false} UnusableHasNoTrail(ops: seq<Op>, k: Key)
    requires !UsableKey(k)
    ensures Trail(Exec(ops).table.history, k) == []
    ensures NamesSafe(Exec(ops))
  {
    if ops != [] {
      var rest, op := ops[..|ops| - 1], ops[|ops| - 1];
      UnusableHasNoTrail(rest, k);
      RunKeeps(rest);
      hide Exec, Trail, Invariant, Tenants.Parse, Tenants.IsSafeIdent;
      StepTrail(Exec(rest), op, k);
    }
  }

  ghost predicate NamesSafe(r: Registry) {
    forall h :: h in r.models ==> Tenants.IsSafeIdent(r.models[h].name)
  }

  function SomeHash(): (h: Hash)
    ensures IsDigest(h)
  {
    seq(64, i => 'a')
  }

  /** One registration and one promotion without any verdict. */
  lemma BypassRun(governed: set<string>, k: Key)
    requires k.alias !in governed && UsableKey(k)
    ensures var ops := [OpRegister(SomeHash(), k.name, k.tenant), OpPromote(SomeHash(), k, governed, None)];
            Uses(ops, governed) && !PointsOnlyAtVetted(ops, k)
  {
    var h := SomeHash();
    var reg, pro := OpRegister(h, k.name, k.tenant), OpPromote(h, k, governed, None);
    var ops := [reg, pro];
    assert ops[..1] == [reg] && [reg][..0] == [];
    assert Exec([reg]) == Step(Exec([]), reg).0;
    assert Exec(ops) == Step(Exec([reg]), pro).0;
    assert Exec([reg]).models[h] == Model(k.name, k.tenant);
    assert k in Exec(ops).table.pointers && Exec(ops).table.pointers[k] == h;
  }

  // ---- spellings of one tenant ----

  /** Tenants are accepted by what they parse to but kept as they were spelled: one
      tenant, name and alias can have two pointers with different targets. */
  lemma StrayNamespace(k: Key, a: Hash, b: Hash)
    requires UsableKey(k) && IsDigest(a) && IsDigest(b) && a != b
    ensures var stray := k.(tenant := k.tenant + " ");
            var r := Exec([OpRegister(a, k.name, k.tenant), OpPromote(a, k, {}, None),
                           OpRegister(b, k.name, stray.tenant), OpPromote(b, stray, {}, None)]);
            && Tenants.Parse(stray.tenant) == Tenants.Parse(k.tenant)
            && k in r.table.pointers && stray in r.table.pointers
            && r.table.pointers[k] == a && r.table.pointers[stray] == b
  {
    hide Tenants.Parse, Tenants.IsSafeIdent, IsDigest;
    Tenants.PaddedSpelling(k.tenant);
    var stray := k.(tenant := k.tenant + " ");
    var o1, o2 := OpRegister(a, k.name, k.tenant), OpPromote(a, k, {}, None);
    var o3, o4 := OpRegister(b, k.name, stray.tenant), OpPromote(b, stray, {}, None);
    ExecSnoc([], o1);
    ExecSnoc([o1], o2);
    ExecSnoc([o1, o2], o3);
    ExecSnoc([o1, o2, o3], o4);
    assert [] + [o1] == [o1] && [o1] + [o2] == [o1, o2] && [o1, o2] + [o3] == [o1, o2, o3];
    assert [o1, o2, o3] + [o4] == [o1, o2, o3, o4];
    hide Exec;
  }
}
