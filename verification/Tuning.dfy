/** What the cost fold means when nothing saturates, and what that buys: the
    tuner agrees with the admission gate, and workers-then-batch tuning leaves
    nothing on the table. */
module Tuning {
  import opened Envelope
  import opened Options

  // ---- exact affine sums ----

  function Declared(ts: seq<CostTerm>): nat {
    if ts == [] then 0
    else
      var t := ts[|ts| - 1];
      NonNegative(t.declaredUnits, t.perUnitCold);
      Declared(ts[..|ts| - 1]) + t.declaredUnits * t.perUnitCold
  }

  function Repriced(ts: seq<CostTerm>, o: Overrides, warm: bool): nat {
    if ts == [] then 0
    else
      var t := ts[|ts| - 1];
      NonNegative(Units(t, o), PerUnit(t, warm));
      Repriced(ts[..|ts| - 1], o, warm) + Units(t, o) * PerUnit(t, warm)
  }

  /** The declaration contract at these overrides: the base covers what the
      terms declare, and adding everything back stays within 64 bits. */
  ghost predicate Unsaturated(env: ResourceEnvelope, o: Overrides, warm: bool) {
    && Declared(env.costTerms) <= env.ramBytes
    && env.ramBytes + Repriced(env.costTerms, o, warm) <= U64_MAX
  }

  lemma {:induction false} FoldIsAffine(ram: u64, ts: seq<CostTerm>, o: Overrides, warm: bool)
    requires Declared(ts) <= ram && ram + Repriced(ts, o, warm) <= U64_MAX
    ensures Fold(ram, ts, o, warm) == ram - Declared(ts) + Repriced(ts, o, warm)
  {
    if ts != [] {
      var rest, t := ts[..|ts| - 1], ts[|ts| - 1];
      NonNegative(t.declaredUnits, t.perUnitCold);
      NonNegative(Units(t, o), PerUnit(t, warm));
      FoldIsAffine(ram, rest, o, warm);
    }
  }

  lemma NonNegative(x: nat, y: nat)
    ensures x * y >= 0
  {
  }

  lemma FootprintIsAffine(env: ResourceEnvelope, o: Overrides, warm: bool)
    requires Unsaturated(env, o, warm)
    ensures FootprintAt(env, o, warm)
         == env.ramBytes - Declared(env.costTerms) + Repriced(env.costTerms, o, warm)
  {
    FoldIsAffine(env.ramBytes, env.costTerms, o, warm);
  }

  // ---- the order of the terms does not matter ----

  lemma {:induction false} SumsOfConcat(ts: seq<CostTerm>, us: seq<CostTerm>, o: Overrides, warm: bool)
    ensures Declared(ts + us) == Declared(ts) + Declared(us)
    ensures Repriced(ts + us, o, warm) == Repriced(ts, o, warm) + Repriced(us, o, warm)
  {
    if us == [] {
      assert ts + us == ts;
    } else {
      assert (ts + us)[..|ts + us| - 1] == ts + us[..|us| - 1];
      SumsOfConcat(ts, us[..|us| - 1], o, warm);
    }
  }

  lemma {:induction false} SumsOfPermutation(ts: seq<CostTerm>, us: seq<CostTerm>, o: Overrides, warm: bool)
    requires multiset(ts) == multiset(us)
    ensures Declared(ts) == Declared(us) && Repriced(ts, o, warm) == Repriced(us, o, warm)
  {
    if ts == [] {
      assert |us| == |multiset(us)| == 0;
    } else {
      hide Declared, Repriced;
      var rest, t := ts[..|ts| - 1], ts[|ts| - 1];
      var left, right := TakeOut(ts, us);
      SumsOfPermutation(rest, left + right, o, warm);
      SumsOfConcat(rest, [t], o, warm);
      SumsOfConcat(left + [t], right, o, warm);
      SumsOfConcat(left, [t], o, warm);
      SumsOfConcat(left, right, o, warm);
    }
  }

  lemma TakeOut(ts: seq<CostTerm>, us: seq<CostTerm>) returns (left: seq<CostTerm>, right: seq<CostTerm>)
    requires ts != [] && multiset(ts) == multiset(us)
    ensures ts == ts[..|ts| - 1] + [ts[|ts| - 1]]
    ensures us == (left + [ts[|ts| - 1]]) + right
    ensures multiset(ts[..|ts| - 1]) == multiset(left + right)
  {
    var rest, t := ts[..|ts| - 1], ts[|ts| - 1];
    assert ts == rest + [t];
    WithoutAt(ts, |ts| - 1);
    assert rest + ts[|ts|..] == rest;
    assert t in multiset(ts);
    var i :| 0 <= i < |us| && us[i] == t;
    left, right := us[..i], us[i + 1..];
    assert us == (left + [t]) + right;
    WithoutAt(us, i);
  }

  lemma WithoutAt(s: seq<CostTerm>, i: nat)
    requires i < |s|
    ensures multiset(s[..i] + s[i + 1..]) == multiset(s) - multiset{s[i]}
  {
    assert s == s[..i] + [s[i]] + s[i + 1..];
  }

  lemma TermOrderIrrelevant(env: ResourceEnvelope, shuffled: ResourceEnvelope, o: Overrides, warm: bool)
    requires Unsaturated(env, o, warm) && shuffled.ramBytes == env.ramBytes
    requires multiset(env.costTerms) == multiset(shuffled.costTerms)
    ensures FootprintAt(shuffled, o, warm) == FootprintAt(env, o, warm)
  {
    SumsOfPermutation(env.costTerms, shuffled.costTerms, o, warm);
    FootprintIsAffine(env, o, warm);
    FootprintIsAffine(shuffled, o, warm);
  }

  // ---- as declared ----

  ghost predicate EachCovered(env: ResourceEnvelope) {
    forall t :: t in env.costTerms ==> SatMul(t.declaredUnits, t.perUnitCold) <= env.ramBytes
  }

  lemma {:induction false} ColdFold(ram: u64, ts: seq<CostTerm>)
    ensures Fold(ram, ts, [], false) >= ram
    ensures Fold(ram, ts, [], false) == ram <==>
              forall t :: t in ts ==> SatMul(t.declaredUnits, t.perUnitCold) <= ram
  {
    if ts != [] {
      var rest, t := ts[..|ts| - 1], ts[|ts| - 1];
      ColdFold(ram, rest);
      assert ts == rest + [t];
    }
  }

  /** Cold and without overrides the estimate is the declared one, exactly when
      the declared base covers each term. */
  lemma DeclaredEstimateIff(env: ResourceEnvelope)
    ensures FootprintAt(env, [], false) == env.ramBytes <==> EachCovered(env)
  {
    ColdFold(env.ramBytes, env.costTerms);
  }

  // ---- the synchronous base ----

  function Zeroed(ts: seq<CostTerm>): Overrides {
    if ts == [] then []
    else (if ts[0].syncBaseExcluded then [(ts[0].dimension, 0)] else []) + Zeroed(ts[1..])
  }

  function EnvelopeSyncBase(env: ResourceEnvelope, warm: bool): u64 {
    FootprintAt(env, Zeroed(env.costTerms), warm)
  }

  ghost predicate Flagged(ts: seq<CostTerm>, name: string) {
    exists t :: t in ts && t.dimension == name && t.syncBaseExcluded
  }

  lemma {:induction false} ZeroedUnits(ts: seq<CostTerm>, name: string, declared: u32)
    ensures UnitsOf(name, declared, Zeroed(ts)) == if Flagged(ts, name) then 0 else declared
  {
    if ts != [] {
      var t, rest := ts[0], ts[1..];
      ZeroedUnits(rest, name, declared);
      assert ts == [t] + rest;
      assert Flagged(ts, name) <==> (t.dimension == name && t.syncBaseExcluded) || Flagged(rest, name);
      if t.syncBaseExcluded {
        assert Zeroed(ts)[1..] == Zeroed(rest);
      } else {
        assert Zeroed(ts) == Zeroed(rest);
      }
    }
  }

  /** The exact sum over the terms whose dimension carries no flag. */
  ghost function SyncSum(ts: seq<CostTerm>, all: seq<CostTerm>, warm: bool): nat
  {
    if ts == [] then 0 else
      var t := ts[|ts| - 1];
      NonNegative(t.declaredUnits, PerUnit(t, warm));
      SyncSum(ts[..|ts| - 1], all, warm) + (if Flagged(all, t.dimension) then 0 else t.declaredUnits * PerUnit(t, warm))
  }

  lemma {:induction false} RepricedAtZero(ts: seq<CostTerm>, all: seq<CostTerm>, warm: bool)
    ensures Repriced(ts, Zeroed(all), warm) == SyncSum(ts, all, warm)
  {
    if ts != [] {
      var t := ts[|ts| - 1];
      RepricedAtZero(ts[..|ts| - 1], all, warm);
      ZeroedUnits(all, t.dimension, t.declaredUnits);
    }
  }

  lemma SyncBaseIsAffine(env: ResourceEnvelope, warm: bool)
    requires Declared(env.costTerms) <= env.ramBytes
    requires env.ramBytes + SyncSum(env.costTerms, env.costTerms, warm) <= U64_MAX
    ensures EnvelopeSyncBase(env, warm)
         == env.ramBytes - Declared(env.costTerms) + SyncSum(env.costTerms, env.costTerms, warm)
  {
    RepricedAtZero(env.costTerms, env.costTerms, warm);
    FootprintIsAffine(env, Zeroed(env.costTerms), warm);
  }

  /** Saturating or not, leaving out the flagged dimensions never costs more. */
  lemma SyncBaseAtMost(env: ResourceEnvelope, warm: bool)
    ensures EnvelopeSyncBase(env, warm) <= FootprintAt(env, [], warm)
  {
    forall t | t in env.costTerms ensures Units(t, Zeroed(env.costTerms)) <= Units(t, []) {
      ZeroedUnits(env.costTerms, t.dimension, t.declaredUnits);
    }
    FoldMonotone(env.ramBytes, env.ramBytes, env.costTerms, Zeroed(env.costTerms), [], warm);
  }

  // ---- warm and cold ----

  /** What warm workers change, at these units: only terms that price warm workers
      separately count, by the difference of the two prices. */
  function WarmChange(ts: seq<CostTerm>, o: Overrides): int {
    if ts == [] then 0
    else
      var t := ts[|ts| - 1];
      WarmChange(ts[..|ts| - 1], o)
        + (match t.perUnitWarm case Some(w) => Units(t, o) * (w - t.perUnitCold) case None => 0)
  }

  lemma Difference(x: int, y: int, z: int)
    ensures x * y - x * z == x * (y - z)
  {
  }

  lemma {:induction false} RepricedWarm(ts: seq<CostTerm>, o: Overrides)
    ensures Repriced(ts, o, true) - Repriced(ts, o, false) == WarmChange(ts, o)
  {
    if ts != [] {
      var t := ts[|ts| - 1];
      RepricedWarm(ts[..|ts| - 1], o);
      if t.perUnitWarm.Some? { Difference(Units(t, o), t.perUnitWarm.value, t.perUnitCold); }
    }
  }

  /** Where neither saturates, warm and cold differ by exactly that. */
  lemma WarmMinusCold(env: ResourceEnvelope, o: Overrides)
    requires Unsaturated(env, o, true) && Unsaturated(env, o, false)
    ensures FootprintAt(env, o, true) - FootprintAt(env, o, false) == WarmChange(env.costTerms, o)
  {
    FootprintIsAffine(env, o, true);
    FootprintIsAffine(env, o, false);
    RepricedWarm(env.costTerms, o);
  }

  lemma DearerTerm(r: u64, s: u64, t: CostTerm, o: Overrides, w: bool, v: bool)
    requires r <= s && PerUnit(t, w) <= PerUnit(t, v)
    ensures Reprice(r, t, o, w) <= Reprice(s, t, o, v)
  {
    hide PerUnit, Units, UnitsOf;
    Product(PerUnit(t, w), PerUnit(t, v), Units(t, o));
  }

  /** Higher prices never make it cheaper, saturating or not. */
  lemma {:induction false} DearerFold(ram: u64, ts: seq<CostTerm>, o: Overrides, w: bool, v: bool)
    requires forall t :: t in ts ==> PerUnit(t, w) <= PerUnit(t, v)
    ensures Fold(ram, ts, o, w) <= Fold(ram, ts, o, v)
  {
    hide PerUnit, Reprice;
    if ts != [] {
      var rest := ts[..|ts| - 1];
      DearerFold(ram, rest, o, w, v);
      DearerTerm(Fold(ram, rest, o, w), Fold(ram, rest, o, v), ts[|ts| - 1], o, w, v);
    }
  }

  /** So without warm prices the two are the same, and with warm prices that are all
      at most, or all at least, the cold ones they keep that order. */
  lemma WarmOrder(env: ResourceEnvelope, o: Overrides)
    ensures (forall t :: t in env.costTerms && t.perUnitWarm.Some? ==> t.perUnitWarm.value <= t.perUnitCold) ==>
              FootprintAt(env, o, true) <= FootprintAt(env, o, false)
    ensures (forall t :: t in env.costTerms && t.perUnitWarm.Some? ==> t.perUnitWarm.value >= t.perUnitCold) ==>
              FootprintAt(env, o, true) >= FootprintAt(env, o, false)
    ensures (forall t :: t in env.costTerms ==> t.perUnitWarm.None?) ==>
              FootprintAt(env, o, true) == FootprintAt(env, o, false)
  {
    hide Fold;
    if forall t :: t in env.costTerms ==> PerUnit(t, true) <= PerUnit(t, false) {
      DearerFold(env.ramBytes, env.costTerms, o, true, false);
    }
    if forall t :: t in env.costTerms ==> PerUnit(t, false) <= PerUnit(t, true) {
      DearerFold(env.ramBytes, env.costTerms, o, false, true);
    }
  }

  // ---- the admission gate ----

  const MEMMAX_HEADROOM: nat := 2 * GIB

  datatype Snapshot = Snapshot(memTotalGb: real, memAvailGb: real, vramTotalMib: Option<nat>, vramFreeMib: Option<nat>)

  datatype Refusal = ExceedsBox | LeavesTooLittle | ExceedsCard | ExceedsFreeVram

  datatype AdmitDecision = Admit(memmaxBytes: nat) | Refuse(reason: Refusal)

  function Gib(bytes: nat): real { bytes as real / GIB as real }

  function Decide(snap: Snapshot, fp: Footprint, floorGib: real): AdmitDecision {
    var need := Gib(fp.ramBytes);
    if need > snap.memTotalGb - floorGib then Refuse(ExceedsBox)
    else if snap.memAvailGb - need < floorGib then Refuse(LeavesTooLittle)
    else if fp.vramMib > 0 && snap.vramTotalMib.Some? && fp.vramMib > snap.vramTotalMib.value then Refuse(ExceedsCard)
    else if fp.vramMib > 0 && snap.vramFreeMib.Some? && fp.vramMib > snap.vramFreeMib.value then Refuse(ExceedsFreeVram)
    else Admit(SatAdd(fp.ramBytes, MEMMAX_HEADROOM))
  }

  lemma GibOrder(a: nat, b: nat)
    ensures Gib(a) <= Gib(b) <==> a <= b
    ensures Gib(a + b) == Gib(a) + Gib(b)
  {
  }

  /** A size that was probed and is too small; what was not probed never refuses. */
  predicate TooSmall(size: Option<nat>, need: nat) { size.Some? && size.value < need }

  /** The gate in bytes: admitted exactly when the job and the floor fit both what
      the box has and what is available, and the VRAM asked for, if any, fits every
      size that was probed; the cap is the footprint plus the headroom. */
  lemma AdmitsIff(snap: Snapshot, fp: Footprint, total: nat, avail: nat, floor: nat)
    requires snap.memTotalGb == Gib(total) && snap.memAvailGb == Gib(avail)
    ensures var d := Decide(snap, fp, Gib(floor));
            && (d.Admit? <==>
                  && fp.ramBytes + floor <= Min(total, avail)
                  && (fp.vramMib == 0 ||
                      !(TooSmall(snap.vramTotalMib, fp.vramMib) || TooSmall(snap.vramFreeMib, fp.vramMib))))
            && (d.Admit? ==> d.memmaxBytes == Min(fp.ramBytes + 2 * GIB, U64_MAX))
  {
    GibOrder(fp.ramBytes, floor);
    GibOrder(fp.ramBytes + floor, total);
    GibOrder(fp.ramBytes + floor, avail);
  }

  /** The gate admits a RAM footprint exactly when it fits the tuner's budget. */
  lemma GateIsBudget(snap: Snapshot, ram: u64, avail: u64, floor: u64)
    requires snap.memAvailGb == Gib(avail) && floor <= avail && snap.memAvailGb <= snap.memTotalGb
    ensures Decide(snap, Footprint(ram, 0), Gib(floor)).Admit? <==> ram <= SatSub(avail, floor)
  {
    GibOrder(floor, ram);
    GibOrder(floor + ram, avail);
  }

  /** Tuner and gate agree: the searched count is admitted exactly when some
      count in range would be. */
  lemma TunerAgreesWithGate(env: ResourceEnvelope, dim: string, warm: bool, snap: Snapshot, avail: u64, floor: u64,
                            ceiling: u32, u: u32)
    requires snap.memAvailGb == Gib(avail) && floor <= avail && snap.memAvailGb <= snap.memTotalGb
    requires Saturates(env, [], dim, warm, SatSub(avail, floor), ceiling, u)
    ensures Decide(snap, Footprint(FootprintAt(env, [(dim, u)], warm), 0), Gib(floor)).Admit?
       <==> exists v: u32 :: 1 <= v <= ceiling &&
              Decide(snap, Footprint(FootprintAt(env, [(dim, v)], warm), 0), Gib(floor)).Admit?
  {
    hide Decide;
    assert [] + [(dim, u)] == [(dim, u)];
    GateIsBudget(snap, FootprintAt(env, [(dim, u)], warm), avail, floor);
    forall v: u32 |
      1 <= v <= ceiling && Decide(snap, Footprint(FootprintAt(env, [(dim, v)], warm), 0), Gib(floor)).Admit?
      ensures Decide(snap, Footprint(FootprintAt(env, [(dim, u)], warm), 0), Gib(floor)).Admit?
    {
      assert [] + [(dim, v)] == [(dim, v)];
      GateIsBudget(snap, FootprintAt(env, [(dim, v)], warm), avail, floor);
      SaturatesMeans(env, [], dim, warm, SatSub(avail, floor), ceiling, u, v);
    }
  }

  // ---- workers, then batch ----

  /** What one more unit of a dimension costs. */
  function Rate(ts: seq<CostTerm>, dim: string, warm: bool): nat {
    if ts == [] then 0
    else Rate(ts[..|ts| - 1], dim, warm) + (if ts[|ts| - 1].dimension == dim then PerUnit(ts[|ts| - 1], warm) else 0)
  }

  function Pair(wk: string, w: u32, bt: string, b: u32): Overrides { [(wk, w)] + [(bt, b)] }

  lemma PairUnits(t: CostTerm, wk: string, w: u32, bt: string, b: u32)
    requires wk != bt
    ensures Units(t, Pair(wk, w, bt, b))
         == (if t.dimension == wk then w else if t.dimension == bt then b else t.declaredUnits)
  {
    assert Pair(wk, w, bt, b)[1..] == [(bt, b)];
    OneUnits(t, bt, b);
  }

  lemma OneUnits(t: CostTerm, dim: string, u: u32)
    ensures Units(t, [(dim, u)]) == if t.dimension == dim then u else t.declaredUnits
  {
    assert [] + [(dim, u)] == [(dim, u)];
    UnitsOfAppend(t.dimension, t.declaredUnits, [], dim, u);
  }

  lemma {:induction false} RepricedOfPair(ts: seq<CostTerm>, wk: string, w: u32, bt: string, b: u32, warm: bool)
    requires wk != bt
    ensures Repriced(ts, Pair(wk, w, bt, b), warm)
         == Repriced(ts, Pair(wk, 0, bt, 0), warm) + w * Rate(ts, wk, warm) + b * Rate(ts, bt, warm)
  {
    hide Units, Pair, PerUnit;
    if ts != [] {
      var rest, t := ts[..|ts| - 1], ts[|ts| - 1];
      RepricedOfPair(rest, wk, w, bt, b, warm);
      PairUnits(t, wk, w, bt, b);
      PairUnits(t, wk, 0, bt, 0);
      if t.dimension == wk {
        Distribute(w, Rate(rest, wk, warm), PerUnit(t, warm));
      } else if t.dimension == bt {
        Distribute(b, Rate(rest, bt, warm), PerUnit(t, warm));
      }
    }
  }

  lemma Distribute(x: nat, y: nat, z: nat)
    ensures x * (y + z) == x * y + x * z
  {
  }

  /** A tuning problem: the two dimensions, how far each may go, and the
      contract that no count in range saturates. Every batch term declares the
      batch the request starts from. */
  datatype Problem = Problem(env: ResourceEnvelope, wk: string, bt: string, warm: bool, maxW: u32, declaredB: u32) {
    function MaxB(): u32 { Max(1, declaredB) }

    ghost predicate Valid() {
      && wk != bt && 1 <= maxW
      && (forall t :: t in env.costTerms && t.dimension == bt ==> t.declaredUnits == declaredB)
      && Unsaturated(env, Pair(wk, maxW, bt, MaxB()), warm)
    }

    function Cost(w: u32, b: u32): nat { FootprintAt(env, Pair(wk, w, bt, b), warm) }

    function RateW(): nat { Rate(env.costTerms, wk, warm) }

    function RateB(): nat { Rate(env.costTerms, bt, warm) }

    /** The workers search holds nothing; the batch search holds the workers. */
    ghost predicate Tuned(budget: nat, w: u32, b: u32) {
      && Saturates(env, [], wk, warm, budget, maxW, w)
      && Saturates(env, [(wk, w)], bt, warm, budget, MaxB(), b)
    }

    /** Nothing in range with at least as many workers and as large a batch,
        other than the pair itself, fits. */
    ghost predicate Pareto(budget: nat, w: u32, b: u32) {
      forall w': u32, b': u32 :: w <= w' <= maxW && b <= b' <= MaxB() && Cost(w', b') <= budget ==> w' == w && b' == b
    }
  }

  lemma CostIsAffine(p: Problem, w: u32, b: u32)
    requires p.Valid() && w <= p.maxW && b <= p.MaxB()
    ensures p.Cost(w, b) == p.Cost(0, 0) + w * p.RateW() + b * p.RateB()
  {
    hide Repriced, Declared, Rate, FootprintAt;
    var ts := p.env.costTerms;
    RepricedOfPair(ts, p.wk, w, p.bt, b, p.warm);
    RepricedOfPair(ts, p.wk, p.maxW, p.bt, p.MaxB(), p.warm);
    Product(w, p.maxW, p.RateW());
    Product(b, p.MaxB(), p.RateB());
    NonNegative(w, p.RateW());
    NonNegative(b, p.RateB());
    FootprintIsAffine(p.env, Pair(p.wk, w, p.bt, b), p.warm);
    FootprintIsAffine(p.env, Pair(p.wk, 0, p.bt, 0), p.warm);
  }

  /** The workers search, which overrides only the workers, prices the batch as
      declared. */
  lemma {:induction false} WorkersOnly(ram: u64, ts: seq<CostTerm>, wk: string, w: u32, bt: string, b: u32, warm: bool)
    requires wk != bt && forall t :: t in ts && t.dimension == bt ==> t.declaredUnits == b
    ensures Fold(ram, ts, [(wk, w)], warm) == Fold(ram, ts, Pair(wk, w, bt, b), warm)
  {
    hide Reprice, Pair, Units;
    if ts != [] {
      var t := ts[|ts| - 1];
      WorkersOnly(ram, ts[..|ts| - 1], wk, w, bt, b, warm);
      PairUnits(t, wk, w, bt, b);
      OneUnits(t, wk, w);
      SameUnits(Fold(ram, ts[..|ts| - 1], [(wk, w)], warm), t, [(wk, w)], Pair(wk, w, bt, b), warm);
    }
  }

  lemma SameUnits(ram: nat, t: CostTerm, o: Overrides, p: Overrides, warm: bool)
    requires Units(t, o) == Units(t, p)
    ensures Reprice(ram, t, o, warm) == Reprice(ram, t, p, warm)
  {
  }

  lemma WorkersFit(p: Problem, budget: nat, w: u32)
    requires p.Valid()
    ensures Fits(p.env, [], p.wk, w, p.warm, budget) <==> p.Cost(w, p.declaredB) <= budget
  {
    assert [] + [(p.wk, w)] == [(p.wk, w)];
    WorkersOnly(p.env.ramBytes, p.env.costTerms, p.wk, w, p.bt, p.declaredB, p.warm);
  }

  lemma CostMonotone(p: Problem, w: u32, b: u32, w': u32, b': u32)
    requires p.Valid() && w <= w' <= p.maxW && b <= b' <= p.MaxB()
    ensures p.Cost(w, b) <= p.Cost(w', b')
  {
    hide Problem.Cost, Problem.RateW, Problem.RateB, Problem.Valid;
    CostIsAffine(p, w, b);
    CostIsAffine(p, w', b');
    Product(w, w', p.RateW());
    Product(b, b', p.RateB());
  }

  lemma OneMore(p: Problem, w: u32, b: u32)
    requires p.Valid()
    ensures w < p.maxW && b <= p.MaxB() ==> p.Cost(w + 1, b) == p.Cost(w, b) + p.RateW()
    ensures w <= p.maxW && b < p.MaxB() ==> p.Cost(w, b + 1) == p.Cost(w, b) + p.RateB()
  {
    hide Problem.Cost, Problem.RateW, Problem.RateB, Problem.Valid;
    if w < p.maxW && b <= p.MaxB() {
      CostIsAffine(p, w, b);
      CostIsAffine(p, w + 1, b);
    }
    if w <= p.maxW && b < p.MaxB() {
      CostIsAffine(p, w, b);
      CostIsAffine(p, w, b + 1);
    }
  }

  /** When adding a worker instead of a batch unit can never be cheaper, a tuned
      pair that fits cannot be improved. */
  lemma TunedIsPareto(p: Problem, budget: nat, w: u32, b: u32)
    requires p.Valid() && p.Tuned(budget, w, b) && p.Cost(w, b) <= budget
    requires p.RateW() >= p.RateB() || p.maxW == 1 || p.MaxB() == 1
    ensures p.Pareto(budget, w, b)
  {
    hide Problem.Cost, Problem.RateW, Problem.RateB, Problem.Valid;
    forall w': u32, b': u32 | w <= w' <= p.maxW && b <= b' <= p.MaxB() && p.Cost(w', b') <= budget
      ensures w' == w && b' == b
    {
      if b < b' {
        CostMonotone(p, w, b', w', b');
        BatchFit(p, budget, w, b');
      } else if w < w' {
        CostMonotone(p, w + 1, b, w', b);
        NextWorkerDoesNotFit(p, budget, w, b);
      }
    }
  }

  lemma BatchFit(p: Problem, budget: nat, w: u32, b: u32)
    ensures Fits(p.env, [(p.wk, w)], p.bt, b, p.warm, budget) <==> p.Cost(w, b) <= budget
  {
  }

  lemma NextWorkerDoesNotFit(p: Problem, budget: nat, w: u32, b: u32)
    requires p.Valid() && p.Tuned(budget, w, b) && w < p.maxW && p.Cost(w, b) <= budget
    requires p.RateW() >= p.RateB() || p.MaxB() == 1
    ensures p.Cost(w + 1, b) > budget
  {
    hide Problem.Cost, Problem.RateW, Problem.RateB, Problem.Valid;
    assert !Fits(p.env, [], p.wk, w + 1, p.warm, budget);
    WorkersFit(p, budget, w + 1);
    if p.declaredB <= b {
      CostMonotone(p, w + 1, p.declaredB, w + 1, b);
    } else {
      assert !Fits(p.env, [(p.wk, w)], p.bt, b + 1, p.warm, budget);
      BatchFit(p, budget, w, b + 1);
      OneMore(p, w, b);
    }
  }

  /** Tuning leaves nothing on the table for every budget at which the tuned
      pair fits, exactly when a worker costs at least a batch unit or one of the
      two dimensions has nowhere to go. */
  lemma ParetoIff(p: Problem)
    requires p.Valid()
    ensures (forall budget: nat, w: u32, b: u32 ::
               p.Tuned(budget, w, b) && p.Cost(w, b) <= budget ==> p.Pareto(budget, w, b))
       <==> p.RateW() >= p.RateB() || p.maxW == 1 || p.MaxB() == 1
  {
    hide Problem.Cost, Problem.RateW, Problem.RateB, Problem.Pareto, Problem.Tuned;
    if p.RateW() >= p.RateB() || p.maxW == 1 || p.MaxB() == 1 {
      forall budget: nat, w: u32, b: u32 | p.Tuned(budget, w, b) && p.Cost(w, b) <= budget
        ensures p.Pareto(budget, w, b)
      {
        TunedIsPareto(p, budget, w, b);
      }
    } else {
      CheapWorkerExample(p);
    }
  }

  /** With a worker cheaper than a batch unit there is a budget at which tuning
      settles on one of each although a second worker would still fit. */
  lemma CheapWorkerExample(p: Problem)
    requires p.Valid() && p.RateW() < p.RateB() && 2 <= p.maxW && 2 <= p.MaxB()
    ensures var budget := p.Cost(1, 1) + p.RateW();
            p.Tuned(budget, 1, 1) && p.Cost(1, 1) <= budget && !p.Pareto(budget, 1, 1)
  {
    hide Problem.Cost, Problem.RateW, Problem.RateB, Problem.Valid;
    var budget := p.Cost(1, 1) + p.RateW();
    OneMore(p, 1, 1);
    assert p.Cost(1, 2) > budget && p.Cost(2, 1) == budget;
    forall v: u32 | 1 < v <= p.maxW ensures !Fits(p.env, [], p.wk, v, p.warm, budget) {
      WorkersFit(p, budget, v);
      CostMonotone(p, 1, 2, v, p.declaredB);
    }
    forall v: u32 | 1 < v <= p.MaxB() ensures !Fits(p.env, [(p.wk, 1)], p.bt, v, p.warm, budget) {
      BatchFit(p, budget, 1, v);
      CostMonotone(p, 1, 2, 1, v);
    }
  }
}
