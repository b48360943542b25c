/** Declared resource envelopes: the saturating affine cost model and the two
    decrement searches over it (src/broker/footprint.rs). */
module Envelope {
  import opened Options

  const U32_MAX: nat := 0xFFFF_FFFF
  const U64_MAX: nat := 0xFFFF_FFFF_FFFF_FFFF

  type u32 = n: nat | n <= U32_MAX
  type u64 = n: nat | n <= U64_MAX

  const GIB: nat := 1024 * 1024 * 1024

  /** What a job asks for: RAM in bytes, VRAM in MiB (0 for none). */
  datatype Footprint = Footprint(ramBytes: u64, vramMib: u64)

  datatype CostTerm = CostTerm(
    dimension: string, declaredUnits: u32, perUnitCold: u64, perUnitWarm: Option<u64>,
    maxUnits: u32, syncBaseExcluded: bool)

  datatype ResourceEnvelope = ResourceEnvelope(ramBytes: u64, costTerms: seq<CostTerm>)

  type Overrides = seq<(string, u32)>

  function PerUnit(t: CostTerm, warm: bool): u64 {
    if warm && t.perUnitWarm.Some? then t.perUnitWarm.value else t.perUnitCold
  }

  // ---- saturating 64-bit arithmetic ----

  function SatAdd(a: nat, b: nat): u64 { if a + b <= U64_MAX then a + b else U64_MAX }
  function SatSub(a: nat, b: nat): nat { if b <= a then a - b else 0 }
  function SatMul(a: nat, b: nat): u64 { if a * b <= U64_MAX then a * b else U64_MAX }

  // ---- the cost fold ----

  /** The first override that names the dimension, else the declared units. */
  function UnitsOf(name: string, declared: u32, o: Overrides): u32 {
    if o == [] then declared
    else if o[0].0 == name then o[0].1
    else UnitsOf(name, declared, o[1..])
  }

  function Units(t: CostTerm, o: Overrides): u32 { UnitsOf(t.dimension, t.declaredUnits, o) }

  function Reprice(ram: nat, t: CostTerm, o: Overrides, warm: bool): u64 {
    SatAdd(SatSub(ram, SatMul(t.declaredUnits, t.perUnitCold)), SatMul(Units(t, o), PerUnit(t, warm)))
  }

  function Fold(ram: u64, ts: seq<CostTerm>, o: Overrides, warm: bool): u64 {
    if ts == [] then ram
    else Reprice(Fold(ram, ts[..|ts| - 1], o, warm), ts[|ts| - 1], o, warm)
  }

  function FootprintAt(env: ResourceEnvelope, o: Overrides, warm: bool): u64 {
    Fold(env.ramBytes, env.costTerms, o, warm)
  }

  /** The loop: one saturating subtract and add per term, in place. */
  method EnvelopeFootprintAt(env: ResourceEnvelope, o: Overrides, warm: bool) returns (ram: u64)
    ensures ram == FootprintAt(env, o, warm)
  {
    ram := env.ramBytes;
    for i := 0 to |env.costTerms|
      invariant ram == Fold(env.ramBytes, env.costTerms[..i], o, warm)
    {
      var t := env.costTerms[i];
      assert env.costTerms[..i + 1][..i] == env.costTerms[..i];
      var units := Units(t, o);
      var declared := SatMul(t.declaredUnits, t.perUnitCold);
      var repriced := SatMul(units, PerUnit(t, warm));
      ram := SatAdd(SatSub(ram, declared), repriced);
    }
    assert env.costTerms[..|env.costTerms|] == env.costTerms;
  }

  // ---- monotone through every saturation ----

  lemma Product(x: nat, y: nat, z: nat)
    requires x <= y
    ensures x * z <= y * z
  {
  }

  lemma RepriceMonotone(r: nat, s: nat, t: CostTerm, o: Overrides, p: Overrides, warm: bool)
    requires r <= s && Units(t, o) <= Units(t, p)
    ensures Reprice(r, t, o, warm) <= Reprice(s, t, p, warm)
  {
    Product(Units(t, o), Units(t, p), PerUnit(t, warm));
  }

  /** More units never cost less, whatever the terms and however they saturate. */
  lemma {:induction false} FoldMonotone(r: u64, s: u64, ts: seq<CostTerm>, o: Overrides, p: Overrides, warm: bool)
    requires r <= s && forall t :: t in ts ==> Units(t, o) <= Units(t, p)
    ensures Fold(r, ts, o, warm) <= Fold(s, ts, p, warm)
  {
    if ts != [] {
      FoldMonotone(r, s, ts[..|ts| - 1], o, p, warm);
      RepriceMonotone(Fold(r, ts[..|ts| - 1], o, warm), Fold(s, ts[..|ts| - 1], p, warm), ts[|ts| - 1], o, p, warm);
    }
  }

  lemma {:induction false} UnitsOfAppend(name: string, declared: u32, o: Overrides, dim: string, u: u32)
    ensures UnitsOf(name, declared, o + [(dim, u)])
         == (if (exists i :: 0 <= i < |o| && o[i].0 == name) || name != dim then UnitsOf(name, declared, o) else u)
  {
    if o == [] {
      assert (o + [(dim, u)])[1..] == [];
    } else {
      assert (o + [(dim, u)])[1..] == o[1..] + [(dim, u)];
      if o[0].0 != name {
        UnitsOfAppend(name, declared, o[1..], dim, u);
        if exists i :: 0 <= i < |o[1..]| && o[1..][i].0 == name {
          var i :| 0 <= i < |o[1..]| && o[1..][i].0 == name;
          assert o[i + 1].0 == name;
        }
        if exists i :: 0 <= i < |o| && o[i].0 == name {
          var i :| 0 <= i < |o| && o[i].0 == name;
          assert o[1..][i - 1].0 == name;
        }
      }
    }
  }

  lemma FootprintMonotone(env: ResourceEnvelope, held: Overrides, dim: string, u: u32, v: u32, warm: bool)
    requires u <= v
    ensures FootprintAt(env, held + [(dim, u)], warm) <= FootprintAt(env, held + [(dim, v)], warm)
  {
    forall t | t in env.costTerms ensures Units(t, held + [(dim, u)]) <= Units(t, held + [(dim, v)]) {
      UnitsOfAppend(t.dimension, t.declaredUnits, held, dim, u);
      UnitsOfAppend(t.dimension, t.declaredUnits, held, dim, v);
    }
    FoldMonotone(env.ramBytes, env.ramBytes, env.costTerms, held + [(dim, u)], held + [(dim, v)], warm);
  }

  // ---- the searches ----

  predicate Fits(env: ResourceEnvelope, held: Overrides, dim: string, u: u32, warm: bool, budget: nat) {
    FootprintAt(env, held + [(dim, u)], warm) <= budget
  }

  /** u is the largest count up to ceiling that fits, or 1 when none does. */
  ghost predicate Saturates(env: ResourceEnvelope, held: Overrides, dim: string, warm: bool, budget: nat,
                            ceiling: u32, u: u32) {
    && 1 <= u <= ceiling
    && (forall v: u32 :: u < v <= ceiling ==> !Fits(env, held, dim, v, warm, budget))
    && (u > 1 ==> Fits(env, held, dim, u, warm, budget))
  }

  /** Exactly the counts up to the chosen one fit; when none fits at all, the
      choice is the floor of one unit. */
  lemma SaturatesMeans(env: ResourceEnvelope, held: Overrides, dim: string, warm: bool, budget: nat,
                       ceiling: u32, u: u32, v: u32)
    requires Saturates(env, held, dim, warm, budget, ceiling, u) && 1 <= v <= ceiling
    ensures Fits(env, held, dim, v, warm, budget) <==> v <= u && Fits(env, held, dim, u, warm, budget)
    ensures Fits(env, held, dim, v, warm, budget) ==> Fits(env, held, dim, u, warm, budget)
  {
    if v <= u { FootprintMonotone(env, held, dim, v, u, warm); }
  }

  lemma SaturatesUnique(env: ResourceEnvelope, held: Overrides, dim: string, warm: bool, budget: nat,
                        ceiling: u32, u: u32, v: u32)
    requires Saturates(env, held, dim, warm, budget, ceiling, u)
    requires Saturates(env, held, dim, warm, budget, ceiling, v)
    ensures u == v
  {
  }

  method FindTerm(env: ResourceEnvelope, dim: string) returns (r: Option<CostTerm>)
    ensures r.None? <==> forall t :: t in env.costTerms ==> t.dimension != dim
    ensures r.Some? ==> r == FirstTerm(env.costTerms, dim)
  {
    for i := 0 to |env.costTerms|
      invariant forall j :: 0 <= j < i ==> env.costTerms[j].dimension != dim
    {
      if env.costTerms[i].dimension == dim {
        FirstTermAt(env.costTerms, dim, i);
        return Some(env.costTerms[i]);
      }
    }
    return None;
  }

  function FirstTerm(ts: seq<CostTerm>, dim: string): Option<CostTerm> {
    if ts == [] then None
    else if ts[0].dimension == dim then Some(ts[0])
    else FirstTerm(ts[1..], dim)
  }

  lemma {:induction false} FirstTermAt(ts: seq<CostTerm>, dim: string, i: nat)
    requires i < |ts| && ts[i].dimension == dim && forall j :: 0 <= j < i ==> ts[j].dimension != dim
    ensures FirstTerm(ts, dim) == Some(ts[i])
  {
    if i > 0 { FirstTermAt(ts[1..], dim, i - 1); }
  }

  function Max(a: nat, b: nat): nat { if a < b then b else a }
  function Min(a: nat, b: nat): nat { if a < b then a else b }

  /** Fit and saturate: decrement from the ceiling until the footprint fits. */
  method FitAndSaturateEnv(env: ResourceEnvelope, dim: string, target: u32, avail: u64, floor: u64, warm: bool)
    returns (r: Option<u32>)
    ensures r.None? <==> forall t :: t in env.costTerms ==> t.dimension != dim
    ensures r.Some? ==> FirstTerm(env.costTerms, dim).Some?
    ensures r.Some? ==>
              var t := FirstTerm(env.costTerms, dim).value;
              if avail == 0 then r.value == Max(1, t.declaredUnits)
              else Saturates(env, [], dim, warm, SatSub(avail, floor), Max(1, Min(target, t.maxUnits)), r.value)
  {
    var found := FindTerm(env, dim);
    if found.None? {
      return None;
    }
    var t := found.value;
    if avail == 0 {
      return Some(Max(1, t.declaredUnits));
    }
    var budget := SatSub(avail, floor);
    var u: u32 := Max(1, Min(target, t.maxUnits));
    ghost var ceiling := u;
    hide FootprintAt;
    var fp := EnvelopeFootprintAt(env, [(dim, u)], warm);
    assert [] + [(dim, u)] == [(dim, u)];
    while u > 1 && fp > budget
      invariant 1 <= u <= ceiling && fp == FootprintAt(env, [] + [(dim, u)], warm)
      invariant forall v: u32 :: u < v <= ceiling ==> !Fits(env, [], dim, v, warm, budget)
    {
      u := u - 1;
      fp := EnvelopeFootprintAt(env, [(dim, u)], warm);
      assert [] + [(dim, u)] == [(dim, u)];
    }
    return Some(u);
  }

  /** Shrink to fit: the same search from the request down, other dimensions held. */
  method ShrinkToFitEnv(env: ResourceEnvelope, dim: string, requested: u32, resolved: Overrides,
                        avail: u64, floor: u64, warm: bool)
    returns (r: Option<u32>)
    ensures r.None? <==> forall t :: t in env.costTerms ==> t.dimension != dim
    ensures r.Some? ==>
              if avail == 0 then r.value == Max(1, requested)
              else Saturates(env, resolved, dim, warm, SatSub(avail, floor), Max(1, requested), r.value)
  {
    var found := FindTerm(env, dim);
    if found.None? {
      return None;
    }
    if avail == 0 {
      return Some(Max(1, requested));
    }
    var budget := SatSub(avail, floor);
    var b: u32 := Max(1, requested);
    ghost var ceiling := b;
    hide FootprintAt;
    var fp := EnvelopeFootprintAt(env, resolved + [(dim, b)], warm);
    while b > 1 && fp > budget
      invariant 1 <= b <= ceiling && fp == FootprintAt(env, resolved + [(dim, b)], warm)
      invariant forall v: u32 :: b < v <= ceiling ==> !Fits(env, resolved, dim, v, warm, budget)
    {
      b := b - 1;
      fp := EnvelopeFootprintAt(env, resolved + [(dim, b)], warm);
    }
    return Some(b);
  }

  /** A dimension that is already held is not searched: every count costs the
      same, so the request stands or falls to 1. */
  lemma ShrinkOfHeldDimension(env: ResourceEnvelope, held: Overrides, dim: string, warm: bool, budget: nat,
                              ceiling: u32, u: u32, i: nat)
    requires i < |held| && held[i].0 == dim
    requires Saturates(env, held, dim, warm, budget, ceiling, u)
    ensures u == ceiling || u == 1
  {
    hide FootprintAt;
    if 1 < u < ceiling {
      assert !Fits(env, held, dim, u + 1, warm, budget);
      HeldIsFlat(env, held, dim, u, u + 1, warm, i);
    }
  }

  lemma HeldIsFlat(env: ResourceEnvelope, held: Overrides, dim: string, u: u32, v: u32, warm: bool, i: nat)
    requires i < |held| && held[i].0 == dim
    ensures FootprintAt(env, held + [(dim, u)], warm) == FootprintAt(env, held + [(dim, v)], warm)
  {
    forall t | t in env.costTerms ensures Units(t, held + [(dim, u)]) == Units(t, held + [(dim, v)]) {
      UnitsOfAppend(t.dimension, t.declaredUnits, held, dim, u);
      UnitsOfAppend(t.dimension, t.declaredUnits, held, dim, v);
    }
    FoldMonotone(env.ramBytes, env.ramBytes, env.costTerms, held + [(dim, u)], held + [(dim, v)], warm);
    FoldMonotone(env.ramBytes, env.ramBytes, env.costTerms, held + [(dim, v)], held + [(dim, u)], warm);
  }
}
