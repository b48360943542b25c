/** The calibration store: merging measured and OOM-corrected footprints, and
    the cap resolved from them (src/broker/footprint.rs). */
module FootprintStore {
  import opened Envelope
  import opened Options

  const OOM_GROWTH_NUM: nat := 5
  const OOM_GROWTH_DEN: nat := 4
  const OOM_GROWTH_STEP: nat := 8 * GIB
  const OOM_CEILING: nat := 64 * GIB

  datatype Source = Default | Measured | OomCorrected

  datatype Entry = Entry(ramBytes: u64, vramMib: u64, nSamples: u32, source: Source, updatedUnix: u64)

  datatype Sample = Sample(ramBytes: u64, vramMib: u64, source: Source, now: u64)

  function Rank(s: Source): nat {
    match s
    case Default => 0
    case Measured => 1
    case OomCorrected => 2
  }

  /** Merge one sample into what the store holds for its key. */
  function Merged(prev: Option<Entry>, s: Sample): Entry {
    match prev
    case None => Entry(s.ramBytes, s.vramMib, 1, s.source, s.now)
    case Some(p) =>
      var heals := s.source == Measured && p.source == OomCorrected && s.ramBytes > 0;
      Entry(
        if heals then s.ramBytes else Max(s.ramBytes, p.ramBytes),
        Max(s.vramMib, p.vramMib),
        if p.nSamples < U32_MAX then p.nSamples + 1 else U32_MAX,
        if heals then Measured else if Rank(s.source) >= Rank(p.source) then s.source else p.source,
        s.now)
  }

  class Store {
    var entries: map<string, Entry>

    constructor ()
      ensures entries == map[]
    {
      entries := map[];
    }

    /** Record a sample. The in-memory map changes whether or not the save that
        follows succeeds; the caller learns of a failed save. */
    method Record(key: string, s: Sample, saveOk: bool) returns (ok: bool)
      modifies this
      ensures key in entries
      ensures entries == old(entries)[key := Merged(Lookup(old(entries), key), s)]
      ensures ok == saveOk
    {
      var merged := Merged(Lookup(entries, key), s);
      entries := entries[key := merged];
      ok := saveOk;
    }

    /** Forget one key. Only a removal is saved; memory changes either way. */
    method Forget(key: string, saveOk: bool) returns (ok: bool, removed: bool)
      modifies this
      ensures entries == old(entries) - {key}
      ensures removed == (key in old(entries)) && ok == (!removed || saveOk)
    {
      removed := key in entries;
      entries := entries - {key};
      ok := !removed || saveOk;
    }

    /** The footprint a launch should use. A caller gets the hint where nothing was
        learned or learning is switched off; VRAM is never learned; a measurement is
        taken as it is; and after an OOM the cap lies above what was hit, by a
        quarter and by 8 GiB, but within 64 GiB. */
    method ResolveFlat(key: string, hint: Footprint, standard: bool) returns (r: Footprint)
      ensures r.vramMib == hint.vramMib
      ensures standard || key !in entries || entries[key].source == Default ==> r == hint
      ensures !standard && key in entries && entries[key].source == Measured ==> r.ramBytes == entries[key].ramBytes
      ensures !standard && key in entries && entries[key].source == OomCorrected ==>
                var bound := entries[key].ramBytes;
                && Min(hint.ramBytes, OOM_CEILING) <= r.ramBytes <= OOM_CEILING
                && (r.ramBytes > bound <==> bound < OOM_CEILING)
                && Min(bound + OOM_GROWTH_STEP, OOM_CEILING) <= r.ramBytes
                && Min(bound + bound / 4, OOM_CEILING) <= r.ramBytes
      ensures !standard ==> r == Resolved(Lookup(entries, key), hint)
    {
      if standard {
        return hint;
      }
      if key !in entries {
        return hint;
      }
      var e := entries[key];
      match e.source
      case OomCorrected =>
        ResolvedAboveBoundIff(e, hint);
        GrownByAQuarter(e.ramBytes);
        var scaled := SatMul(e.ramBytes, OOM_GROWTH_NUM) / OOM_GROWTH_DEN;
        var grown := Max(scaled, SatAdd(e.ramBytes, OOM_GROWTH_STEP));
        return Footprint(Min(Max(grown, hint.ramBytes), OOM_CEILING), hint.vramMib);
      case Measured => return Footprint(e.ramBytes, hint.vramMib);
      case Default => return hint;
    }
  }

  /** Up to the ceiling, growth is by at least a quarter. */
  lemma GrownByAQuarter(bound: u64)
    ensures Min(bound + bound / 4, OOM_CEILING) <= Grown(bound)
  {
  }

  function Lookup(m: map<string, Entry>, key: string): Option<Entry> {
    if key in m then Some(m[key]) else None
  }

  function Grown(bound: u64): u64 {
    var scaled := SatMul(bound, OOM_GROWTH_NUM) / OOM_GROWTH_DEN;
    Max(scaled, SatAdd(bound, OOM_GROWTH_STEP))
  }

  function Resolved(e: Option<Entry>, hint: Footprint): Footprint {
    if e.Some? && e.value.source == OomCorrected then
      Footprint(Min(Max(Grown(e.value.ramBytes), hint.ramBytes), OOM_CEILING), hint.vramMib)
    else if e.Some? && e.value.source == Measured then
      Footprint(e.value.ramBytes, hint.vramMib)
    else
      hint
  }

  /** After a kill the cap is the least one that meets all it has to: the hint, 8 GiB
      more and a quarter more than what was hit, each as far as 64 GiB. */
  lemma CapIsLeast(e: Entry, hint: Footprint, r: nat)
    requires e.source == OomCorrected
    ensures var cap := Resolved(Some(e), hint).ramBytes;
            cap <= r <==>
              && Min(hint.ramBytes, 64 * GIB) <= r
              && Min(e.ramBytes + 8 * GIB, 64 * GIB) <= r
              && Min(5 * e.ramBytes / 4, 64 * GIB) <= r
  {
  }

  /** A record lowers the stored RAM if and only if it is a clean, smaller measurement
      on top of an OOM bound; then that bound is overwritten by it. */
  lemma RecordLowersIff(p: Entry, s: Sample)
    ensures Merged(Some(p), s).ramBytes < p.ramBytes <==>
              p.source == OomCorrected && s.source == Measured && 0 < s.ramBytes < p.ramBytes
    ensures Merged(Some(p), s).ramBytes < p.ramBytes ==>
              Merged(Some(p), s).ramBytes == s.ramBytes && Merged(Some(p), s).source == Measured
  {
  }

  /** However high the bounds that kills left, one lucky run resets the cap to any
      smaller size, and the next resolve goes by it. */
  lemma LuckyRunUndoes(p: Entry, lucky: u64, now: u64, hint: Footprint)
    requires p.source == OomCorrected && 0 < lucky < p.ramBytes
    ensures Resolved(Some(Merged(Some(p), Sample(lucky, 0, Measured, now))), hint).ramBytes == lucky
  {
  }

  // ---- what a history of records leaves behind ----

  /** The entry after a history of samples for one key. */
  function After(h: seq<Sample>): Option<Entry> {
    if h == [] then None else Some(Merged(After(h[..|h| - 1]), h[|h| - 1]))
  }

  /** A clean, non-empty measurement. */
  predicate Clean(s: Sample) { s.source == Measured && s.ramBytes > 0 }

  /** An OOM bound recorded at i is still standing before position j. */
  ghost predicate OomStands(h: seq<Sample>, i: int, j: int)
    requires 0 <= i < j <= |h|
  {
    h[i].source == OomCorrected && forall k :: i < k < j ==> !Clean(h[k])
  }

  /** Position r holds the clean measurement that replaced a standing OOM bound. */
  ghost predicate Heals(h: seq<Sample>, r: int)
    requires 0 <= r < |h|
  {
    Clean(h[r]) && exists i :: 0 <= i < r && OomStands(h, i, r)
  }

  /** Start of the stretch that still counts: the last healing measurement, or
      the beginning. */
  ghost predicate StartsAt(h: seq<Sample>, r: int) {
    && 0 <= r < |h|
    && (r == 0 || Heals(h, r))
    && (forall k :: r < k < |h| ==> !Heals(h, k))
  }

  ghost predicate IsMaxRam(h: seq<Sample>, from: int, x: nat)
    requires 0 <= from
  {
    && (exists i :: from <= i < |h| && h[i].ramBytes == x)
    && (forall i :: from <= i < |h| ==> h[i].ramBytes <= x)
  }

  ghost predicate IsMaxVram(h: seq<Sample>, x: nat) {
    && (exists i :: 0 <= i < |h| && h[i].vramMib == x)
    && (forall i :: 0 <= i < |h| ==> h[i].vramMib <= x)
  }

  lemma StandsPrefix(h: seq<Sample>, s: Sample, i: int, j: int)
    requires 0 <= i < j <= |h|
    ensures OomStands(h + [s], i, j) <==> OomStands(h, i, j)
  {
    assert forall k :: 0 <= k < |h| ==> (h + [s])[k] == h[k];
    if !OomStands(h, i, j) && h[i].source == OomCorrected {
      var k :| i < k < j && Clean(h[k]);
      assert Clean((h + [s])[k]);
    }
  }

  lemma HealsPrefix(h: seq<Sample>, s: Sample, r: int)
    requires 0 <= r < |h|
    ensures Heals(h + [s], r) <==> Heals(h, r)
  {
    hide OomStands;
    forall i | 0 <= i < r ensures OomStands(h + [s], i, r) <==> OomStands(h, i, r) { StandsPrefix(h, s, i, r); }
  }

  ghost predicate AnyStands(h: seq<Sample>) { exists i :: 0 <= i < |h| && OomStands(h, i, |h|) }

  /** A bound stands after one more sample if the sample is one, or is no clean
      measurement and leaves an older one standing. */
  lemma StandsSnoc(g: seq<Sample>, s: Sample)
    ensures AnyStands(g + [s]) <==> s.source == OomCorrected || (!Clean(s) && AnyStands(g))
  {
    var h := g + [s];
    assert h[|g|] == s && forall k :: 0 <= k < |g| ==> h[k] == g[k];
    if s.source == OomCorrected {
      assert OomStands(h, |g|, |h|);
    } else if AnyStands(h) {
      var i :| 0 <= i < |h| && OomStands(h, i, |h|);
      assert !Clean(h[|g|]) && forall k :: i < k < |g| ==> !Clean(h[k]);
      assert OomStands(g, i, |g|);
    } else if AnyStands(g) && !Clean(s) {
      var i :| 0 <= i < |g| && OomStands(g, i, |g|);
      assert OomStands(h, i, |h|);
    }
  }

  lemma MergedSource(prev: Option<Entry>, s: Sample)
    ensures Merged(prev, s).source == Default <==> s.source == Default && (prev.Some? ==> prev.value.source == Default)
    ensures Merged(prev, s).source == OomCorrected <==>
              s.source == OomCorrected || (!Clean(s) && prev.Some? && prev.value.source == OomCorrected)
  {
  }

  /** The stored source says whether an OOM bound is still standing, and whether
      anything but a default was ever recorded. */
  lemma {:induction false} SourceAfter(h: seq<Sample>)
    requires h != []
    ensures After(h).value.source == OomCorrected <==> AnyStands(h)
    ensures After(h).value.source == Default <==> forall i :: 0 <= i < |h| ==> h[i].source == Default
  {
    hide AnyStands, Merged, Clean;
    var g, s := h[..|h| - 1], h[|h| - 1];
    assert h == g + [s];
    StandsSnoc(g, s);
    if g == [] { NoneStands(); } else { SourceAfter(g); }
    MergedSource(After(g), s);
  }

  lemma NoneStands()
    ensures !AnyStands([])
  {
  }

  /** Stored RAM is the maximum since the last clean measurement that replaced an
      OOM bound; VRAM is the maximum ever; samples are counted. */
  lemma {:induction false} HistoryMeaning(h: seq<Sample>) returns (r: int)
    requires h != []
    ensures StartsAt(h, r)
    ensures IsMaxRam(h, r, After(h).value.ramBytes)
    ensures IsMaxVram(h, After(h).value.vramMib)
    ensures After(h).value.nSamples == Min(|h|, U32_MAX)
    ensures After(h).value.updatedUnix == h[|h| - 1].now
  {
    var g, s := h[..|h| - 1], h[|h| - 1];
    assert h == g + [s];
    if g == [] {
      r := 0;
      assert After(g) == None;
      assert h[0].ramBytes == s.ramBytes && h[0].vramMib == s.vramMib;
    } else {
      r := HistoryMeaning(g);
      SourceAfter(g);
      StepMeaning(g, s, r);
      if Clean(s) && After(g).value.source == OomCorrected {
        r := |g|;
      }
    }
  }

  lemma StepMeaning(g: seq<Sample>, s: Sample, r: int)
    requires g != [] && StartsAt(g, r)
    requires IsMaxRam(g, r, After(g).value.ramBytes) && IsMaxVram(g, After(g).value.vramMib)
    requires After(g).value.source == OomCorrected <==> AnyStands(g)
    ensures var h := g + [s];
            var heals := Clean(s) && After(g).value.source == OomCorrected;
            && StartsAt(h, if heals then |g| else r)
            && IsMaxRam(h, if heals then |g| else r, Merged(After(g), s).ramBytes)
            && IsMaxVram(h, Merged(After(g), s).vramMib)
  {
    assert After(g).Some?;
    hide Merged, After, Heals, OomStands, IsMaxRam, IsMaxVram;
    var p := After(g).value;
    MergedFields(After(g), s);
    LastHeals(g, s);
    StartWithOneMore(g, s, r);
    MaxWithOneMore(g, s, r, p.ramBytes, p.vramMib);
  }

  lemma StartWithOneMore(g: seq<Sample>, s: Sample, r: int)
    requires StartsAt(g, r)
    ensures StartsAt(g + [s], if Heals(g + [s], |g|) then |g| else r)
  {
    hide Heals;
    var h := g + [s];
    forall k | 0 <= k < |g| ensures Heals(h, k) <==> Heals(g, k) { HealsPrefix(g, s, k); }
  }

  lemma MaxWithOneMore(g: seq<Sample>, s: Sample, r: int, ram: u64, vram: u64)
    requires 0 <= r < |g| && IsMaxRam(g, r, ram) && IsMaxVram(g, vram)
    ensures IsMaxRam(g + [s], r, Max(s.ramBytes, ram)) && IsMaxRam(g + [s], |g|, s.ramBytes)
    ensures IsMaxVram(g + [s], Max(s.vramMib, vram))
  {
    var h := g + [s];
    assert h[|g|] == s && forall k :: 0 <= k < |g| ==> h[k] == g[k];
    var i :| r <= i < |g| && g[i].ramBytes == ram;
    var j :| 0 <= j < |g| && g[j].vramMib == vram;
    assert h[i].ramBytes == ram && h[j].vramMib == vram;
  }

  lemma MergedFields(prev: Option<Entry>, s: Sample)
    requires prev.Some?
    ensures var heals := Clean(s) && prev.value.source == OomCorrected;
            && Merged(prev, s).ramBytes == (if heals then s.ramBytes else Max(s.ramBytes, prev.value.ramBytes))
            && Merged(prev, s).vramMib == Max(s.vramMib, prev.value.vramMib)
  {
  }

  lemma LastHeals(g: seq<Sample>, s: Sample)
    ensures Heals(g + [s], |g|) <==> Clean(s) && exists i :: 0 <= i < |g| && OomStands(g, i, |g|)
  {
    hide OomStands;
    forall i | 0 <= i < |g| ensures OomStands(g + [s], i, |g|) <==> OomStands(g, i, |g|) {
      StandsPrefix(g, s, i, |g|);
    }
  }

  /** The samples a run of records holds for one key, oldest first. */
  function SamplesOf(run: seq<(string, Sample)>, key: string): seq<Sample> {
    if run == [] then []
    else SamplesOf(run[..|run| - 1], key) + (if run[|run| - 1].0 == key then [run[|run| - 1].1] else [])
  }

  /** The whole store after a run of records. */
  function StoreAfter(run: seq<(string, Sample)>): map<string, Entry> {
    if run == [] then map[]
    else
      var m := StoreAfter(run[..|run| - 1]);
      var (k, s) := run[|run| - 1];
      m[k := Merged(Lookup(m, k), s)]
  }

  /** Keys do not disturb each other: each holds what its own samples leave. */
  lemma {:induction false} KeysAreIndependent(run: seq<(string, Sample)>, key: string)
    ensures Lookup(StoreAfter(run), key) == After(SamplesOf(run, key))
  {
    if run != [] {
      var rest, s := run[..|run| - 1], run[|run| - 1].1;
      KeysAreIndependent(rest, key);
      var h := SamplesOf(rest, key);
      assert (h + [s])[..|h + [s]| - 1] == h;
      if run[|run| - 1].0 != key { assert SamplesOf(run, key) == h + [] == h; }
    }
  }

  // ---- OOM self-heal ----

  /** The resolved cap lies strictly above the bound that was hit, exactly while
      that bound is below the ceiling, and never below the hint up to there. */
  lemma ResolvedAboveBoundIff(e: Entry, hint: Footprint)
    requires e.source == OomCorrected
    ensures Resolved(Some(e), hint).ramBytes > e.ramBytes <==> e.ramBytes < OOM_CEILING
    ensures Resolved(Some(e), hint).ramBytes >= Min(hint.ramBytes, OOM_CEILING)
    ensures Resolved(Some(e), hint).ramBytes >= Min(e.ramBytes + OOM_GROWTH_STEP, OOM_CEILING)
    ensures Resolved(Some(e), hint).ramBytes <= OOM_CEILING
  {
  }

  /** Successive OOM kills: each is recorded at no less than the cap that was
      resolved just before it. */
  ghost predicate OomRun(e0: Entry, kills: seq<Sample>, hints: seq<Footprint>)
    requires |hints| >= |kills|
  {
    && e0.source == OomCorrected
    && forall i :: 0 <= i < |kills| ==>
         && kills[i].source == OomCorrected
         && kills[i].ramBytes >= Resolved(Some(EntryAfter(e0, kills[..i])), hints[i]).ramBytes
  }

  function EntryAfter(e0: Entry, kills: seq<Sample>): Entry {
    if kills == [] then e0 else Merged(Some(EntryAfter(e0, kills[..|kills| - 1])), kills[|kills| - 1])
  }

  lemma {:induction false} EachKillGains(e0: Entry, kills: seq<Sample>, hints: seq<Footprint>)
    requires |hints| >= |kills| && OomRun(e0, kills, hints)
    ensures EntryAfter(e0, kills).source == OomCorrected
    ensures EntryAfter(e0, kills).ramBytes >= OOM_CEILING
         || EntryAfter(e0, kills).ramBytes >= e0.ramBytes + OOM_GROWTH_STEP * |kills|
  {
    hide Resolved, Merged, OomRun;
    OomRunPrefix(e0, kills, hints);
    if kills != [] {
      var n := |kills| - 1;
      EachKillGains(e0, kills[..n], hints);
      ResolvedAboveBoundIff(EntryAfter(e0, kills[..n]), hints[n]);
      OomOnOom(EntryAfter(e0, kills[..n]), kills[n]);
    }
  }

  lemma OomRunPrefix(e0: Entry, kills: seq<Sample>, hints: seq<Footprint>)
    requires |hints| >= |kills| && OomRun(e0, kills, hints)
    ensures e0.source == OomCorrected
    ensures kills != [] ==>
              var n := |kills| - 1;
              && OomRun(e0, kills[..n], hints)
              && kills[n].source == OomCorrected
              && kills[n].ramBytes >= Resolved(Some(EntryAfter(e0, kills[..n])), hints[n]).ramBytes
  {
    hide Resolved, EntryAfter;
    if kills != [] {
      var n := |kills| - 1;
      forall i | 0 <= i < n
        ensures kills[..n][i].source == OomCorrected
        ensures kills[..n][i].ramBytes >= Resolved(Some(EntryAfter(e0, kills[..n][..i])), hints[i]).ramBytes
      {
        assert kills[..n][..i] == kills[..i];
      }
    }
  }

  lemma OomOnOom(e: Entry, s: Sample)
    requires e.source == OomCorrected && s.source == OomCorrected
    ensures Merged(Some(e), s).source == OomCorrected && Merged(Some(e), s).ramBytes >= s.ramBytes
  {
  }

  /** Any need up to the ceiling is covered by the eighth resolve at the latest. */
  lemma SelfHealConverges(e0: Entry, kills: seq<Sample>, hints: seq<Footprint>, need: u64)
    requires |hints| == |kills| + 1 && OomRun(e0, kills, hints)
    requires |kills| >= 7 && need <= OOM_CEILING
    ensures Resolved(Some(EntryAfter(e0, kills)), hints[|kills|]).ramBytes >= need
  {
    hide Resolved;
    EachKillGains(e0, kills, hints);
    ResolvedAboveBoundIff(EntryAfter(e0, kills), hints[|kills|]);
  }

  /** Eight is tight: from an empty bound, six kills recorded exactly at the cap
      they hit leave the seventh cap at 62.5 GiB. */
  lemma SevenMayFallShort()
    ensures exists e0: Entry, kills: seq<Sample>, hints: seq<Footprint> ::
              && |kills| == 6 && |hints| == 7 && OomRun(e0, kills, hints)
              && Resolved(Some(EntryAfter(e0, kills)), hints[6]).ramBytes < OOM_CEILING
  {
    hide Merged, Resolved;
    var e0, hint := OomEntry(0, 0), Footprint(0, 0);
    var kills := [Kill(8), Kill(16), Kill(24), Kill(32), Kill(40), Kill(50)];
    var hints := [hint, hint, hint, hint, hint, hint, hint];
    OomSteps();
    assert kills[..0] == [] && EntryAfter(e0, kills[..0]) == OomEntry(0, 0);
    EntryAt(e0, kills, 0);
    EntryAt(e0, kills, 1);
    EntryAt(e0, kills, 2);
    EntryAt(e0, kills, 3);
    EntryAt(e0, kills, 4);
    EntryAt(e0, kills, 5);
    assert kills[..6] == kills;
    assert OomRun(e0, kills, hints);
    assert Resolved(Some(EntryAfter(e0, kills)), hints[6]).ramBytes == 125 * GIB / 2;
  }

  function Kill(gib: nat): Sample
    requires gib <= 64
  {
    Sample(gib * GIB, 0, OomCorrected, 0)
  }

  /** The caps along that run, and the bounds they leave. */
  lemma OomSteps()
    ensures var hint := Footprint(0, 0);
            && Resolved(Some(OomEntry(0, 0)), hint).ramBytes == 8 * GIB
            && Resolved(Some(OomEntry(8, 1)), hint).ramBytes == 16 * GIB
            && Resolved(Some(OomEntry(16, 2)), hint).ramBytes == 24 * GIB
            && Resolved(Some(OomEntry(24, 3)), hint).ramBytes == 32 * GIB
            && Resolved(Some(OomEntry(32, 4)), hint).ramBytes == 40 * GIB
            && Resolved(Some(OomEntry(40, 5)), hint).ramBytes == 50 * GIB
            && Resolved(Some(OomEntry(50, 6)), hint).ramBytes == 125 * GIB / 2
    ensures && Merged(Some(OomEntry(0, 0)), Kill(8)) == OomEntry(8, 1)
            && Merged(Some(OomEntry(8, 1)), Kill(16)) == OomEntry(16, 2)
            && Merged(Some(OomEntry(16, 2)), Kill(24)) == OomEntry(24, 3)
            && Merged(Some(OomEntry(24, 3)), Kill(32)) == OomEntry(32, 4)
            && Merged(Some(OomEntry(32, 4)), Kill(40)) == OomEntry(40, 5)
            && Merged(Some(OomEntry(40, 5)), Kill(50)) == OomEntry(50, 6)
  {
  }

  function OomEntry(gib: nat, n: u32): Entry
    requires gib <= 64
  {
    Entry(gib * GIB, 0, n, OomCorrected, 0)
  }

  lemma EntryAt(e0: Entry, kills: seq<Sample>, i: nat)
    requires i < |kills|
    ensures EntryAfter(e0, kills[..i + 1]) == Merged(Some(EntryAfter(e0, kills[..i])), kills[i])
  {
    assert kills[..i + 1][..i] == kills[..i];
  }
}
