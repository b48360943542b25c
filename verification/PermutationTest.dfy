/** The exact two-sided permutation test of src/run_ledger.rs. Metric values are
    reals; the floating-point slack is an exact rational constant. */
module PermutationTest {
  import opened Combinations
  import opened Labellings
  import opened Options

  const SLACK: real := 0.000000000001
  const MAX_PERMUTATIONS: nat := 3_000_000
  const MAX_SEEDS: nat := 32

  datatype Arm = Arm(name: string, values: seq<real>)

  datatype Reason = NoRuns | Underpowered | TooManyPermutations

  datatype Verdict =
    | Indeterminate(reason: Reason, seedsPerArmNeeded: nat)
    | Decided(pValue: real, significant: bool)

  datatype Comparison = Comparison(
    metric: string, baseline: string, candidate: string,
    baselineN: nat, candidateN: nat,
    delta: Option<real>, withinSd: Option<real>, effectSize: Option<real>, minAchievableP: real, verdict: Verdict)

  function Abs(x: real): real { if x < 0.0 then -x else x }

  /** The mean of an arm; an empty arm has none. */
  function Mean(v: seq<real>): Option<real> {
    if v == [] then None else Some(Sum(v) / |v| as real)
  }

  function Delta(b: seq<real>, c: seq<real>): Option<real> {
    if Mean(b).Some? && Mean(c).Some? then Some(Mean(c).value - Mean(b).value) else None
  }

  // ---- the reference: a share of all relabellings, as sets ----

  /** Distance between the arm means when the baseline sums to base. */
  function MeanGap(base: real, total: real, n: nat, m: nat): real
    requires 0 < n && 0 < m
  {
    Abs((total - base) / m as real - base / n as real)
  }

  lemma MeanGapMirror(base: real, total: real, n: nat, m: nat)
    requires 0 < n && 0 < m
    ensures MeanGap(total - base, total, m, n) == MeanGap(base, total, n, m)
  {
  }

  /** The gap when s names the baseline runs. */
  ghost function Gap(pooled: seq<real>, s: set<nat>, n: nat, m: nat): real
    requires 0 < n && 0 < m
  {
    MeanGap(SumIn(pooled, s), Sum(pooled), n, m)
  }

  ghost function Observed(b: seq<real>, c: seq<real>): real
    requires b != [] && c != []
  {
    Abs(Sum(c) / |c| as real - Sum(b) / |b| as real)
  }

  /** The relabellings at least as far apart as the observed arms. */
  ghost function Extreme(b: seq<real>, c: seq<real>): set<set<nat>>
    requires b != [] && c != []
  {
    set s | s in Choices(|b| + |c|, |b|) && Gap(b + c, s, |b|, |c|) >= Observed(b, c) - SLACK
  }

  ghost function ExactP(b: seq<real>, c: seq<real>): real
    requires b != [] && c != []
  {
    ChoosePositive(|b| + |c|, |b|);
    |Extreme(b, c)| as real / Choose(|b| + |c|, |b|) as real
  }

  function MinAchievableP(n: nat, m: nat): real {
    ChoosePositive(n + m, n);
    var floor := 2.0 / Choose(n + m, n) as real;
    if floor < 1.0 then floor else 1.0
  }

  /** The share is taken over exactly the relabellings there are. */
  lemma ExactPIsAShare(b: seq<real>, c: seq<real>)
    requires b != [] && c != []
    ensures |Choices(|b| + |c|, |b|)| > 0
    ensures ExactP(b, c) == |Extreme(b, c)| as real / |Choices(|b| + |c|, |b|)| as real
    ensures 0.0 < ExactP(b, c) <= 1.0
  {
    hide Choose, Positions, Gap, Observed;
    var size, n := |b| + |c|, |b|;
    CombosCoverChoices(size, n);
    ChoosePositive(size, n);
    ObservedIsExtreme(b, c);
    SubsetCard(Extreme(b, c), Choices(size, n));
    QuotientBounds(|Extreme(b, c)|, Choose(size, n));
  }

  lemma QuotientBounds(x: nat, y: nat)
    requires 0 < x <= y
    ensures 0.0 < x as real / y as real <= 1.0
  {
    var q := x as real / y as real;
    assert q * y as real == x as real;
  }

  lemma {:induction false} SubsetCard<T>(a: set<T>, b: set<T>)
    requires a <= b
    ensures |a| <= |b|
  {
    if a != {} {
      var x :| x in a;
      SubsetCard(a - {x}, b - {x});
    }
  }

  // ---- the observed labelling ----

  lemma ObservedIsExtreme(b: seq<real>, c: seq<real>)
    requires b != [] && c != []
    ensures Positions(|b|) in Extreme(b, c)
  {
    hide Positions, SumIn, Sum, MeanGap, Abs;
    var n, s := |b|, Positions(|b|);
    PositionsCard(n);
    ObservedSum(b, c);
    SumConcat(b, c);
    ObservedGap(b, c);
    assert s <= Positions(n + |c|);
    assert Gap(b + c, s, n, |c|) == MeanGap(Sum(b), Sum(b) + Sum(c), n, |c|);
  }

  lemma ObservedSum(b: seq<real>, c: seq<real>)
    ensures SumIn(b + c, Positions(|b|)) == Sum(b)
  {
    hide Positions, SumIn, Sum;
    var s := Positions(|b|);
    SumInConcat(b, c, s);
    SumInAll(b, s);
    forall i | 0 <= i < |c| ensures i !in ShiftDown(s, |b|) { ShiftDownIn(s, |b|, i); }
    SumInNone(c, ShiftDown(s, |b|));
  }

  lemma ObservedGap(b: seq<real>, c: seq<real>)
    requires b != [] && c != []
    ensures Observed(b, c) == MeanGap(Sum(b), Sum(b) + Sum(c), |b|, |c|)
  {
  }

  /** The positions of the candidate arm. */
  function Tail(n: nat, size: nat): set<nat> { Positions(size) - Positions(n) }

  lemma TailCard(n: nat, m: nat)
    ensures |Tail(n, n + m)| == m
  {
    hide Positions;
    PositionsCard(n);
    PositionsCard(n + m);
    assert Positions(n + m) == Positions(n) + Tail(n, n + m);
  }

  /** With equal arms the mirror image of an extreme labelling is extreme. */
  lemma MirrorIsExtreme(b: seq<real>, c: seq<real>)
    requires b != [] && |b| == |c|
    ensures Tail(|b|, |b| + |c|) in Extreme(b, c)
  {
    hide Positions, SumIn, Sum, MeanGap, Observed;
    var n, s, t := |b|, Positions(|b|), Tail(|b|, |b| + |c|);
    TailCard(n, |c|);
    ObservedIsExtreme(b, c);
    SumInComplement(b + c, s, t);
    MeanGapMirror(SumIn(b + c, s), Sum(b + c), n, n);
  }

  // ---- swapping the arms ----

  /** s names the baseline runs of b + c; the result names, in c + b, the runs
      that s leaves to the candidate. */
  function Swapped(s: set<nat>, n: nat, m: nat): set<nat> {
    set i | i in Positions(n + m) && Origin(i, n, m) !in s
  }

  /** Where position i of c + b sits in b + c. */
  function Origin(i: nat, n: nat, m: nat): nat { if i < m then i + n else i - m }

  lemma SwappedIn(s: set<nat>, n: nat, m: nat)
    ensures forall i: nat :: i < m ==> (i in Swapped(s, n, m) <==> i + n !in s)
    ensures forall i: nat :: i < n ==> (i in ShiftDown(Swapped(s, n, m), m) <==> i !in s)
  {
    hide Positions;
    forall i: nat | i < m ensures i in Swapped(s, n, m) <==> i + n !in s {
      assert Origin(i, n, m) == i + n;
    }
    forall i: nat | i < n ensures i in ShiftDown(Swapped(s, n, m), m) <==> i !in s {
      ShiftDownIn(Swapped(s, n, m), m, i);
      assert Origin(i + m, n, m) == i;
    }
  }

  lemma SwappedTwice(s: set<nat>, n: nat, m: nat)
    requires s <= Positions(n + m)
    ensures Swapped(Swapped(s, n, m), m, n) == s
  {
    hide Positions;
    var t := Swapped(s, n, m);
    forall i | i in Positions(n + m) ensures i in Swapped(t, m, n) <==> i in s {
      assert Origin(Origin(i, m, n), n, m) == i;
    }
  }

  /** Moving every position by a one-to-one map keeps the count. */
  lemma {:induction false} SwappedCard(s: set<nat>, n: nat, m: nat)
    requires s <= Positions(n + m)
    ensures |s| + |Swapped(s, n, m)| == n + m
  {
    hide Positions, Swapped, Origin;
    if s == {} {
      PositionsCard(n + m);
      SwappedNone(n, m);
    } else {
      var x :| x in s;
      SwappedCard(s - {x}, n, m);
      SwappedWithout(s, x, n, m);
    }
  }

  lemma SwappedNone(n: nat, m: nat)
    ensures Swapped({}, n, m) == Positions(n + m)
  {
    hide Positions;
  }

  lemma SwappedWithout(s: set<nat>, x: nat, n: nat, m: nat)
    requires x in s && x < n + m
    ensures Swapped(s - {x}, n, m) == Swapped(s, n, m) + {Origin(x, m, n)}
    ensures Origin(x, m, n) !in Swapped(s, n, m)
  {
    hide Positions;
    var y := Origin(x, m, n);
    assert Origin(y, n, m) == x;
    forall i | i in Swapped(s - {x}, n, m) ensures i in Swapped(s, n, m) + {y} {
      if Origin(i, n, m) == x { assert i == y; }
    }
  }

  lemma SwappedSum(b: seq<real>, c: seq<real>, s: set<nat>)
    ensures SumIn(c + b, Swapped(s, |b|, |c|)) == Sum(b + c) - SumIn(b + c, s)
  {
    hide Positions, SumIn, Sum, Swapped;
    var n, m := |b|, |c|;
    var t := Swapped(s, n, m);
    SwappedIn(s, n, m);
    SumInConcat(b, c, s);
    SumInConcat(c, b, t);
    forall i | 0 <= i < m ensures i in t <==> i !in ShiftDown(s, n) { ShiftDownIn(s, n, i); }
    SumInComplement(c, ShiftDown(s, n), t);
    SumInComplement(b, s, ShiftDown(t, m));
    SumConcat(b, c);
  }

  lemma SwappedIsExtreme(b: seq<real>, c: seq<real>, s: set<nat>)
    requires b != [] && c != [] && s in Extreme(b, c)
    ensures Swapped(s, |b|, |c|) in Extreme(c, b)
  {
    var n, m := |b|, |c|;
    hide Positions, SumIn, Sum, MeanGap, Observed;
    var t := Swapped(s, n, m);
    SwappedCard(s, n, m);
    assert t <= Positions(m + n);
    SwappedSum(b, c, s);
    SumConcat(b, c);
    SumConcat(c, b);
    MeanGapMirror(SumIn(b + c, s), Sum(b + c), n, m);
    ObservedGap(b, c);
    ObservedGap(c, b);
    MeanGapMirror(Sum(b), Sum(b) + Sum(c), n, m);
    assert Sum(b) + Sum(c) - Sum(b) == Sum(c) && Sum(c + b) == Sum(b + c);
    assert Gap(c + b, t, m, n) == Gap(b + c, s, n, m) && Observed(c, b) == Observed(b, c);
    assert t in Choices(m + n, m);
  }

  lemma SwapBounds(b: seq<real>, c: seq<real>)
    requires b != [] && c != []
    ensures |Extreme(b, c)| <= |Extreme(c, b)|
  {
    var n, m := |b|, |c|;
    var f := (s: set<nat>) => Swapped(s, n, m);
    forall s | s in Extreme(b, c) ensures f(s) in Extreme(c, b) { SwappedIsExtreme(b, c, s); }
    forall s, t | s in Extreme(b, c) && t in Extreme(b, c) && f(s) == f(t) ensures s == t {
      SwappedTwice(s, n, m);
      SwappedTwice(t, n, m);
    }
    InjectionBounds(Extreme(b, c), Extreme(c, b), f);
  }

  /** Which arm is called the baseline does not matter. */
  lemma SwapSymmetry(b: seq<real>, c: seq<real>)
    requires b != [] && c != []
    ensures ExactP(b, c) == ExactP(c, b)
    ensures MinAchievableP(|b|, |c|) == MinAchievableP(|c|, |b|)
  {
    SwapBounds(b, c);
    SwapBounds(c, b);
    ChooseSymmetric(|b| + |c|, |b|);
  }

  // ---- the smallest p-value a design can produce ----

  ghost function Fewest(n: nat, m: nat): nat { if n == m then 2 else 1 }

  lemma ExtremeAtLeast(b: seq<real>, c: seq<real>)
    requires b != [] && c != []
    ensures |Extreme(b, c)| >= Fewest(|b|, |c|)
  {
    ObservedIsExtreme(b, c);
    if |b| == |c| {
      MirrorIsExtreme(b, c);
      var s, t := Positions(|b|), Tail(|b|, |b| + |c|);
      assert 0 in s && 0 !in t;
      assert {s, t} <= Extreme(b, c);
      SubsetCard({s, t}, Extreme(b, c));
    } else {
      SubsetCard({Positions(|b|)}, Extreme(b, c));
    }
  }

  function Constant(x: real, n: nat): (v: seq<real>)
    ensures |v| == n && forall i :: 0 <= i < n ==> v[i] == x
  {
    if n == 0 then [] else Constant(x, n - 1) + [x]
  }

  lemma {:induction false} ConstantSum(x: real, n: nat)
    ensures Sum(Constant(x, n)) == Scaled(x, n)
  {
    if n > 0 {
      ConstantSum(x, n - 1);
      OneMoreTimes(x, n - 1);
      assert Constant(x, n)[..n - 1] == Constant(x, n - 1);
    }
  }

  lemma {:induction false} ConstantSumIn(x: real, n: nat, s: set<nat>)
    ensures SumIn(Constant(x, n), s) == Scaled(x, |s * Positions(n)|)
  {
    hide Positions, Scaled, SumIn;
    if n == 0 {
      assert s * Positions(0) == {};
      ScaledZero(x);
      SumInNone([], s);
    } else {
      ConstantSumIn(x, n - 1, s);
      SumInSnoc(Constant(x, n - 1), x, s);
      KeptOneMore(s, n);
      OneMoreTimes(x, |s * Positions(n - 1)|);
    }
  }

  function Scaled(x: real, k: nat): real { x * k as real }

  lemma ScaledZero(x: real)
    ensures Scaled(x, 0) == 0.0
  {
  }

  lemma ScaledNothing(k: nat)
    ensures Scaled(0.0, k) == 0.0
  {
  }

  lemma OneMoreTimes(x: real, k: nat)
    ensures Scaled(x, k + 1) == Scaled(x, k) + x
  {
  }

  lemma KeptOneMore(s: set<nat>, n: nat)
    requires 0 < n
    ensures |s * Positions(n)| == |s * Positions(n - 1)| + (if n - 1 in s then 1 else 0)
  {
    hide Positions;
    if n - 1 in s {
      assert s * Positions(n) == s * Positions(n - 1) + {n - 1};
    } else {
      assert s * Positions(n) == s * Positions(n - 1);
    }
  }

  /** Data that separates the arms as cleanly as possible. */
  function Split(n: nat, m: nat): (seq<real>, seq<real>) {
    (Constant((n * m) as real, n), Constant(0.0, m))
  }

  /** On separated data the gap of a labelling depends only on how many of the
      true baseline runs it keeps. */
  lemma SplitGap(n: nat, m: nat, s: set<nat>)
    requires 0 < n && 0 < m
    ensures var (b, c) := Split(n, m);
            var k := |s * Positions(n)|;
            Gap(b + c, s, n, m) == Abs((n * n - k * (n + m)) as real)
  {
    hide Positions, SumIn, Sum, Constant, MeanGap, Abs, Scaled;
    var (b, c) := Split(n, m);
    var k := |s * Positions(n)|;
    var x := (n * m) as real;
    SumInConcat(b, c, s);
    ConstantSumIn(x, n, s);
    ConstantSumIn(0.0, m, ShiftDown(s, n));
    SumConcat(b, c);
    ConstantSum(x, n);
    ConstantSum(0.0, m);
    ScaledNothing(|ShiftDown(s, n) * Positions(m)|);
    ScaledNothing(m);
    assert SumIn(b + c, s) == Scaled(x, k) && Sum(b + c) == Scaled(x, n);
    GapArithmetic(n, m, k);
  }

  lemma GapArithmetic(n: nat, m: nat, k: nat)
    requires 0 < n && 0 < m
    ensures var x := (n * m) as real;
            MeanGap(Scaled(x, k), Scaled(x, n), n, m) == Abs((n * n - k * (n + m)) as real)
  {
    hide Abs;
    var x, rn, rm, rk := (n * m) as real, n as real, m as real, k as real;
    CastProducts(n, m, k);
    BaselineMean(rn, rm, rk);
    CandidateMean(rn, rm, rk);
    assert Scaled(x, k) == (rn * rm) * rk && Scaled(x, n) == (rn * rm) * rn;
    assert Scaled(x, k) / rn == rm * rk;
    assert (Scaled(x, n) - Scaled(x, k)) / rm == rn * rn - rn * rk;
  }

  lemma CastProducts(n: nat, m: nat, k: nat)
    ensures (n * m) as real == n as real * m as real
    ensures (n * n - k * (n + m)) as real
         == n as real * n as real - n as real * k as real - m as real * k as real
  {
  }

  lemma BaselineMean(rn: real, rm: real, rk: real)
    requires rn != 0.0
    ensures (rn * rm) * rk / rn == rm * rk
  {
    WholeQuotient(rm * rk, rn);
    assert (rn * rm) * rk == (rm * rk) * rn;
  }

  lemma CandidateMean(rn: real, rm: real, rk: real)
    requires rm != 0.0
    ensures ((rn * rm) * rn - (rn * rm) * rk) / rm == rn * rn - rn * rk
  {
    WholeQuotient(rn * rn - rn * rk, rm);
    assert (rn * rm) * rn - (rn * rm) * rk == (rn * rn - rn * rk) * rm;
  }

  /** How many true baseline runs a labelling can keep. */
  lemma KeptRange(s: set<nat>, n: nat, m: nat)
    requires s in Choices(n + m, n)
    ensures var k := |s * Positions(n)|;
            && k <= n && n - m <= k
            && (k == n ==> s == Positions(n))
            && (k == 0 && n == m ==> s == Tail(n, n + m))
  {
    var p := Positions(n);
    var kept, rest := s * p, s - p;
    PositionsCard(n);
    TailCard(n, m);
    assert s == kept + rest && |s| == |kept| + |rest|;
    SubsetCard(kept, p);
    assert rest <= Tail(n, n + m);
    SubsetCard(rest, Tail(n, n + m));
    if |kept| == n { SubsetEqual(kept, p); assert rest == {}; }
    if |kept| == 0 && n == m { SubsetEqual(rest, Tail(n, n + m)); assert kept == {}; }
  }

  lemma SubsetEqual<T>(a: set<T>, b: set<T>)
    requires a <= b && |a| == |b|
    ensures a == b
  {
    assert b == a + (b - a) && |b| == |a| + |b - a|;
  }

  lemma KeptArithmetic(n: nat, m: nat, k: nat)
    requires 0 < n && 0 < m && k < n && n - m <= k
    requires n != m || k != 0
    ensures Abs((n * n - k * (n + m)) as real) < (n * m) as real - SLACK
  {
    KeptStrictly(n, m, k);
    assert -(n * m) + 1 <= n * n - k * (n + m) <= n * m - 1;
  }

  lemma KeptStrictly(n: nat, m: nat, k: nat)
    requires 0 < n && 0 < m && k < n && n - m <= k
    requires n != m || k != 0
    ensures -(n * m) < n * n - k * (n + m) < n * m
  {
    Times(k, n - 1, n + m);
    assert (n - 1) * (n + m) == n * n + n * m - n - m;
    if n <= m {
      if k == 0 { Times(n, m - 1, n); } else { Times(1, k, n + m); Times(n, m, n); }
    } else {
      Times(n - m, k, n + m);
      assert (n - m) * (n + m) == n * n - m * m;
      Times(m, n - 1, m);
    }
  }

  lemma Times(x: int, y: int, z: nat)
    requires x <= y
    ensures x * z <= y * z
  {
  }

  lemma SplitExtreme(n: nat, m: nat)
    requires 0 < n && 0 < m
    ensures var (b, c) := Split(n, m);
            Extreme(b, c) <= {Positions(n)} + (if n == m then {Tail(n, n + m)} else {})
  {
    hide Positions, SumIn, Sum, Constant, Gap, Observed;
    var (b, c) := Split(n, m);
    var x := (n * m) as real;
    SplitObserved(n, m);
    forall s | s in Extreme(b, c)
      ensures s == Positions(n) || (n == m && s == Tail(n, n + m))
    {
      SplitGap(n, m, s);
      KeptRange(s, n, m);
      var k := |s * Positions(n)|;
      if k < n && (n != m || k != 0) {
        KeptArithmetic(n, m, k);
      }
    }
  }

  lemma SplitObserved(n: nat, m: nat)
    requires 0 < n && 0 < m
    ensures var (b, c) := Split(n, m); Observed(b, c) == (n * m) as real
  {
    hide Sum, Constant, Scaled;
    var x := (n * m) as real;
    var (b, c) := Split(n, m);
    ConstantSum(x, n);
    ConstantSum(0.0, m);
    ScaledNothing(m);
    ScaledQuotient(x, n);
    assert 0.0 / m as real == 0.0;
    assert x >= 0.0;
  }

  lemma ScaledQuotient(x: real, n: nat)
    requires 0 < n
    ensures Scaled(x, n) / n as real == x
  {
    WholeQuotient(x, n as real);
  }

  lemma WholeQuotient(x: real, d: real)
    requires d != 0.0
    ensures x * d / d == x
  {
  }

  /** The fewest extreme relabellings any data of these sizes can have, and data
      that has exactly that many. */
  lemma FewestIsAttained(n: nat, m: nat)
    requires 0 < n && 0 < m
    ensures var (b, c) := Split(n, m); |Extreme(b, c)| == Fewest(n, m)
  {
    var (b, c) := Split(n, m);
    SplitExtreme(n, m);
    ExtremeAtLeast(b, c);
    if n == m {
      SubsetCard(Extreme(b, c), {Positions(n), Tail(n, n + m)});
    } else {
      SubsetCard(Extreme(b, c), {Positions(n)});
    }
  }

  ghost predicate Attainable(n: nat, m: nat, alpha: real)
    requires 0 < n && 0 < m
  {
    exists b: seq<real>, c: seq<real> :: |b| == n && |c| == m && ExactP(b, c) <= alpha
  }

  /** Some data of these sizes reaches alpha exactly when the true floor does. */
  lemma AttainableIff(n: nat, m: nat, alpha: real)
    requires 0 < n && 0 < m
    ensures Choose(n + m, n) >= 2
    ensures Attainable(n, m, alpha) <==> Fewest(n, m) as real / Choose(n + m, n) as real <= alpha
  {
    hide Choose, Extreme, Split;
    AtLeastTwoLabellings(n, m);
    var total := Choose(n + m, n);
    if Attainable(n, m, alpha) {
      var b: seq<real>, c: seq<real> :| |b| == n && |c| == m && ExactP(b, c) <= alpha;
      ExtremeAtLeast(b, c);
      QuotientMonotone(Fewest(n, m), |Extreme(b, c)|, total);
    }
    if Fewest(n, m) as real / total as real <= alpha {
      FewestIsAttained(n, m);
      SplitSizes(n, m);
      var (b, c) := Split(n, m);
      assert |b| == n && |c| == m && ExactP(b, c) <= alpha;
    }
  }

  lemma SplitSizes(n: nat, m: nat)
    ensures var (b, c) := Split(n, m); |b| == n && |c| == m
  {
  }

  lemma QuotientMonotone(x: nat, y: nat, d: nat)
    requires x <= y && 0 < d
    ensures x as real / d as real <= y as real / d as real
    ensures x < y ==> x as real / d as real < y as real / d as real
  {
  }

  lemma AtLeastTwoLabellings(n: nat, m: nat)
    requires 0 < n && 0 < m
    ensures Choose(n + m, n) >= 2
    ensures n != m ==> Choose(n + m, n) >= 3
  {
    ChoosePositive(n + m - 1, n - 1);
    ChoosePositive(n + m - 1, n);
    if n != m {
      if n == 1 { ChooseOne(n + m); } else { MoreThanTwo(n, m); }
    }
  }

  lemma {:induction false} ChooseOne(n: nat)
    ensures Choose(n, 1) == n
  {
    if n > 0 { ChooseOne(n - 1); }
  }

  lemma MoreThanTwo(n: nat, m: nat)
    requires 1 < n && 0 < m
    ensures Choose(n + m, n) >= 3
  {
    assert Choose(n + m, n) == Choose(n + m - 1, n - 1) + Choose(n + m - 1, n);
    assert Choose(n + m - 1, n - 1) == Choose(n + m - 2, n - 2) + Choose(n + m - 2, n - 1);
    ChoosePositive(n + m - 2, n - 2);
    ChoosePositive(n + m - 2, n - 1);
    ChoosePositive(n + m - 1, n);
  }

  /** The reported floor is a true lower bound for every data set of these
      sizes exactly when the arms are equal. */
  lemma FloorHoldsIffEqual(n: nat, m: nat)
    requires 0 < n && 0 < m
    ensures (forall b: seq<real>, c: seq<real> :: |b| == n && |c| == m ==> ExactP(b, c) >= MinAchievableP(n, m))
            <==> n == m
  {
    AtLeastTwoLabellings(n, m);
    var total := Choose(n + m, n);
    QuotientMonotone(1, 2, total);
    QuotientBounds(2, total);
    assert MinAchievableP(n, m) == 2.0 / total as real;
    if n == m {
      forall b: seq<real>, c: seq<real> | |b| == n && |c| == m
        ensures ExactP(b, c) >= MinAchievableP(n, m)
      {
        ExtremeAtLeast(b, c);
        QuotientMonotone(2, |Extreme(b, c)|, total);
      }
    } else {
      FewestIsAttained(n, m);
      var (b, c) := Split(n, m);
      assert |b| == n && |c| == m && ExactP(b, c) < MinAchievableP(n, m);
    }
  }

  /** An underpowered verdict hides a result some data could have shown exactly
      when the arms differ in size and alpha lies between the two floors. */
  lemma UnderpoweredHidesIff(n: nat, m: nat, alpha: real)
    requires 0 < n && 0 < m
    ensures Choose(n + m, n) > 0
    ensures (MinAchievableP(n, m) > alpha && Attainable(n, m, alpha))
            <==> (n != m && 1.0 / Choose(n + m, n) as real <= alpha < 2.0 / Choose(n + m, n) as real)
  {
    AttainableIff(n, m, alpha);
    QuotientBounds(2, Choose(n + m, n));
  }

  /** One baseline run against two: the verdict says no arrangement could be
      significant at 0.5, and this one is. */
  lemma HiddenResultExample()
    ensures MinAchievableP(1, 2) > 0.5 && ExactP([2.0], [0.0, 0.0]) <= 0.5
  {
    ChooseOne(3);
    FewestIsAttained(1, 2);
    var (b, c) := Split(1, 2);
    assert b == [2.0] && c == [0.0, 0.0];
  }

  // ---- replicates needed ----

  predicate Reaches(k: nat, alpha: real) {
    ChoosePositive(2 * k, k);
    2.0 / Choose(2 * k, k) as real <= alpha
  }

  lemma {:induction false} ReachesMonotone(j: nat, k: nat, alpha: real)
    requires j <= k && Reaches(j, alpha)
    ensures Reaches(k, alpha)
  {
    if j < k {
      ReachesMonotone(j, k - 1, alpha);
      CentralChooseGrows(k - 1);
      ChoosePositive(2 * (k - 1), k - 1);
      var x, y := Choose(2 * (k - 1), k - 1) as real, Choose(2 * k, k) as real;
      assert 2.0 / y <= 2.0 / x by { assert (2.0 / x) * x == 2.0 && (2.0 / y) * y == 2.0; SmallerShare(x, y); }
    }
  }

  lemma SmallerShare(x: real, y: real)
    requires 0.0 < x <= y
    ensures 2.0 / y <= 2.0 / x
  {
  }

  /** The search for the least equal arm size that can reach alpha. */
  method SeedsNeeded(alpha: real) returns (k: nat)
    ensures 1 <= k <= MAX_SEEDS
    ensures forall j :: 1 <= j < k ==> !Reaches(j, alpha)
    ensures Reaches(k, alpha) || (k == MAX_SEEDS && forall j :: 1 <= j <= MAX_SEEDS ==> !Reaches(j, alpha))
  {
    k := 1;
    while k <= MAX_SEEDS
      invariant 1 <= k <= MAX_SEEDS + 1
      invariant forall j :: 1 <= j < k ==> !Reaches(j, alpha)
    {
      var total := Binomial(2 * k, k);
      ChoosePositive(2 * k, k);
      if 2.0 / total as real <= alpha {
        return;
      }
      k := k + 1;
    }
    k := MAX_SEEDS;
  }

  /** What the search answers: the least size that reaches alpha, or the limit. */
  ghost predicate Advised(k: nat, alpha: real) {
    && 1 <= k <= MAX_SEEDS
    && (forall j :: 1 <= j < k ==> !Reaches(j, alpha))
    && (Reaches(k, alpha) || k == MAX_SEEDS)
  }

  /** Equal arms up to the search limit can reach alpha on some data exactly from
      the advised size on, if that size can; beyond the limit as well, then. */
  lemma SeedsNeededIsLeast(advised: nat, alpha: real, k: nat)
    requires Advised(advised, alpha) && 1 <= k
    ensures k <= MAX_SEEDS ==> (Attainable(k, k, alpha) <==> Reaches(advised, alpha) && advised <= k)
    ensures Reaches(advised, alpha) ==> (Attainable(k, k, alpha) <==> advised <= k)
  {
    AttainableIff(k, k, alpha);
    assert Attainable(k, k, alpha) <==> Reaches(k, alpha);
    if advised <= k {
      if Reaches(advised, alpha) { ReachesMonotone(advised, k, alpha); }
    }
  }

  // ---- whether following the advice settles anything ----

  /** The designs that are put to the test at all. */
  predicate Decides(n: nat, m: nat, alpha: real) {
    0 < n && 0 < m && MinAchievableP(n, m) <= alpha && Choose(n + m, n) <= MAX_PERMUTATIONS
  }

  lemma CentralTable()
    ensures Choose(24, 12) == 2_704_156 && Choose(26, 13) == 10_400_600
  {
    hide Choose;
    CentralStart();
    CentralChooseStep(1); CentralChooseStep(2); CentralChooseStep(3); CentralChooseStep(4);
    assert Choose(10, 5) == 252;
    CentralChooseStep(5); CentralChooseStep(6); CentralChooseStep(7); CentralChooseStep(8);
    assert Choose(18, 9) == 48_620;
    CentralChooseStep(9); CentralChooseStep(10); CentralChooseStep(11); CentralChooseStep(12);
  }

  lemma CentralStart()
    ensures Choose(2, 1) == 2
  {
  }

  lemma {:induction false} CentralGrows(j: nat, k: nat)
    requires j <= k
    ensures Choose(2 * j, j) <= Choose(2 * k, k)
  {
    hide Choose;
    if j < k {
      CentralGrows(j, k - 1);
      CentralChooseGrows(k - 1);
    }
  }

  /** Equal arms of the advised size are decided if and only if alpha is at least
      2 / C(24, 12): below that the advice is 13 or more per arm, which is past the
      enumeration ceiling. */
  lemma AdviceDecidesIff(advised: nat, alpha: real)
    requires Advised(advised, alpha)
    ensures Decides(advised, advised, alpha) <==> 2.0 / 2_704_156.0 <= alpha
  {
    hide Choose;
    CentralTable();
    assert Reaches(12, alpha) <==> 2.0 / 2_704_156.0 <= alpha;
    ChoosePositive(2 * advised, advised);
    if advised <= 12 {
      CentralGrows(advised, 12);
      assert 2 * advised == advised + advised;
      if Reaches(advised, alpha) { ReachesMonotone(advised, 12, alpha); FloorOfReaching(advised, alpha); }
    } else {
      CentralGrows(13, advised);
      assert 2 * advised == advised + advised;
    }
  }

  lemma FloorOfReaching(k: nat, alpha: real)
    requires Reaches(k, alpha)
    ensures MinAchievableP(k, k) <= alpha
  {
    hide Choose;
    assert 2 * k == k + k;
  }

  // ---- the loop ----

  /** The in-place walk over all relabellings: it starts at the first one, moves
      to the next, and stops on the count alone. */
  method Enumerate(b: seq<real>, c: seq<real>, observed: real, total: nat) returns (extreme: nat, seen: nat)
    requires b != [] && c != []
    requires observed == Observed(b, c) && total == Choose(|b| + |c|, |b|)
    ensures extreme == |Extreme(b, c)| && seen == total
  {
    hide Combos, Choose, Extreme, Observed, Tally, AsExtreme, StepAt, IsCombo;
    var pooled, n, m := b + c, |b|, |c|;
    ghost var all := Combos(0, n + m, n);
    CombosCount(0, n + m, n);
    CombosEnds(0, n + m, n);
    extreme, seen := 0, 0;
    var index := FirstCombination(n);
    TallyNone(all, Extreme(b, c));
    while true
      invariant seen < |all| && index[..] == all[seen]
      invariant extreme == Tally(all[..seen], Extreme(b, c))
      decreases |all| - seen
    {
      CombosSound(0, n + m, n, seen);
      VisitDecides(b, c, index[..]);
      if AsExtreme(pooled, index[..], n, m, observed) {
        extreme := extreme + 1;
      }
      TallySnoc(all, seen, Extreme(b, c));
      seen := seen + 1;

      NextCombination(index, n + m);
      if seen < |all| {
        NextInList(n + m, n, seen - 1, index[..]);
        CombosSound(0, n + m, n, seen);
        FirstSlotBounded(index[..], n, m);
      }
      if index[0] > |pooled| - n {
        break;
      }
      if seen >= total {
        break;
      }
    }
    assert all[..seen] == all;
    TallyOfAll(b, c);
  }

  method FirstCombination(n: nat) returns (index: array<nat>)
    ensures fresh(index) && index.Length == n && index[..] == Run(0, n)
  {
    index := new nat[n];
    for slot := 0 to n
      invariant forall i :: 0 <= i < slot ==> index[i] == i
    {
      index[slot] := slot;
    }
  }

  /** The test one visited combination is put to. */
  predicate AsExtreme(pooled: seq<real>, chosen: seq<nat>, n: nat, m: nat, observed: real)
    requires 0 < n && 0 < m && forall i :: 0 <= i < |chosen| ==> chosen[i] < |pooled|
  {
    var baseSum, totalSum := SumAt(pooled, chosen), Sum(pooled);
    var candMean, baseMean := (totalSum - baseSum) / m as real, baseSum / n as real;
    Abs(candMean - baseMean) >= observed - SLACK
  }

  lemma TallyNone(cs: seq<seq<nat>>, good: set<set<nat>>)
    ensures Tally(cs[..0], good) == 0
  {
  }

  lemma VisitDecides(b: seq<real>, c: seq<real>, chosen: seq<nat>)
    requires b != [] && c != [] && IsCombo(chosen, 0, |b| + |c|, |b|)
    ensures forall i :: 0 <= i < |chosen| ==> chosen[i] < |b + c|
    ensures SetOf(chosen) in Extreme(b, c) <==>
              AsExtreme(b + c, chosen, |b|, |c|, Observed(b, c))
  {
    hide Observed, SumIn, SumAt, Sum, Abs;
    SumAtIsSumIn(b + c, chosen);
    ChoiceOfCombo(chosen, |b| + |c|, |b|);
  }

  lemma FirstSlotBounded(c: seq<nat>, n: nat, m: nat)
    requires 0 < n && IsCombo(c, 0, n + m, n)
    ensures c[0] <= m
  {
    SpreadOut(c, n + m, n - 1);
  }

  lemma {:induction false} SpreadOut(c: seq<nat>, hi: nat, i: nat)
    requires IsCombo(c, 0, hi, |c|) && i < |c|
    ensures c[0] + i <= c[i]
  {
    if i > 0 { SpreadOut(c, hi, i - 1); }
  }

  lemma TallyOfAll(b: seq<real>, c: seq<real>)
    requires b != [] && c != []
    ensures Tally(Combos(0, |b| + |c|, |b|), Extreme(b, c)) == |Extreme(b, c)|
  {
    hide Combos, Tally, Gap, Observed, SetOf, Images, Positions;
    var all := Combos(0, |b| + |c|, |b|);
    CombosCoverChoices(|b| + |c|, |b|);
    TallyCounts(all, Extreme(b, c));
    assert Images(all) * Extreme(b, c) == Extreme(b, c);
  }

  lemma TallySnoc(cs: seq<seq<nat>>, i: nat, good: set<set<nat>>)
    requires i < |cs|
    ensures Tally(cs[..i + 1], good) == Tally(cs[..i], good) + (if SetOf(cs[i]) in good then 1 else 0)
  {
    assert cs[..i + 1][..i] == cs[..i];
  }

  lemma NextInList(size: nat, n: nat, i: nat, d: seq<nat>)
    requires 0 < n <= size && i + 1 < |Combos(0, size, n)|
    requires var c := Combos(0, size, n)[i];
             if c == Run(size - n, n) then d == c else exists p :: StepAt(c, d, size, p)
    ensures d == Combos(0, size, n)[i + 1]
  {
    hide Combos;
    var c, e := Combos(0, size, n)[i], Combos(0, size, n)[i + 1];
    var q := CombosStep(0, size, n, i);
    if c == Run(size - n, n) { LastCannotStep(size, n, e, q); }
    var p: nat :| StepAt(c, d, size, p);
    StepIsFunctional(c, d, e, size, p, q);
  }

  // ---- the reported difference ----

  /** Every value of v, raised by x. */
  function Raised(v: seq<real>, x: real): (r: seq<real>)
    ensures |r| == |v| && forall i :: 0 <= i < |v| ==> r[i] == v[i] + x
  {
    if v == [] then [] else Raised(v[..|v| - 1], x) + [v[|v| - 1] + x]
  }

  lemma {:induction false} SumRaised(v: seq<real>, x: real)
    ensures Sum(Raised(v, x)) == Sum(v) + Scaled(x, |v|)
  {
    if v == [] {
      ScaledZero(x);
    } else {
      var n := |v| - 1;
      SumRaised(v[..n], x);
      assert Raised(v, x)[..n] == Raised(v[..n], x);
      OneMoreTimes(x, n);
    }
  }

  lemma MeanRaised(sum: real, x: real, n: nat)
    requires 0 < n
    ensures (sum + Scaled(x, n)) / n as real == sum / n as real + x
  {
    hide Scaled;
    ScaledQuotient(x, n);
    SplitQuotient(sum, Scaled(x, n), n as real);
  }

  lemma SplitQuotient(a: real, b: real, d: real)
    requires d != 0.0
    ensures (a + b) / d == a / d + b / d
  {
  }

  /** The difference is the candidate's: it is positive exactly when the candidate's
      mean is the larger one, it goes up with the candidate and down with the
      baseline, and raising both changes nothing. */
  lemma DeltaFavoursCandidate(b: seq<real>, c: seq<real>, x: real)
    requires b != [] && c != []
    ensures Delta(b, c).Some? && Delta(b, Raised(c, x)).Some? && Delta(Raised(b, x), c).Some?
    ensures Delta(b, c).value > 0.0 <==> Sum(c) / |c| as real > Sum(b) / |b| as real
    ensures Delta(b, Raised(c, x)).value == Delta(b, c).value + x
    ensures Delta(Raised(b, x), c).value == Delta(b, c).value - x
    ensures Delta(Raised(b, x), Raised(c, x)) == Delta(b, c)
  {
    hide Sum, Scaled, Raised;
    SumRaised(b, x);
    SumRaised(c, x);
    MeanRaised(Sum(b), x, |b|);
    MeanRaised(Sum(c), x, |c|);
  }

  // ---- spread within the arms ----

  function Product(x: real, y: real): real { x * y }

  function Square(x: real): real { Product(x, x) }

  function SumSquares(v: seq<real>, mean: real): real {
    if v == [] then 0.0
    else SumSquares(v[..|v| - 1], mean) + Square(v[|v| - 1] - mean)
  }

  /** Squared distances from the arm's own mean; an arm of one has no spread. */
  function Spread(v: seq<real>): real {
    if |v| < 2 then 0.0 else SumSquares(v, Mean(v).value)
  }

  function Freedom(v: seq<real>): nat { if |v| < 2 then 0 else |v| - 1 }

  /** The variance pooled from the arms that have a spread at all. */
  function PooledVariance(b: seq<real>, c: seq<real>): Option<real> {
    var df := Freedom(b) + Freedom(c);
    if df == 0 then None else Some((Spread(b) + Spread(c)) / df as real)
  }

  lemma ProductPositive(x: real, y: real)
    requires x > 0.0 && y > 0.0
    ensures Product(x, y) > 0.0
  {
  }

  lemma ProductNegated(x: real, y: real)
    ensures Product(-x, -y) == Product(x, y)
  {
  }

  lemma ProductZero(y: real)
    ensures Product(0.0, y) == 0.0
  {
  }

  lemma SquarePositive(x: real)
    ensures Square(x) >= 0.0 && (Square(x) == 0.0 <==> x == 0.0)
  {
    hide Product;
    ProductZero(0.0);
    if x > 0.0 {
      ProductPositive(x, x);
    } else if x < 0.0 {
      ProductPositive(-x, -x);
      ProductNegated(x, x);
    }
  }

  lemma {:induction false} SumSquaresZeroIff(v: seq<real>, mean: real)
    ensures SumSquares(v, mean) >= 0.0
    ensures SumSquares(v, mean) == 0.0 <==> forall i :: 0 <= i < |v| ==> v[i] == mean
  {
    hide Square;
    if v != [] {
      var n := |v| - 1;
      SumSquaresZeroIff(v[..n], mean);
      SquarePositive(v[n] - mean);
      assert forall i :: 0 <= i < n ==> v[..n][i] == v[i];
    }
  }

  ghost predicate IsConstant(v: seq<real>) { forall i, j :: 0 <= i < j < |v| ==> v[i] == v[j] }

  lemma {:induction false} SumOfConstant(v: seq<real>, x: real)
    requires forall i :: 0 <= i < |v| ==> v[i] == x
    ensures Sum(v) == Scaled(x, |v|)
  {
    if v == [] {
      ScaledZero(x);
    } else {
      SumOfConstant(v[..|v| - 1], x);
      OneMoreTimes(x, |v| - 1);
    }
  }

  lemma SpreadZeroIff(v: seq<real>)
    ensures Spread(v) >= 0.0 && (Spread(v) == 0.0 <==> IsConstant(v))
  {
    if |v| >= 2 {
      SumSquaresZeroIff(v, Mean(v).value);
      if IsConstant(v) {
        assert forall i :: 0 < i < |v| ==> v[0] == v[i];
        SumOfConstant(v, v[0]);
        ScaledQuotient(v[0], |v|);
      }
    }
  }

  /** The pooled variance exists if and only if some arm has two runs, is never
      negative, is zero if and only if every arm is constant, and does not depend on
      which arm is called the baseline; the difference of means changes sign. */
  lemma VarianceMeans(b: seq<real>, c: seq<real>)
    ensures PooledVariance(b, c).Some? <==> |b| >= 2 || |c| >= 2
    ensures PooledVariance(b, c).Some? ==>
              && PooledVariance(b, c).value >= 0.0
              && (PooledVariance(b, c).value == 0.0 <==> IsConstant(b) && IsConstant(c))
    ensures PooledVariance(b, c) == PooledVariance(c, b)
    ensures Delta(b, c).Some? ==> Delta(c, b) == Some(-Delta(b, c).value)
  {
    hide Spread, Sum, IsConstant;
    SpreadZeroIff(b);
    SpreadZeroIff(c);
    if PooledVariance(b, c).Some? {
      ShareOfSpread(Spread(b) + Spread(c), Freedom(b) + Freedom(c));
    }
  }

  lemma ShareOfSpread(x: real, d: nat)
    requires 0.0 <= x && 0 < d
    ensures 0.0 <= x / d as real && (x / d as real == 0.0 <==> x == 0.0)
  {
    assert x / d as real * d as real == x;
  }

  // ---- the spread by pairs ----

  function SumOfSquares(v: seq<real>): real {
    if v == [] then 0.0 else SumOfSquares(v[..|v| - 1]) + Square(v[|v| - 1])
  }

  /** The squared differences of all pairs. */
  function PairSum(v: seq<real>): real {
    if v == [] then 0.0 else PairSum(v[..|v| - 1]) + SumSquares(v[..|v| - 1], v[|v| - 1])
  }

  lemma SquareOfDifference(a: real, m: real)
    ensures Square(a - m) == Square(a) - 2.0 * Product(m, a) + Square(m)
  {
  }

  lemma ProductSum(m: real, a: real, b: real)
    ensures Product(m, a + b) == Product(m, a) + Product(m, b)
  {
  }

  lemma {:induction false} SumSquaresExpands(v: seq<real>, m: real)
    ensures SumSquares(v, m) == SumOfSquares(v) - 2.0 * Product(m, Sum(v)) + Scaled(Square(m), |v|)
  {
    hide Product, Square, Scaled;
    if v == [] {
      ProductZero(m);
      ProductSwap(0.0, m);
      ScaledZero(Square(m));
    } else {
      var n := |v| - 1;
      SumSquaresExpands(v[..n], m);
      SquareOfDifference(v[n], m);
      ProductSum(m, Sum(v[..n]), v[n]);
      OneMoreTimes(Square(m), n);
    }
  }

  lemma ProductSwap(x: real, y: real)
    ensures Product(x, y) == Product(y, x)
  {
  }

  /** The pairs are counted by sums alone. */
  lemma {:induction false} PairSumExpands(v: seq<real>)
    ensures PairSum(v) == Scaled(SumOfSquares(v), |v|) - Square(Sum(v))
  {
    hide Product, Square, Scaled, SumSquares;
    if v == [] {
      ScaledZero(0.0);
      SquarePositive(0.0);
    } else {
      var n := |v| - 1;
      var x, q, s := v[n], SumOfSquares(v[..n]), Sum(v[..n]);
      PairSumExpands(v[..n]);
      SumSquaresExpands(v[..n], x);
      SquareOfSum(s, x);
      OneMoreTimes(q + Square(x), n);
      ScaledSum(q, Square(x), n);
    }
  }

  lemma SquareOfSum(s: real, x: real)
    ensures Square(s + x) == Square(s) + 2.0 * Product(x, s) + Square(x)
  {
  }

  lemma ScaledSum(a: real, b: real, k: nat)
    ensures Scaled(a + b, k) == Scaled(a, k) + Scaled(b, k)
  {
  }

  /** An arm's spread is the squared differences of its pairs, over its size. */
  lemma SpreadIsPairwise(v: seq<real>)
    requires |v| >= 2
    ensures Spread(v) == PairSum(v) / |v| as real
  {
    hide Square, Product, Scaled, SumSquares, PairSum, SumOfSquares, Sum;
    var n, s, q := |v|, Sum(v), SumOfSquares(v);
    SumSquaresExpands(v, Mean(v).value);
    PairSumExpands(v);
    PairQuotient(q, s, n);
  }

  lemma PairQuotient(q: real, s: real, n: nat)
    requires 0 < n
    ensures var m := s / n as real;
            (Scaled(q, n) - Square(s)) / n as real == q - 2.0 * Product(m, s) + Scaled(Square(m), n)
  {
    var r, m := n as real, s / n as real;
    assert m * r == s;
    assert m * s == (m * m) * r;
    assert q * r - s * s == (q - m * s) * r;
    WholeQuotient(q - m * s, r);
  }

  /** The pooled variance in terms of pairs, with the degrees of freedom spelled out;
      two values against one give half their squared difference. */
  lemma VarianceIsPairwise(b: seq<real>, c: seq<real>)
    ensures |b| >= 2 && |c| >= 2 ==>
              PooledVariance(b, c)
                == Some((PairSum(b) / |b| as real + PairSum(c) / |c| as real) / (|b| - 1 + (|c| - 1)) as real)
    ensures |b| >= 2 && |c| < 2 ==> PooledVariance(b, c) == Some(PairSum(b) / |b| as real / (|b| - 1) as real)
    ensures |b| < 2 && |c| >= 2 ==> PooledVariance(b, c) == Some(PairSum(c) / |c| as real / (|c| - 1) as real)
    ensures |b| == 2 && |c| == 1 ==> PooledVariance(b, c) == Some(Square(b[0] - b[1]) / 2.0)
  {
    hide PairSum, SumSquares, Square;
    if |b| >= 2 { SpreadIsPairwise(b); }
    if |c| >= 2 { SpreadIsPairwise(c); }
    if |b| == 2 && |c| == 1 { PairOfTwo(b); }
  }

  lemma PairOfTwo(v: seq<real>)
    requires |v| == 2
    ensures PairSum(v) == Square(v[0] - v[1])
  {
    hide Square;
    assert v[..1] == [v[0]] && v[..1][..0] == [];
    assert SumSquares([v[0]], v[1]) == SumSquares([], v[1]) + Square(v[0] - v[1]) by { assert [v[0]][..0] == []; }
    assert PairSum([v[0]]) == PairSum([]) + SumSquares([], v[0]) by { assert [v[0]][..0] == []; }
  }

  /** sd is the non-negative square root of the pooled variance, where there is one. */
  ghost predicate IsWithinSd(sd: Option<real>, b: seq<real>, c: seq<real>) {
    && (sd.Some? <==> |b| >= 2 || |c| >= 2)
    && (sd.Some? ==> sd.value >= 0.0 && Square(sd.value) == PooledVariance(b, c).value)
  }

  /** effect is delta in units of sd, unless neither arm varies at all. */
  ghost predicate IsEffect(effect: Option<real>, sd: Option<real>, delta: Option<real>, b: seq<real>, c: seq<real>) {
    && (effect.Some? <==> sd.Some? && delta.Some? && !(IsConstant(b) && IsConstant(c)))
    && (effect.Some? ==> effect.value * sd.value == delta.value)
  }

  /** The pooled standard deviation and the effect size in units of it. */
  method WithinArms(b: seq<real>, c: seq<real>, delta: Option<real>, root: real)
    returns (withinSd: Option<real>, effectSize: Option<real>)
    requires var v := PooledVariance(b, c); v.Some? ==> 0.0 <= root && Square(root) == v.value
    ensures IsWithinSd(withinSd, b, c) && IsEffect(effectSize, withinSd, delta, b, c)
  {
    var ss, df := 0.0, 0;
    if |b| >= 2 {
      ss, df := ss + SumSquares(b, Mean(b).value), df + |b| - 1;
    }
    if |c| >= 2 {
      ss, df := ss + SumSquares(c, Mean(c).value), df + |c| - 1;
    }
    assert PooledVariance(b, c) == if df > 0 then Some(ss / df as real) else None;
    VarianceMeans(b, c);
    SquarePositive(root);
    hide PooledVariance, IsConstant, SumSquares, Square;
    withinSd := if df > 0 then Some(root) else None;
    effectSize := None;
    if withinSd.Some? && delta.Some? && root > 0.0 {
      effectSize := Some(delta.value / root);
      DividedBack(delta.value, root);
    }
  }

  lemma DividedBack(x: real, d: real)
    requires d != 0.0
    ensures x / d * d == x
  {
  }

  /** Compare two arms on one metric at the two-sided threshold alpha. `root` is
      what the square root of the pooled variance comes to. */
  method Compare(metric: string, baseline: Arm, candidate: Arm, alpha: real, root: real) returns (r: Comparison)
    requires var v := PooledVariance(baseline.values, candidate.values);
             v.Some? ==> 0.0 <= root && Square(root) == v.value
    ensures r.metric == metric && r.baseline == baseline.name && r.candidate == candidate.name
    ensures r.baselineN == |baseline.values| && r.candidateN == |candidate.values|
    ensures r.delta.Some? <==> baseline.values != [] && candidate.values != []
    ensures r.delta.Some? ==>
              var b, c := baseline.values, candidate.values;
              r.delta.value == Sum(c) / |c| as real - Sum(b) / |b| as real
    ensures IsWithinSd(r.withinSd, baseline.values, candidate.values)
    ensures IsEffect(r.effectSize, r.withinSd, r.delta, baseline.values, candidate.values)
    ensures var b, c := baseline.values, candidate.values;
            if b == [] || c == [] then
              r.minAchievableP == 1.0 && r.verdict.Indeterminate? && r.verdict.reason == NoRuns
            else
              && r.minAchievableP == MinAchievableP(|b|, |c|)
              && (r.minAchievableP > alpha ==> r.verdict.Indeterminate? && r.verdict.reason == Underpowered)
              && (r.minAchievableP <= alpha && Choose(|b| + |c|, |b|) > MAX_PERMUTATIONS ==>
                    r.verdict.Indeterminate? && r.verdict.reason == TooManyPermutations)
              && (r.minAchievableP <= alpha && Choose(|b| + |c|, |b|) <= MAX_PERMUTATIONS ==>
                    r.verdict == Decided(ExactP(b, c), ExactP(b, c) <= alpha))
    ensures r.verdict.Decided? <==> Decides(|baseline.values|, |candidate.values|, alpha)
    ensures r.verdict.Indeterminate? ==> Advised(r.verdict.seedsPerArmNeeded, alpha)
  {
    var b, c := baseline.values, candidate.values;
    var n, m := |b|, |c|;
    var delta := Delta(b, c);
    var withinSd, effectSize := WithinArms(b, c, delta, root);
    hide IsWithinSd, IsEffect, PooledVariance;
    var total := Binomial(n + m, n);
    ChoosePositive(n + m, n);
    var floor := 2.0 / total as real;
    var minP := if floor < 1.0 then floor else 1.0;
    var seeds := SeedsNeeded(alpha);
    r := Comparison(metric, baseline.name, candidate.name, n, m, delta, withinSd, effectSize, 1.0,
                    Indeterminate(NoRuns, seeds));
    if n == 0 || m == 0 {
      return;
    }
    if minP > alpha {
      r := r.(minAchievableP := minP, verdict := Indeterminate(Underpowered, seeds));
      return;
    }
    if total > MAX_PERMUTATIONS {
      r := r.(minAchievableP := minP, verdict := Indeterminate(TooManyPermutations, seeds));
      return;
    }
    var extreme, seen := Enumerate(b, c, Abs(delta.value), total);
    var pValue := extreme as real / (if seen > 1 then seen else 1) as real;
    r := r.(minAchievableP := minP, verdict := Decided(pValue, pValue <= alpha));
  }
}
