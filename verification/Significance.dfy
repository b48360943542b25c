/** What the exact test is for (src/run_ledger.rs): it cannot find significance too
    often, however few runs there are. */
module Significance {
  import opened Combinations
  import opened Labellings
  import opened PermutationTest

  // ---- the arms of a relabelling ----

  /** The values at the chosen positions, in order. */
  function Pick(v: seq<real>, s: set<nat>): seq<real> {
    if v == [] then []
    else Pick(v[..|v| - 1], s) + (if |v| - 1 in s then [v[|v| - 1]] else [])
  }

  function Rest(s: set<nat>, size: nat): set<nat> { Positions(size) - s }

  lemma {:induction false} PickAt(v: seq<real>, s: set<nat>)
    ensures |Pick(v, s)| == |Ordered(s, |v|)|
    ensures forall i :: 0 <= i < |Pick(v, s)| ==> Ordered(s, |v|)[i] < |v| && Pick(v, s)[i] == v[Ordered(s, |v|)[i]]
  {
    if v != [] { PickAt(v[..|v| - 1], s); }
  }

  lemma {:induction false} SumPick(v: seq<real>, s: set<nat>)
    ensures Sum(Pick(v, s)) == SumIn(v, s)
  {
    if v != [] {
      var n := |v| - 1;
      SumPick(v[..n], s);
      if n in s {
        assert Pick(v, s)[..|Pick(v, s)| - 1] == Pick(v[..n], s);
      } else {
        assert Pick(v, s) == Pick(v[..n], s);
      }
    }
  }

  // ---- rearranging positions ----

  ghost predicate IsPermutation(pi: seq<nat>) {
    && (forall i :: 0 <= i < |pi| ==> pi[i] < |pi|)
    && (forall i, j :: 0 <= i < j < |pi| ==> pi[i] != pi[j])
    && (forall x: nat :: x < |pi| ==> x in pi)
  }

  function Image(pi: seq<nat>, t: set<nat>): set<nat> {
    set i | i in t && i < |pi| :: pi[i]
  }

  function Preimage(pi: seq<nat>, u: set<nat>): set<nat> {
    set i | 0 <= i < |pi| && pi[i] in u
  }

  lemma ImageWithout(pi: seq<nat>, t: set<nat>, x: nat)
    requires IsPermutation(pi) && t <= Positions(|pi|) && x in t
    ensures x < |pi| && Image(pi, t) == Image(pi, t - {x}) + {pi[x]} && pi[x] !in Image(pi, t - {x})
  {
    assert x in Positions(|pi|);
    forall i | i in t && i != x && i < |pi| ensures pi[i] != pi[x] { assert i < x || x < i; }
  }

  lemma {:induction false} ImageCard(pi: seq<nat>, t: set<nat>)
    requires IsPermutation(pi) && t <= Positions(|pi|)
    ensures |Image(pi, t)| == |t| && Image(pi, t) <= Positions(|pi|)
  {
    hide IsPermutation, Positions;
    if t == {} {
      assert Image(pi, t) == {};
    } else {
      var x :| x in t;
      ImageCard(pi, t - {x});
      ImageWithout(pi, t, x);
      InRange(pi, x);
    }
  }

  lemma InRange(pi: seq<nat>, x: nat)
    requires IsPermutation(pi) && x < |pi|
    ensures pi[x] in Positions(|pi|)
  {
  }

  lemma ImageOfPreimage(pi: seq<nat>, u: set<nat>)
    requires IsPermutation(pi) && u <= Positions(|pi|)
    ensures Preimage(pi, u) <= Positions(|pi|) && Image(pi, Preimage(pi, u)) == u
  {
    forall y | y in u ensures y in Image(pi, Preimage(pi, u)) {
      assert y in Positions(|pi|) && y in pi;
      var i :| 0 <= i < |pi| && pi[i] == y;
      assert i in Preimage(pi, u);
    }
  }

  lemma PreimageOfImage(pi: seq<nat>, t: set<nat>)
    requires IsPermutation(pi) && t <= Positions(|pi|)
    ensures Preimage(pi, Image(pi, t)) == t
  {
    forall i | i in Preimage(pi, Image(pi, t)) ensures i in t {
      var j :| j in t && j < |pi| && pi[j] == pi[i];
      assert !(i < j) && !(j < i);
    }
    forall i | i in t ensures i in Preimage(pi, Image(pi, t)) { assert i in Positions(|pi|) && pi[i] in Image(pi, t); }
  }

  lemma {:induction false} SumImage(w: seq<real>, v: seq<real>, pi: seq<nat>, t: set<nat>)
    requires IsPermutation(pi) && |w| == |v| == |pi| && t <= Positions(|pi|)
    requires forall i :: 0 <= i < |pi| ==> pi[i] < |v| && w[i] == v[pi[i]]
    ensures SumIn(w, t) == SumIn(v, Image(pi, t))
  {
    hide IsPermutation, SumIn, Positions;
    if t == {} {
      assert Image(pi, t) == {};
      SumInNone(w, t);
      SumInNone(v, {});
    } else {
      var x :| x in t;
      SumImage(w, v, pi, t - {x});
      ImageWithout(pi, t, x);
      SumInAdd(w, t - {x}, x);
      SumInAdd(v, Image(pi, t - {x}), pi[x]);
      assert t - {x} + {x} == t;
    }
  }

  /** The chosen positions in order, then the others. */
  function Arrangement(s: set<nat>, size: nat): seq<nat> { Ordered(s, size) + Ordered(Rest(s, size), size) }

  lemma ArrangementIsPermutation(s: set<nat>, n: nat, m: nat)
    requires s in Choices(n + m, n)
    ensures IsPermutation(Arrangement(s, n + m)) && |Arrangement(s, n + m)| == n + m
    ensures |Ordered(s, n + m)| == n && |Ordered(Rest(s, n + m), n + m)| == m
  {
    hide Choices, Positions;
    var size := n + m;
    RestIsChoice(s, n, m);
    OrderedOfChoice(s, size, n);
    OrderedOfChoice(Rest(s, size), size, m);
    hide Ordered, SetOf;
    JoinedIsPermutation(Ordered(s, size), Ordered(Rest(s, size), size), s, size);
  }

  lemma JoinedIsPermutation(a: seq<nat>, b: seq<nat>, s: set<nat>, size: nat)
    requires |a| + |b| == size && IsCombo(a, 0, size, |a|) && IsCombo(b, 0, size, |b|)
    requires forall x :: x in a <==> x in s && x < size
    requires forall x :: x in b <==> x in Rest(s, size) && x < size
    ensures IsPermutation(a + b)
  {
    forall i, j | 0 <= i < j < size ensures (a + b)[i] != (a + b)[j] {
      if i < |a| <= j { assert a[i] in a && b[j - |a|] in b; }
    }
    forall x: nat | x < size ensures x in a + b { assert x in Positions(size) && (x in a || x in b); }
  }

  lemma RestIsChoice(s: set<nat>, n: nat, m: nat)
    requires s in Choices(n + m, n)
    ensures Rest(s, n + m) in Choices(n + m, m)
  {
    hide Positions;
    PositionsCard(n + m);
    RestCard(Positions(n + m), s);
  }

  lemma RestCard(all: set<nat>, s: set<nat>)
    requires s <= all
    ensures |all - s| == |all| - |s|
  {
    assert all == s + (all - s);
  }

  // ---- the test of a relabelling ----

  /** The relabellings of v at least as far apart as s. */
  ghost function AsExtremeAs(v: seq<real>, s: set<nat>, n: nat, m: nat): set<set<nat>>
    requires 0 < n && 0 < m
  {
    set u | u in Choices(n + m, n) && Gap(v, u, n, m) >= Gap(v, s, n, m) - SLACK
  }

  lemma ArmsOf(v: seq<real>, s: set<nat>, n: nat, m: nat)
    requires 0 < n && 0 < m && |v| == n + m && s in Choices(n + m, n)
    ensures var b, c, pi := Pick(v, s), Pick(v, Rest(s, n + m)), Arrangement(s, n + m);
            && |b| == n && |c| == m && |pi| == n + m && IsPermutation(pi)
            && (forall i :: 0 <= i < n + m ==> pi[i] < n + m && (b + c)[i] == v[pi[i]])
            && Sum(b + c) == Sum(v) && Observed(b, c) == Gap(v, s, n, m)
  {
    hide Sum, SumIn, Positions, Ordered, Pick, IsPermutation, Choices, Observed, MeanGap;
    var r := Rest(s, n + m);
    ArrangementIsPermutation(s, n, m);
    PickAt(v, s);
    PickAt(v, r);
    SumPick(v, s);
    SumPick(v, r);
    var b, c := Pick(v, s), Pick(v, r);
    SumConcat(b, c);
    RestComplements(v, s, n + m);
    ObservedGap(b, c);
  }

  lemma RestComplements(v: seq<real>, s: set<nat>, size: nat)
    requires |v| == size
    ensures SumIn(v, s) + SumIn(v, Rest(s, size)) == Sum(v)
  {
    SumInComplement(v, s, Rest(s, size));
  }

  /** Rearranging the pooled runs takes extreme relabellings to extreme ones. */
  lemma ImageIsExtreme(v: seq<real>, s: set<nat>, n: nat, m: nat, t: set<nat>)
    requires 0 < n && 0 < m && |v| == n + m && s in Choices(n + m, n)
    requires t <= Positions(n + m)
    ensures var b, c, pi := Pick(v, s), Pick(v, Rest(s, n + m)), Arrangement(s, n + m);
            && |pi| == n + m && IsPermutation(pi) && |b| == n && |c| == m
            && (t in Extreme(b, c) <==> Image(pi, t) in AsExtremeAs(v, s, n, m))
  {
    hide Sum, SumIn, Pick, IsPermutation, Observed, MeanGap, Arrangement, Positions, Image;
    ArmsOf(v, s, n, m);
    var b, c, pi := Pick(v, s), Pick(v, Rest(s, n + m)), Arrangement(s, n + m);
    SumImage(b + c, v, pi, t);
    ImageCard(pi, t);
    assert Gap(b + c, t, n, m) == Gap(v, Image(pi, t), n, m);
  }

  /** As many relabellings are extreme for the arms that s makes as are for s. */
  lemma SameCount(v: seq<real>, s: set<nat>, n: nat, m: nat)
    requires 0 < n && 0 < m && |v| == n + m && s in Choices(n + m, n)
    ensures var b, c := Pick(v, s), Pick(v, Rest(s, n + m));
            |b| == n && |c| == m && |Extreme(b, c)| == |AsExtremeAs(v, s, n, m)|
  {
    hide Sum, SumIn, Pick, IsPermutation, Observed, Gap, Arrangement, Positions, Image, Preimage;
    ArmsOf(v, s, n, m);
    var b, c, pi := Pick(v, s), Pick(v, Rest(s, n + m)), Arrangement(s, n + m);
    var x, y := Extreme(b, c), AsExtremeAs(v, s, n, m);
    forall t | t in x ensures Image(pi, t) in y && Preimage(pi, Image(pi, t)) == t {
      ImageIsExtreme(v, s, n, m, t);
      PreimageOfImage(pi, t);
    }
    InjectionBounds(x, y, t => Image(pi, t));
    forall u | u in y ensures Preimage(pi, u) in x && Image(pi, Preimage(pi, u)) == u {
      ImageOfPreimage(pi, u);
      ImageIsExtreme(v, s, n, m, Preimage(pi, u));
    }
    InjectionBounds(y, x, u => Preimage(pi, u));
  }

  /** The p-value the test gives when s is taken for the baseline. */
  ghost function LabelledP(v: seq<real>, s: set<nat>): real {
    var b, c := Pick(v, s), Pick(v, Rest(s, |v|));
    if b == [] || c == [] then 1.0 else ExactP(b, c)
  }

  /** The relabellings the test would call significant at alpha. */
  ghost function Called(v: seq<real>, n: nat, alpha: real): set<set<nat>> {
    set s | s in Choices(|v|, n) && LabelledP(v, s) <= alpha
  }

  lemma {:induction false} LeastGap(a: set<set<nat>>, v: seq<real>, n: nat, m: nat) returns (s: set<nat>)
    requires a != {} && 0 < n && 0 < m
    ensures s in a && forall t :: t in a ==> Gap(v, s, n, m) <= Gap(v, t, n, m)
  {
    hide Gap;
    s :| s in a;
    if a != {s} {
      var rest := a - {s};
      assert rest != {};
      var t := LeastGap(rest, v, n, m);
      if Gap(v, t, n, m) < Gap(v, s, n, m) { s := t; }
    }
  }

  /** It cannot lie at small n: whatever the pooled runs, their sizes and alpha, at
      most a share alpha of the relabellings is called significant. */
  lemma CannotLie(v: seq<real>, n: nat, m: nat, alpha: real)
    requires 0 < n && 0 < m && |v| == n + m && 0.0 <= alpha
    ensures |Choices(n + m, n)| > 0
    ensures |Called(v, n, alpha)| as real / |Choices(n + m, n)| as real <= alpha
  {
    hide Gap, Choices, LabelledP, Choose, Called, AsExtremeAs;
    var all, called := Choices(n + m, n), Called(v, n, alpha);
    CombosCoverChoices(n + m, n);
    ChoosePositive(n + m, n);
    if called == {} {
      NoShare(|all|);
    } else {
      var s := LeastGap(called, v, n, m);
      CalledAreExtreme(v, n, m, alpha, s);
      SubsetCard(called, AsExtremeAs(v, s, n, m));
      QuotientMonotone(|called|, |AsExtremeAs(v, s, n, m)|, |all|);
      LabelledPIs(v, s, n, m);
    }
  }

  lemma NoShare(y: nat)
    requires y > 0
    ensures 0 as real / y as real == 0.0
  {
  }

  /** Everything called is at least as far apart as the least of it. */
  lemma CalledAreExtreme(v: seq<real>, n: nat, m: nat, alpha: real, s: set<nat>)
    requires 0 < n && 0 < m && |v| == n + m && s in Called(v, n, alpha)
    requires forall t :: t in Called(v, n, alpha) ==> Gap(v, s, n, m) <= Gap(v, t, n, m)
    ensures Called(v, n, alpha) <= AsExtremeAs(v, s, n, m)
    ensures s in Choices(n + m, n) && LabelledP(v, s) <= alpha
  {
    hide Gap, Choices, LabelledP;
  }

  lemma LabelledPIs(v: seq<real>, s: set<nat>, n: nat, m: nat)
    requires 0 < n && 0 < m && |v| == n + m && s in Choices(n + m, n)
    ensures |Choices(n + m, n)| > 0
    ensures LabelledP(v, s) == |AsExtremeAs(v, s, n, m)| as real / |Choices(n + m, n)| as real
  {
    hide Extreme, AsExtremeAs, Choices, ExactP;
    SameCount(v, s, n, m);
    ExactPIsAShare(Pick(v, s), Pick(v, Rest(s, n + m)));
  }
}
