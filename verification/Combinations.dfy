/** Binomial coefficients and the lexicographic enumeration of fixed-size
    subsets: the combinatorial core of the exact permutation test. */
module Combinations {
  import opened Arithmetic

  /** Pascal's coefficient: the reference for the multiplicative loop. */
  function Choose(n: nat, k: nat): nat
    decreases n
  {
    if k == 0 then 1
    else if n == 0 then 0
    else Choose(n - 1, k - 1) + Choose(n - 1, k)
  }

  lemma {:induction false} ChooseBeyond(n: nat, k: nat)
    requires k > n
    ensures Choose(n, k) == 0
  {
    if n > 0 {
      ChooseBeyond(n - 1, k - 1);
      ChooseBeyond(n - 1, k);
    }
  }

  lemma {:induction false} ChooseAll(n: nat)
    ensures Choose(n, n) == 1
  {
    if n > 0 {
      ChooseAll(n - 1);
      ChooseBeyond(n - 1, n);
    }
  }

  lemma {:induction false} ChoosePositive(n: nat, k: nat)
    requires k <= n
    ensures Choose(n, k) >= 1
  {
    if k > 0 && n > 0 {
      ChoosePositive(n - 1, k - 1);
    }
  }

  lemma {:induction false} ChooseSymmetric(n: nat, k: nat)
    requires k <= n
    ensures Choose(n, k) == Choose(n, n - k)
    decreases n
  {
    if k == 0 || k == n {
      ChooseAll(n);
    } else {
      ChooseSymmetric(n - 1, k - 1);
      ChooseSymmetric(n - 1, k);
    }
  }

  /** The identity that makes every division of the multiplicative loop exact. */
  lemma {:induction false} ChooseStep(n: nat, i: nat)
    requires i <= n
    ensures (i + 1) * Choose(n, i + 1) == (n - i) * Choose(n, i)
    decreases n
  {
    if n == 0 {
    } else if i == 0 {
      ChooseStep(n - 1, 0);
    } else if i == n {
      ChooseBeyond(n, n + 1);
    } else {
      ChooseStep(n - 1, i);
      ChooseStep(n - 1, i - 1);
      StepArithmetic(n, i, Choose(n - 1, i - 1), Choose(n - 1, i), Choose(n - 1, i + 1));
    }
  }

  lemma StepArithmetic(n: nat, i: nat, a: nat, b: nat, c: nat)
    requires (i + 1) * c == (n - 1 - i) * b && i * b == (n - i) * a
    ensures (i + 1) * (b + c) == (n - i) * (a + b)
  {
  }

  lemma {:induction false} CentralChooseGrows(k: nat)
    ensures Choose(2 * (k + 1), k + 1) >= 2 * Choose(2 * k, k)
  {
    var n := 2 * k + 1;
    assert Choose(n + 1, k + 1) == Choose(n, k) + Choose(n, k + 1);
    ChooseSymmetric(n, k);
    if k > 0 {
      assert Choose(n, k) == Choose(2 * k, k - 1) + Choose(2 * k, k);
    }
  }

  /** Each central coefficient from the one before. */
  lemma CentralChooseStep(k: nat)
    ensures (k + 1) * Choose(2 * (k + 1), k + 1) == 2 * (2 * k + 1) * Choose(2 * k, k)
  {
    hide Choose;
    ChooseStep(2 * k + 1, k);
    ChooseSymmetric(2 * k + 1, k);
    ChooseStep(2 * k, k);
    PascalAt(2 * k + 1, k + 1);
    PascalAt(2 * k, k + 1);
    var a, b := Choose(2 * k, k), Choose(2 * k, k + 1);
    assert Choose(2 * k + 1, k + 1) == a + b && Choose(2 * (k + 1), k + 1) == 2 * (a + b);
    assert (k + 1) * (a + b) == (k + 1) * a + (k + 1) * b;
  }

  lemma PascalAt(n: nat, k: nat)
    requires 0 < k
    ensures Choose(n + 1, k) == Choose(n, k - 1) + Choose(n, k)
  {
  }

  /** The multiplicative loop: early exit for k > n, the smaller of k and n - k,
      one multiplication and one exact division per round. */
  method Binomial(n: nat, k: nat) returns (acc: nat)
    ensures acc == Choose(n, k)
  {
    if k > n {
      ChooseBeyond(n, k);
      return 0;
    }
    ChooseSymmetric(n, k);
    var j := if k <= n - k then k else n - k;
    acc := 1;
    for i := 0 to j
      invariant acc == Choose(n, i)
    {
      ChooseStep(n, i);
      assert acc * (n - i) == (i + 1) * Choose(n, i + 1);
      ExactQuotient(i + 1, Choose(n, i + 1));
      acc := acc * (n - i) / (i + 1);
    }
  }

  /** A strictly increasing choice of k positions out of [lo, hi). */
  ghost predicate IsCombo(c: seq<nat>, lo: nat, hi: nat, k: nat) {
    && |c| == k
    && (forall i :: 0 <= i < k ==> lo <= c[i] < hi)
    && (forall i, j :: 0 <= i < j < k ==> c[i] < c[j])
  }

  /** Lexicographic order on sequences of equal length. */
  ghost predicate LexLess(c: seq<nat>, d: seq<nat>) {
    exists p :: DiffersFirstAt(c, d, p)
  }

  ghost predicate DiffersFirstAt(c: seq<nat>, d: seq<nat>, p: nat) {
    p < |c| && p < |d| && c[..p] == d[..p] && c[p] < d[p]
  }

  function Prepend(x: nat, cs: seq<seq<nat>>): (r: seq<seq<nat>>)
    ensures |r| == |cs|
    ensures forall i :: 0 <= i < |cs| ==> r[i] == [x] + cs[i]
  {
    seq(|cs|, i requires 0 <= i < |cs| => [x] + cs[i])
  }

  /** Every combination, by the textbook recursion: those that take lo first,
      then those that skip it. */
  function Combos(lo: nat, hi: nat, k: nat): seq<seq<nat>>
    requires lo <= hi
    decreases hi - lo
  {
    if k == 0 then [[]]
    else if lo == hi then []
    else Prepend(lo, Combos(lo + 1, hi, k - 1)) + Combos(lo + 1, hi, k)
  }

  lemma CombosUnfold(lo: nat, hi: nat, k: nat, all: seq<seq<nat>>)
    returns (a: seq<seq<nat>>, b: seq<seq<nat>>)
    requires lo < hi && 0 < k && all == Combos(lo, hi, k)
    ensures a == Combos(lo + 1, hi, k - 1) && b == Combos(lo + 1, hi, k)
    ensures Joined(all, lo, a, b)
  {
    a, b := Combos(lo + 1, hi, k - 1), Combos(lo + 1, hi, k);
  }

  /** all is a with x put in front of every member, followed by b. */
  ghost predicate Joined(all: seq<seq<nat>>, x: nat, a: seq<seq<nat>>, b: seq<seq<nat>>) {
    && |all| == |a| + |b|
    && (forall i :: 0 <= i < |a| ==> all[i] == [x] + a[i])
    && (forall i :: 0 <= i < |b| ==> all[|a| + i] == b[i])
  }

  lemma {:induction false} CombosCount(lo: nat, hi: nat, k: nat)
    requires lo <= hi
    ensures |Combos(lo, hi, k)| == Choose(hi - lo, k)
    decreases hi - lo
  {
    if k > 0 && lo < hi {
      CombosCount(lo + 1, hi, k - 1);
      CombosCount(lo + 1, hi, k);
    }
  }

  lemma {:induction false} CombosSound(lo: nat, hi: nat, k: nat, i: nat)
    requires lo <= hi && i < |Combos(lo, hi, k)|
    ensures IsCombo(Combos(lo, hi, k)[i], lo, hi, k)
    decreases hi - lo
  {
    hide Combos;
    CombosCount(lo, hi, k);
    if k > 0 && lo < hi {
      var all := Combos(lo, hi, k);
      var a, b := CombosUnfold(lo, hi, k, all);
      if i < |a| {
        CombosSound(lo + 1, hi, k - 1, i);
      } else {
        CombosSound(lo + 1, hi, k, i - |a|);
        assert all[|a| + (i - |a|)] == b[i - |a|];
      }
    } else {
      CombosOfNone(lo, hi);
    }
  }

  lemma {:induction false} CombosComplete(lo: nat, hi: nat, k: nat, c: seq<nat>) returns (i: nat)
    requires lo <= hi && IsCombo(c, lo, hi, k)
    ensures i < |Combos(lo, hi, k)| && Combos(lo, hi, k)[i] == c
    decreases hi - lo
  {
    hide Combos;
    if k == 0 {
      CombosOfNone(lo, hi);
      i := 0;
    } else {
      assert lo <= c[0] < hi;
      var a, b := CombosUnfold(lo, hi, k, Combos(lo, hi, k));
      if c[0] == lo {
        i := CombosComplete(lo + 1, hi, k - 1, c[1..]);
        assert [lo] + c[1..] == c;
      } else {
        i := CombosComplete(lo + 1, hi, k, c);
        i := |a| + i;
      }
    }
  }

  lemma {:induction false} CombosSorted(lo: nat, hi: nat, k: nat, i: nat, j: nat)
    requires lo <= hi && i < j < |Combos(lo, hi, k)|
    ensures LexLess(Combos(lo, hi, k)[i], Combos(lo, hi, k)[j])
    decreases hi - lo
  {
    hide Combos;
    CombosCount(lo, hi, k);
    if k > 0 && lo < hi {
      var all := Combos(lo, hi, k);
      var a, b := CombosUnfold(lo, hi, k, all);
      if j < |a| {
        CombosSorted(lo + 1, hi, k - 1, i, j);
        var p: nat :| DiffersFirstAt(a[i], a[j], p);
        assert all[i][..p + 1] == [lo] + a[i][..p] && all[j][..p + 1] == [lo] + a[j][..p];
        assert DiffersFirstAt(all[i], all[j], p + 1);
      } else if i >= |a| {
        CombosSorted(lo + 1, hi, k, i - |a|, j - |a|);
        assert all[|a| + (i - |a|)] == b[i - |a|] && all[|a| + (j - |a|)] == b[j - |a|];
      } else {
        CombosSound(lo + 1, hi, k, j - |a|);
        assert all[|a| + (j - |a|)] == b[j - |a|] && all[i][..0] == all[j][..0];
        assert DiffersFirstAt(all[i], all[j], 0);
      }
    }
  }

  /** [x, x + 1, ..., x + k - 1] */
  function Run(x: nat, k: nat): (r: seq<nat>)
    ensures |r| == k && forall i :: 0 <= i < k ==> r[i] == x + i
  {
    seq(k, i requires 0 <= i => x + i)
  }

  ghost predicate RunsFromTo(cs: seq<seq<nat>>, first: seq<nat>, last: seq<nat>) {
    |cs| > 0 && cs[0] == first && cs[|cs| - 1] == last
  }

  lemma CombosOfNone(lo: nat, hi: nat)
    requires lo <= hi
    ensures Combos(lo, hi, 0) == [[]]
  {
  }

  lemma {:induction false} CombosEnds(lo: nat, hi: nat, k: nat)
    requires lo + k <= hi
    ensures RunsFromTo(Combos(lo, hi, k), Run(lo, k), Run(hi - k, k))
    decreases hi - lo
  {
    hide Combos;
    var all := Combos(lo, hi, k);
    if k == 0 {
      CombosOfNone(lo, hi);
    } else {
      var a, b := CombosUnfold(lo, hi, k, all);
      CombosEnds(lo + 1, hi, k - 1);
      if lo + 1 + k <= hi {
        CombosEnds(lo + 1, hi, k);
      } else {
        CombosCount(lo + 1, hi, k);
        ChooseBeyond(hi - lo - 1, k);
      }
      EndsJoined(lo, hi, k, all, a, b);
    }
  }

  lemma EndsJoined(lo: nat, hi: nat, k: nat, all: seq<seq<nat>>, a: seq<seq<nat>>, b: seq<seq<nat>>)
    requires 0 < k && lo + k <= hi && Joined(all, lo, a, b)
    requires RunsFromTo(a, Run(lo + 1, k - 1), Run(hi - (k - 1), k - 1))
    requires if lo + 1 + k <= hi then RunsFromTo(b, Run(lo + 1, k), Run(hi - k, k)) else b == []
    ensures RunsFromTo(all, Run(lo, k), Run(hi - k, k))
  {
    assert all[0] == [lo] + a[0] == Run(lo, k);
    if b != [] {
      assert all[|a| + (|b| - 1)] == b[|b| - 1];
    } else {
      assert all[|all| - 1] == [lo] + a[|a| - 1] == Run(hi - k, k);
    }
  }

  /** d is what the in-place update makes of c: p is the last position that can
      still move; it moves by one and everything after it restarts right behind. */
  ghost predicate StepAt(c: seq<nat>, d: seq<nat>, hi: nat, p: nat) {
    && |c| == |d| <= hi && p < |c|
    && c[p] != p + hi - |c|
    && (forall q :: p < q < |c| ==> c[q] == q + hi - |c|)
    && d[..p] == c[..p]
    && (forall q :: p <= q < |c| ==> d[q] == c[p] + 1 + (q - p))
  }

  /** The in-place update takes each combination to the next one in the list. */
  lemma {:induction false} CombosStep(lo: nat, hi: nat, k: nat, i: nat) returns (p: nat)
    requires lo + k <= hi && i + 1 < |Combos(lo, hi, k)|
    ensures StepAt(Combos(lo, hi, k)[i], Combos(lo, hi, k)[i + 1], hi, p)
    decreases hi - lo
  {
    hide Combos;
    var all := Combos(lo, hi, k);
    CombosCount(lo, hi, k);
    var a, b := CombosUnfold(lo, hi, k, all);
    if i + 1 < |a| {
      p := CombosStep(lo + 1, hi, k - 1, i);
      CombosSound(lo + 1, hi, k - 1, i);
      StepUnderPrefix(lo, a[i], a[i + 1], hi, p);
      p := p + 1;
    } else {
      CombosCount(lo + 1, hi, k);
      if hi < lo + 1 + k { ChooseBeyond(hi - lo - 1, k); }
      if i >= |a| {
        p := CombosStep(lo + 1, hi, k, i - |a|);
        assert all[|a| + (i - |a|)] == b[i - |a|] && all[|a| + (i + 1 - |a|)] == b[i + 1 - |a|];
      } else {
        CombosEnds(lo + 1, hi, k - 1);
        CombosEnds(lo + 1, hi, k);
        assert all[|a| + 0] == b[0];
        StepAtJunction(lo, hi, k);
        p := 0;
      }
    }
  }

  lemma StepUnderPrefix(x: nat, c: seq<nat>, d: seq<nat>, hi: nat, p: nat)
    requires StepAt(c, d, hi, p) && |c| < hi
    ensures StepAt([x] + c, [x] + d, hi, p + 1)
  {
    var c', d' := [x] + c, [x] + d;
    assert c'[..p + 1] == [x] + c[..p] && d'[..p + 1] == [x] + d[..p];
    assert forall q :: p + 1 < q < |c'| ==> c'[q] == c[q - 1];
    assert forall q :: p + 1 <= q < |c'| ==> d'[q] == d[q - 1];
  }

  /** From the last combination that takes lo to the first that skips it. */
  lemma StepAtJunction(lo: nat, hi: nat, k: nat)
    requires 0 < k && lo + 1 + k <= hi
    ensures StepAt([lo] + Run(hi - k + 1, k - 1), Run(lo + 1, k), hi, 0)
  {
    var c, d := [lo] + Run(hi - k + 1, k - 1), Run(lo + 1, k);
    assert c[..0] == d[..0];
  }

  /** The in-place update has one outcome. */
  lemma StepIsFunctional(c: seq<nat>, d: seq<nat>, e: seq<nat>, hi: nat, p: nat, q: nat)
    requires StepAt(c, d, hi, p) && StepAt(c, e, hi, q)
    ensures d == e
  {
    assert p == q;
    assert forall i :: 0 <= i < p ==> d[i] == d[..p][i] == c[..p][i] == e[..p][i] == e[i];
  }

  lemma LastCannotStep(hi: nat, k: nat, d: seq<nat>, p: nat)
    requires k <= hi
    ensures !StepAt(Run(hi - k, k), d, hi, p)
  {
  }

  /** The inner loop of the test: move the last movable position by one and
      restart the positions behind it; leave the last combination alone. */
  method NextCombination(index: array<nat>, hi: nat)
    requires 0 < index.Length <= hi
    modifies index
    ensures if old(index[..]) == Run(hi - index.Length, index.Length) then index[..] == old(index[..])
            else exists p :: StepAt(old(index[..]), index[..], hi, p)
  {
    var n := index.Length;
    ghost var c := index[..];
    var i := n;
    while true
      invariant 0 <= i <= n
      invariant index[..] == c
      invariant forall q :: i <= q < n ==> c[q] == q + hi - n
      decreases i
    {
      if i == 0 {
        break;
      }
      i := i - 1;
      if index[i] != i + hi - n {
        index[i] := index[i] + 1;
        for j := i + 1 to n
          invariant index[..i] == c[..i]
          invariant forall q :: i <= q < j ==> index[q] == c[i] + 1 + (q - i)
        {
          index[j] := index[j - 1] + 1;
        }
        assert c[i] != Run(hi - n, n)[i];
        assert StepAt(c, index[..], hi, i);
        return;
      }
      if i == 0 {
        break;
      }
    }
    assert c == Run(hi - n, n);
  }
}
