/** Relabellings of pooled runs as plain sets of positions: the reference that
    the in-place enumeration is measured against. */
module Labellings {
  import opened Combinations

  function Positions(n: nat): (r: set<nat>)
    ensures forall i: nat :: i in r <==> i < n
  {
    if n == 0 then {} else Positions(n - 1) + {n - 1}
  }

  lemma {:induction false} PositionsCard(n: nat)
    ensures |Positions(n)| == n
  {
    if n > 0 { PositionsCard(n - 1); }
  }

  /** Every way to call n of the positions "baseline". */
  ghost function Choices(size: nat, n: nat): set<set<nat>> {
    set s | s <= Positions(size) && |s| == n
  }

  // ---- sums over chosen positions ----

  function Sum(v: seq<real>): real {
    if v == [] then 0.0 else Sum(v[..|v| - 1]) + v[|v| - 1]
  }

  function SumIn(v: seq<real>, s: set<nat>): real {
    if v == [] then 0.0
    else SumIn(v[..|v| - 1], s) + (if |v| - 1 in s then v[|v| - 1] else 0.0)
  }

  function SumAt(v: seq<real>, c: seq<nat>): real
    requires forall i :: 0 <= i < |c| ==> c[i] < |v|
  {
    if c == [] then 0.0 else SumAt(v, c[..|c| - 1]) + v[c[|c| - 1]]
  }

  lemma {:induction false} SumInAgrees(v: seq<real>, s: set<nat>, t: set<nat>)
    requires forall i :: 0 <= i < |v| ==> (i in s <==> i in t)
    ensures SumIn(v, s) == SumIn(v, t)
  {
    if v != [] { SumInAgrees(v[..|v| - 1], s, t); }
  }

  lemma {:induction false} SumInNone(v: seq<real>, s: set<nat>)
    requires forall i :: 0 <= i < |v| ==> i !in s
    ensures SumIn(v, s) == 0.0
  {
    if v != [] { SumInNone(v[..|v| - 1], s); }
  }

  lemma {:induction false} SumInAll(v: seq<real>, s: set<nat>)
    requires forall i :: 0 <= i < |v| ==> i in s
    ensures SumIn(v, s) == Sum(v)
  {
    if v != [] { SumInAll(v[..|v| - 1], s); }
  }

  /** Whatever is not in s is in its complement. */
  lemma {:induction false} SumInComplement(v: seq<real>, s: set<nat>, t: set<nat>)
    requires forall i :: 0 <= i < |v| ==> (i in t <==> i !in s)
    ensures SumIn(v, s) + SumIn(v, t) == Sum(v)
  {
    if v != [] { SumInComplement(v[..|v| - 1], s, t); }
  }

  lemma SumInSnoc(v: seq<real>, x: real, s: set<nat>)
    ensures SumIn(v + [x], s) == SumIn(v, s) + (if |v| in s then x else 0.0)
  {
    assert (v + [x])[..|v|] == v;
  }

  function ShiftDown(s: set<nat>, n: nat): set<nat> {
    set i | i in s && i >= n :: i - n
  }

  lemma ShiftDownIn(s: set<nat>, n: nat, i: nat)
    ensures i in ShiftDown(s, n) <==> i + n in s
  {
    if i + n in s { assert (i + n) - n == i; }
  }

  lemma {:induction false} SumInConcat(u: seq<real>, v: seq<real>, s: set<nat>)
    ensures SumIn(u + v, s) == SumIn(u, s) + SumIn(v, ShiftDown(s, |u|))
  {
    if v == [] {
      assert u + v == u;
    } else {
      var w := v[..|v| - 1];
      assert (u + v)[..|u + v| - 1] == u + w;
      SumInConcat(u, w, s);
      ShiftDownIn(s, |u|, |v| - 1);
    }
  }

  lemma {:induction false} SumConcat(u: seq<real>, v: seq<real>)
    ensures Sum(u + v) == Sum(u) + Sum(v)
  {
    if v == [] {
      assert u + v == u;
    } else {
      assert (u + v)[..|u + v| - 1] == u + v[..|v| - 1];
      SumConcat(u, v[..|v| - 1]);
    }
  }

  // ---- combinations and sets of positions are the same thing ----

  function SetOf(c: seq<nat>): set<nat> {
    set i | 0 <= i < |c| :: c[i]
  }

  lemma {:induction false} SetOfCard(c: seq<nat>)
    requires forall i, j :: 0 <= i < j < |c| ==> c[i] < c[j]
    ensures |SetOf(c)| == |c|
  {
    if c != [] {
      var d, x := c[..|c| - 1], c[|c| - 1];
      SetOfCard(d);
      assert c == d + [x];
      SetOfSnoc(d, x);
      assert x !in SetOf(d);
    }
  }

  lemma SetOfSnoc(d: seq<nat>, x: nat)
    ensures SetOf(d + [x]) == SetOf(d) + {x}
  {
    var c := d + [x];
    assert c[|d|] == x && forall i :: 0 <= i < |d| ==> c[i] == d[i];
    forall y | y in SetOf(d) + {x} ensures y in SetOf(c) {
      if y in SetOf(d) {
        var i :| 0 <= i < |d| && d[i] == y;
        assert c[i] == y;
      }
    }
  }

  /** The members of s below size, in increasing order. */
  function Ordered(s: set<nat>, size: nat): (c: seq<nat>)
    ensures IsCombo(c, 0, size, |c|)
    ensures forall x :: x in c <==> x in s && x < size
  {
    if size == 0 then []
    else Ordered(s, size - 1) + (if size - 1 in s then [size - 1] else [])
  }

  lemma OrderedOfChoice(s: set<nat>, size: nat, n: nat)
    requires s in Choices(size, n)
    ensures IsCombo(Ordered(s, size), 0, size, n) && SetOf(Ordered(s, size)) == s
  {
    var c := Ordered(s, size);
    forall x | x in s ensures x in SetOf(c) {
      assert x in Positions(size);
      assert x in c;
    }
    assert SetOf(c) == s;
    SetOfCard(c);
  }

  lemma ChoiceOfCombo(c: seq<nat>, size: nat, n: nat)
    requires IsCombo(c, 0, size, n)
    ensures SetOf(c) in Choices(size, n)
  {
    SetOfCard(c);
  }

  /** Where two increasing sequences first differ, the smaller entry belongs to
      one of them only. */
  lemma LexLessSetsDiffer(c: seq<nat>, d: seq<nat>, p: nat)
    requires forall i, j :: 0 <= i < j < |c| ==> c[i] < c[j]
    requires forall i, j :: 0 <= i < j < |d| ==> d[i] < d[j]
    requires DiffersFirstAt(c, d, p)
    ensures SetOf(c) != SetOf(d)
  {
    assert c[p] in SetOf(c);
    forall q | 0 <= q < |d| ensures d[q] != c[p] {
      if q < p {
        assert d[q] == d[..p][q] == c[..p][q] == c[q];
      }
    }
  }

  lemma {:induction false} SumInAdd(v: seq<real>, s: set<nat>, x: nat)
    requires x < |v| && x !in s
    ensures SumIn(v, s + {x}) == SumIn(v, s) + v[x]
  {
    if x == |v| - 1 {
      SumInAgrees(v[..x], s, s + {x});
    } else {
      SumInAdd(v[..|v| - 1], s, x);
    }
  }

  lemma {:induction false} SumAtIsSumIn(v: seq<real>, c: seq<nat>)
    requires IsCombo(c, 0, |v|, |c|)
    ensures SumAt(v, c) == SumIn(v, SetOf(c))
  {
    if c == [] {
      assert SetOf(c) == {};
      SumInNone(v, {});
    } else {
      var d, x := c[..|c| - 1], c[|c| - 1];
      SumAtIsSumIn(v, d);
      assert c == d + [x];
      SetOfSnoc(d, x);
      SumInAdd(v, SetOf(d), x);
    }
  }

  // ---- counting ----

  ghost function Tally(cs: seq<seq<nat>>, good: set<set<nat>>): nat {
    if cs == [] then 0
    else Tally(cs[..|cs| - 1], good) + (if SetOf(cs[|cs| - 1]) in good then 1 else 0)
  }

  ghost predicate Distinct(cs: seq<seq<nat>>) {
    forall i, j :: 0 <= i < j < |cs| ==> SetOf(cs[i]) != SetOf(cs[j])
  }

  ghost function Images(cs: seq<seq<nat>>): set<set<nat>> {
    set i | 0 <= i < |cs| :: SetOf(cs[i])
  }

  lemma ImagesSnoc(ds: seq<seq<nat>>, c: seq<nat>)
    ensures Images(ds + [c]) == Images(ds) + {SetOf(c)}
  {
    hide SetOf;
    var cs := ds + [c];
    assert cs[|ds|] == c && forall i :: 0 <= i < |ds| ==> cs[i] == ds[i];
    forall y | y in Images(ds) + {SetOf(c)} ensures y in Images(cs) {
      if y in Images(ds) {
        var i :| 0 <= i < |ds| && SetOf(ds[i]) == y;
        assert SetOf(cs[i]) == y;
      } else {
        assert SetOf(cs[|ds|]) == y;
      }
    }
  }

  lemma {:induction false} TallyCounts(cs: seq<seq<nat>>, good: set<set<nat>>)
    requires Distinct(cs)
    ensures Tally(cs, good) == |Images(cs) * good|
  {
    hide SetOf, Images;
    if cs == [] {
      ImagesOfNone();
      assert {} * good == {};
    } else {
      var ds, c := cs[..|cs| - 1], cs[|cs| - 1];
      TallyCounts(ds, good);
      assert cs == ds + [c];
      ImagesSnoc(ds, c);
      LastIsFresh(ds, c);
      MeetWithOneMore(Images(ds), SetOf(c), good);
    }
  }

  lemma ImagesOfNone()
    ensures Images([]) == {}
  {
  }

  lemma LastIsFresh(ds: seq<seq<nat>>, c: seq<nat>)
    requires Distinct(ds + [c])
    ensures SetOf(c) !in Images(ds)
  {
    hide SetOf;
    var cs := ds + [c];
    assert cs[|ds|] == c && forall i :: 0 <= i < |ds| ==> cs[i] == ds[i];
  }

  lemma MeetWithOneMore(a: set<set<nat>>, x: set<nat>, good: set<set<nat>>)
    requires x !in a
    ensures |(a + {x}) * good| == |a * good| + (if x in good then 1 else 0)
  {
    if x in good {
      assert (a + {x}) * good == a * good + {x};
    } else {
      assert (a + {x}) * good == a * good;
    }
  }

  /** The lexicographic list visits every relabelling exactly once. */
  lemma CombosCoverChoices(size: nat, n: nat)
    requires n <= size
    ensures Distinct(Combos(0, size, n)) && Images(Combos(0, size, n)) == Choices(size, n)
    ensures |Choices(size, n)| == Choose(size, n)
  {
    hide Combos;
    var cs := Combos(0, size, n);
    forall i, j | 0 <= i < j < |cs| ensures SetOf(cs[i]) != SetOf(cs[j]) {
      CombosSorted(0, size, n, i, j);
      CombosSound(0, size, n, i);
      CombosSound(0, size, n, j);
      var p: nat :| DiffersFirstAt(cs[i], cs[j], p);
      LexLessSetsDiffer(cs[i], cs[j], p);
    }
    forall s | s in Images(cs) ensures s in Choices(size, n) {
      var i :| 0 <= i < |cs| && SetOf(cs[i]) == s;
      CombosSound(0, size, n, i);
      ChoiceOfCombo(cs[i], size, n);
    }
    forall s | s in Choices(size, n) ensures s in Images(cs) {
      OrderedOfChoice(s, size, n);
      var i := CombosComplete(0, size, n, Ordered(s, size));
    }
    CombosCount(0, size, n);
    TallyCounts(cs, Choices(size, n));
    TallyAll(cs, Choices(size, n));
    assert Images(cs) * Choices(size, n) == Choices(size, n);
  }

  lemma {:induction false} TallyAll(cs: seq<seq<nat>>, good: set<set<nat>>)
    requires forall i :: 0 <= i < |cs| ==> SetOf(cs[i]) in good
    ensures Tally(cs, good) == |cs|
  {
    if cs != [] { TallyAll(cs[..|cs| - 1], good); }
  }

  /** A one-to-one map into b bounds the size of a. */
  lemma {:induction false} InjectionBounds(a: set<set<nat>>, b: set<set<nat>>, f: set<nat> -> set<nat>)
    requires forall x :: x in a ==> f(x) in b
    requires forall x, y :: x in a && y in a && f(x) == f(y) ==> x == y
    ensures |a| <= |b|
  {
    if a != {} {
      var x :| x in a;
      InjectionBounds(a - {x}, b - {f(x)}, f);
    }
  }
}
