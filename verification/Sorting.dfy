/** Sorting by a strict total order: sort order, and that it is canonical. */
module Sorting {
  import opened Strings

  ghost predicate StrictTotal<T(!new)>(less: (T, T) -> bool) {
    && (forall x :: !less(x, x))
    && (forall x, y, z :: less(x, y) && less(y, z) ==> less(x, z))
    && (forall x, y :: less(x, y) || x == y || less(y, x))
  }

  /** Strictly ascending: sorted and free of duplicates. */
  ghost predicate Ascending<T>(less: (T, T) -> bool, s: seq<T>) {
    forall i, j :: 0 <= i < j < |s| ==> less(s[i], s[j])
  }

  function Insert<T(!new)>(less: (T, T) -> bool, x: T, s: seq<T>): (r: seq<T>)
    ensures forall y :: y in r <==> y == x || y in s
  {
    if s == [] then [x]
    else if less(s[0], x) then
      assert s == [s[0]] + s[1..];
      [s[0]] + Insert(less, x, s[1..])
    else [x] + s
  }

  function Sort<T(!new)>(less: (T, T) -> bool, s: seq<T>): (r: seq<T>)
    ensures forall y :: y in r <==> y in s
  {
    if s == [] then []
    else
      assert s == [s[0]] + s[1..];
      Insert(less, s[0], Sort(less, s[1..]))
  }

  lemma {:induction false} InsertAscending<T(!new)>(less: (T, T) -> bool, x: T, s: seq<T>)
    requires StrictTotal(less) && Ascending(less, s) && x !in s
    ensures Ascending(less, Insert(less, x, s))
  {
    if s != [] {
      var t := s[1..];
      if less(s[0], x) {
        InsertAscending(less, x, t);
        var r := Insert(less, x, t);
        forall i | 0 <= i < |r| ensures less(s[0], r[i]) {
          assert r[i] in r;
          if r[i] != x { var k :| 0 <= k < |t| && t[k] == r[i]; assert t[k] == s[k + 1]; }
        }
      } else {
        assert s[0] in s;
        forall i | 0 <= i < |s| ensures less(x, s[i]) {
          if i > 0 { assert less(s[0], s[i]); }
        }
      }
    }
  }

  ghost predicate NoDuplicates<T>(s: seq<T>) {
    forall i, j :: 0 <= i < j < |s| ==> s[i] != s[j]
  }

  /** Sorting a duplicate-free list gives a strictly ascending one. */
  lemma {:induction false} SortAscending<T(!new)>(less: (T, T) -> bool, s: seq<T>)
    requires StrictTotal(less) && NoDuplicates(s)
    ensures Ascending(less, Sort(less, s))
  {
    if s != [] {
      SortAscending(less, s[1..]);
      assert s[0] !in s[1..];
      InsertAscending(less, s[0], Sort(less, s[1..]));
    }
  }

  /** A strictly ascending list is determined by its members. */
  lemma {:induction false} AscendingUnique<T(!new)>(less: (T, T) -> bool, s: seq<T>, t: seq<T>)
    requires StrictTotal(less) && Ascending(less, s) && Ascending(less, t)
    requires forall x :: x in s <==> x in t
    ensures s == t
  {
    assert t != [] ==> t[0] in t;
    if s != [] {
      assert s[0] in s && s[0] in t;
      assert t[0] in t && t[0] in s;
      var i :| 0 <= i < |s| && s[i] == t[0];
      var j :| 0 <= j < |t| && t[j] == s[0];
      assert s[0] == t[0];
      assert s == [s[0]] + s[1..] && t == [t[0]] + t[1..];
      forall x ensures x in s[1..] <==> x in t[1..] {
        if x in s[1..] { assert x in s && x != s[0]; }
        if x in t[1..] { assert x in t && x != t[0]; }
      }
      AscendingUnique(less, s[1..], t[1..]);
    }
  }

  lemma StrLessStrict()
    ensures StrictTotal(StrLess)
  {
    forall a ensures !StrLess(a, a) { NotLessThanItself(a); }
    forall a, b, c | StrLess(a, b) && StrLess(b, c) ensures StrLess(a, c) { StrLessTransitive(a, b, c); }
    forall a, b ensures StrLess(a, b) || a == b || StrLess(b, a) { StrLessTotal(a, b); }
  }
}
