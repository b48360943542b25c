/** Run diffs over recorded arguments (src/lineage_db.rs): a JSON value is cut
    into leaves by path, and two leaf maps are compared. */
module ArgDiff {
  import opened Options
  import opened Strings
  import opened Sorting
  import opened Json

  // ---- path escaping ----

  function Replace(s: string, c: char, t: string): string {
    if s == "" then "" else (if s[0] == c then t else [s[0]]) + Replace(s[1..], c, t)
  }

  /** Two replacement passes: tildes first, then slashes. */
  function Escape(key: string): string { Replace(Replace(key, '~', "~0"), '/', "~1") }

  /** The reading direction of section 3 of RFC 6901. */
  function Unescape(s: string): string
    decreases |s|
  {
    if |s| >= 2 && s[0] == '~' && s[1] == '1' then "/" + Unescape(s[2..])
    else if |s| >= 2 && s[0] == '~' && s[1] == '0' then "~" + Unescape(s[2..])
    else if s == "" then ""
    else [s[0]] + Unescape(s[1..])
  }

  function EscapeChar(c: char): string {
    if c == '~' then "~0" else if c == '/' then "~1" else [c]
  }

  lemma {:induction false} ReplaceConcat(a: string, b: string, c: char, t: string)
    ensures Replace(a + b, c, t) == Replace(a, c, t) + Replace(b, c, t)
  {
    if a == "" {
      assert a + b == b;
    } else {
      assert (a + b)[1..] == a[1..] + b;
      ReplaceConcat(a[1..], b, c, t);
    }
  }

  lemma EscapeStep(c: char, k: string)
    ensures Escape([c] + k) == EscapeChar(c) + Escape(k)
  {
    ReplaceConcat([c], k, '~', "~0");
    var first := Replace([c], '~', "~0");
    assert [c][1..] == "";
    assert first == (if c == '~' then "~0" else [c]);
    ReplaceConcat(first, Replace(k, '~', "~0"), '/', "~1");
    assert "~0"[1..] == "0" && "0"[1..] == "";
  }

  lemma {:induction false} UnescapeInverts(key: string)
    ensures Unescape(Escape(key)) == key
  {
    if key != "" {
      var c, k := key[0], key[1..];
      assert key == [c] + k;
      EscapeStep(c, k);
      UnescapeInverts(k);
      var e := EscapeChar(c);
      assert (e + Escape(k))[|e|..] == Escape(k);
    }
  }

  lemma {:induction false} EscapeHasNoSlash(key: string)
    ensures '/' !in Escape(key)
  {
    if key != "" {
      assert key == [key[0]] + key[1..];
      EscapeStep(key[0], key[1..]);
      EscapeHasNoSlash(key[1..]);
    }
  }

  lemma EscapeInjective(a: string, b: string)
    requires Escape(a) == Escape(b)
    ensures a == b
  {
    UnescapeInverts(a);
    UnescapeInverts(b);
  }

  // ---- leaves ----

  function ChildPath(path: string, key: string): string { path + "/" + Escape(key) }

  /** A value that is kept whole: everything but a non-empty object. */
  predicate IsLeaf(v: Value) { !(v.Obj? && v.fields != []) }

  function Flatten(v: Value, path: string): map<string, Value>
    decreases v, 0
  {
    if v.Obj? && v.fields != [] then FlattenFields(v, |v.fields|, path) else map[path := v]
  }

  /** The leaves of the first n fields of an object. */
  function FlattenFields(v: Value, n: nat, path: string): map<string, Value>
    requires v.Obj? && n <= |v.fields|
    decreases v, 0, n
  {
    if n == 0 then map[]
    else
      var f := v.fields[n - 1];
      FlattenFields(v, n - 1, path) + Flatten(f.value, ChildPath(path, f.key))
  }

  lemma MergeAssociates(a: map<string, Value>, b: map<string, Value>, c: map<string, Value>)
    ensures (a + b) + c == a + (b + c)
  {
  }

  /** The recursion that writes leaves into a map. */
  method FlattenArgLeaves(v: Value, path: string, out: map<string, Value>) returns (out': map<string, Value>)
    ensures out' == out + Flatten(v, path)
    decreases v
  {
    if v.Obj? && v.fields != [] {
      out' := out;
      for i := 0 to |v.fields|
        invariant out' == out + FlattenFields(v, i, path)
      {
        var f := v.fields[i];
        MergeAssociates(out, FlattenFields(v, i, path), Flatten(f.value, ChildPath(path, f.key)));
        out' := FlattenArgLeaves(f.value, path + "/" + Escape(f.key), out');
      }
    } else {
      out' := out[path := v];
    }
  }

  // ---- where the leaves of a value lie ----

  /** k is path itself or lies below it. */
  ghost predicate Under(k: string, path: string) { k == path || path + "/" <= k }

  lemma UnderTransitive(k: string, mid: string, path: string)
    requires Under(k, mid) && path + "/" <= mid
    ensures Under(k, path) && k != path
  {
    assert mid <= k;
  }

  lemma ChildIsBelow(path: string, key: string)
    ensures path + "/" <= ChildPath(path, key)
  {
  }

  lemma {:induction false} FlattenUnder(v: Value, path: string, k: string)
    requires k in Flatten(v, path)
    ensures Under(k, path)
    ensures k == path <==> IsLeaf(v)
    decreases v, 0
  {
    hide ChildPath;
    if !IsLeaf(v) {
      var i := FieldOf(v, |v.fields|, path, k);
      ChildIsBelow(path, v.fields[i].key);
      UnderTransitive(k, ChildPath(path, v.fields[i].key), path);
    }
  }

  /** A leaf of an object is a leaf of one of its fields, and lies below it. */
  lemma {:induction false} FieldOf(v: Value, n: nat, path: string, k: string) returns (i: nat)
    requires v.Obj? && n <= |v.fields| && k in FlattenFields(v, n, path)
    ensures i < n && k in Flatten(v.fields[i].value, ChildPath(path, v.fields[i].key))
    ensures Under(k, ChildPath(path, v.fields[i].key))
    decreases v, 0, n
  {
    hide ChildPath, Under;
    var f := v.fields[n - 1];
    if k in Flatten(f.value, ChildPath(path, f.key)) {
      i := n - 1;
      FlattenUnder(f.value, ChildPath(path, f.key), k);
    } else {
      i := FieldOf(v, n - 1, path, k);
    }
  }

  lemma {:induction false} FlattenNonEmpty(v: Value, path: string) returns (k: string)
    ensures k in Flatten(v, path)
    decreases v
  {
    if IsLeaf(v) {
      k := path;
    } else {
      var f := v.fields[|v.fields| - 1];
      k := FlattenNonEmpty(f.value, ChildPath(path, f.key));
    }
  }

  /** Two keys whose paths share a descendant are the same key. */
  lemma SharedDescendant(path: string, a: string, b: string, k: string)
    requires Under(k, ChildPath(path, a)) && Under(k, ChildPath(path, b))
    ensures a == b
  {
    var x, y := Escape(a), Escape(b);
    EscapeHasNoSlash(a);
    EscapeHasNoSlash(b);
    var p := path + "/";
    assert ChildPath(path, a) == p + x && ChildPath(path, b) == p + y;
    FirstComponent(k, p, x);
    FirstComponent(k, p, y);
    assert x == y;
    EscapeInjective(a, b);
  }

  /** The characters after p up to the next slash. */
  function Component(k: string, i: nat): string
    decreases |k| - i
  {
    if i >= |k| || k[i] == '/' then "" else [k[i]] + Component(k, i + 1)
  }

  lemma FirstComponent(k: string, p: string, x: string)
    requires '/' !in x && Under(k, p + x)
    ensures Component(k, |p|) == x
  {
    assert p + x <= k;
    assert forall i :: 0 <= i < |x| ==> k[|p| + i] == (p + x)[|p| + i] == x[i];
    assert |k| > |p + x| ==> k[|p + x|] == (p + x + "/")[|p + x|] == '/';
    ComponentFrom(k, |p|, x);
  }

  lemma {:induction false} ComponentFrom(k: string, i: nat, x: string)
    requires i + |x| <= |k| && '/' !in x
    requires forall j :: 0 <= j < |x| ==> k[i + j] == x[j]
    requires i + |x| == |k| || k[i + |x|] == '/'
    ensures Component(k, i) == x
    decreases |x|
  {
    if x != "" {
      assert x[0] in x;
      assert k[i] == k[i + 0] == x[0];
      forall j | 0 <= j < |x[1..]| ensures k[i + 1 + j] == x[1..][j] { assert k[i + (j + 1)] == x[j + 1]; }
      ComponentFrom(k, i + 1, x[1..]);
      assert x == [x[0]] + x[1..];
    }
  }

  // ---- nothing is lost ----

  lemma KeysDistinct(v: Value, i: nat, j: nat)
    requires v.Obj? && WellFormed(v) && i < |v.fields| && j < |v.fields| && v.fields[i].key == v.fields[j].key
    ensures i == j
  {
    hide StrLess;
    assert i < j ==> StrLess(Keys(v.fields)[i], Keys(v.fields)[j]);
    assert j < i ==> StrLess(Keys(v.fields)[j], Keys(v.fields)[i]);
    NotLessThanItself(v.fields[i].key);
  }

  /** Below a field's path an object's leaves are exactly that field's leaves. */
  lemma {:induction false} Restriction(v: Value, n: nat, path: string, i: nat, k: string)
    requires v.Obj? && WellFormed(v) && n <= |v.fields| && i < |v.fields|
    requires Under(k, ChildPath(path, v.fields[i].key))
    ensures k in FlattenFields(v, n, path) <==>
              i < n && k in Flatten(v.fields[i].value, ChildPath(path, v.fields[i].key))
    ensures k in FlattenFields(v, n, path) ==>
              FlattenFields(v, n, path)[k] == Flatten(v.fields[i].value, ChildPath(path, v.fields[i].key))[k]
    decreases n
  {
    hide ChildPath, WellFormed, Under, Flatten;
    if n > 0 {
      Restriction(v, n - 1, path, i, k);
      var f := v.fields[n - 1];
      if k in Flatten(f.value, ChildPath(path, f.key)) {
        FlattenUnder(f.value, ChildPath(path, f.key), k);
        SharedDescendant(path, f.key, v.fields[i].key, k);
        KeysDistinct(v, n - 1, i);
      }
    }
  }

  /** Distinct values leave distinct leaves. */
  lemma {:induction false} FlattenInjective(v: Value, w: Value, path: string)
    requires WellFormed(v) && WellFormed(w) && Flatten(v, path) == Flatten(w, path)
    ensures v == w
    decreases v
  {
    var k := FlattenNonEmpty(v, path);
    FlattenUnder(v, path, k);
    FlattenUnder(w, path, k);
    if IsLeaf(v) {
      assert Flatten(v, path)[path] == Flatten(w, path)[path];
    } else {
      SameKeys(v, w, path);
      forall i | 0 <= i < |v.fields| ensures v.fields[i] == w.fields[i] {
        assert Keys(v.fields)[i] == Keys(w.fields)[i];
        SameChildLeaves(v, w, path, i);
        FlattenInjective(v.fields[i].value, w.fields[i].value, ChildPath(path, v.fields[i].key));
      }
    }
  }

  lemma SameChildLeaves(v: Value, w: Value, path: string, i: nat)
    requires !IsLeaf(v) && !IsLeaf(w) && WellFormed(v) && WellFormed(w) && Flatten(v, path) == Flatten(w, path)
    requires i < |v.fields| == |w.fields| && v.fields[i].key == w.fields[i].key
    ensures Flatten(v.fields[i].value, ChildPath(path, v.fields[i].key))
         == Flatten(w.fields[i].value, ChildPath(path, v.fields[i].key))
  {
    var q := ChildPath(path, v.fields[i].key);
    var a, b := Flatten(v.fields[i].value, q), Flatten(w.fields[i].value, q);
    assert Flatten(v, path) == FlattenFields(v, |v.fields|, path);
    assert Flatten(w, path) == FlattenFields(w, |w.fields|, path);
    hide Flatten, FlattenFields, ChildPath, WellFormed, Under;
    forall k | k in a || k in b ensures k in a && k in b && a[k] == b[k] {
      if k in a { FlattenUnder(v.fields[i].value, q, k); } else { FlattenUnder(w.fields[i].value, q, k); }
      Restriction(v, |v.fields|, path, i, k);
      Restriction(w, |w.fields|, path, i, k);
    }
    assert a.Keys == b.Keys;
  }

  lemma KeyCarriesOver(v: Value, w: Value, path: string, i: nat) returns (j: nat)
    requires !IsLeaf(v) && !IsLeaf(w) && Flatten(v, path) == Flatten(w, path) && WellFormed(v)
    requires i < |v.fields|
    ensures j < |w.fields| && w.fields[j].key == v.fields[i].key
  {
    var q := ChildPath(path, v.fields[i].key);
    var k := FlattenNonEmpty(v.fields[i].value, q);
    assert Flatten(v, path) == FlattenFields(v, |v.fields|, path);
    assert Flatten(w, path) == FlattenFields(w, |w.fields|, path);
    hide Flatten, FlattenFields, ChildPath, WellFormed, Under;
    FlattenUnder(v.fields[i].value, q, k);
    Restriction(v, |v.fields|, path, i, k);
    j := FieldOf(w, |w.fields|, path, k);
    SharedDescendant(path, v.fields[i].key, w.fields[j].key, k);
  }

  lemma SameKeys(v: Value, w: Value, path: string)
    requires !IsLeaf(v) && !IsLeaf(w) && WellFormed(v) && WellFormed(w) && Flatten(v, path) == Flatten(w, path)
    ensures Keys(v.fields) == Keys(w.fields)
  {
    hide Flatten, StrLess;
    var a, b := Keys(v.fields), Keys(w.fields);
    forall x | x in a ensures x in b {
      var i :| 0 <= i < |a| && a[i] == x;
      var j := KeyCarriesOver(v, w, path, i);
      assert b[j] == x;
    }
    forall x | x in b ensures x in a {
      var i :| 0 <= i < |b| && b[i] == x;
      var j := KeyCarriesOver(w, v, path, i);
      assert a[j] == x;
    }
    StrLessStrict();
    AscendingUnique(StrLess, a, b);
  }

  // ---- the diff ----

  /** Recorded arguments: absent, unreadable, or a JSON value. */
  datatype Raw = Absent | Malformed | Parsed(value: Value)

  datatype ArgDelta = ArgDelta(path: string, a: Option<Value>, b: Option<Value>)

  datatype Result<+T> = Ok(value: T) | Err

  function Leaves(raw: Raw): map<string, Value> {
    if raw.Parsed? then Flatten(raw.value, "$") else map[]
  }

  function Get(m: map<string, Value>, k: string): Option<Value> {
    if k in m then Some(m[k]) else None
  }

  function Paths(deltas: seq<ArgDelta>): (r: seq<string>)
    ensures |r| == |deltas| && forall i :: 0 <= i < |deltas| ==> r[i] == deltas[i].path
  {
    if deltas == [] then [] else Paths(deltas[..|deltas| - 1]) + [deltas[|deltas| - 1].path]
  }

  /** One delta per path where the two maps differ, in path order. */
  ghost predicate IsDiff(x: map<string, Value>, y: map<string, Value>, deltas: seq<ArgDelta>) {
    && Ascending(StrLess, Paths(deltas))
    && (forall p :: p in Paths(deltas) <==> Get(x, p) != Get(y, p))
    && (forall d :: d in deltas ==> d.a == Get(x, d.path) && d.b == Get(y, d.path))
  }

  /** All members of a set, in ascending order. */
  method SortedMembers(s: set<string>) returns (r: seq<string>)
    ensures Ascending(StrLess, r) && forall x :: x in r <==> x in s
  {
    hide StrLess, Sort;
    var rest, all := s, [];
    while rest != {}
      invariant rest <= s && NoDuplicates(all)
      invariant forall x :: x in all <==> x in s && x !in rest
      decreases rest
    {
      var x :| x in rest;
      rest := rest - {x};
      all := all + [x];
    }
    StrLessStrict();
    SortAscending(StrLess, all);
    r := Sort(StrLess, all);
  }

  /** Compare the recorded arguments of two runs. */
  method DiffArgsJson(rawA: Raw, rawB: Raw) returns (r: Result<seq<ArgDelta>>)
    ensures r.Err? <==> rawA.Malformed? || rawB.Malformed?
    ensures r.Ok? ==> IsDiff(Leaves(rawA), Leaves(rawB), r.value)
  {
    hide StrLess, Flatten;
    if rawA.Malformed? {
      return Err;
    }
    if rawB.Malformed? {
      return Err;
    }
    var leavesA, leavesB: map<string, Value> := map[], map[];
    if rawA.Parsed? {
      leavesA := FlattenArgLeaves(rawA.value, "$", leavesA);
      assert leavesA == Flatten(rawA.value, "$");
    }
    if rawB.Parsed? {
      leavesB := FlattenArgLeaves(rawB.value, "$", leavesB);
      assert leavesB == Flatten(rawB.value, "$");
    }
    var paths := SortedMembers(leavesA.Keys + leavesB.Keys);
    var deltas := DeltasAlong(paths, leavesA, leavesB);
    return Ok(deltas);
  }

  method DeltasAlong(paths: seq<string>, x: map<string, Value>, y: map<string, Value>) returns (deltas: seq<ArgDelta>)
    requires Ascending(StrLess, paths) && forall p :: p in paths <==> p in x || p in y
    ensures IsDiff(x, y, deltas)
  {
    hide StrLess, Paths;
    deltas := [];
    for i := 0 to |paths|
      invariant Ascending(StrLess, Paths(deltas))
      invariant forall p :: p in Paths(deltas) <==> p in paths[..i] && Get(x, p) != Get(y, p)
      invariant forall d :: d in deltas ==> d.a == Get(x, d.path) && d.b == Get(y, d.path)
    {
      var path := paths[i];
      var a, b := Get(x, path), Get(y, path);
      assert paths[..i + 1] == paths[..i] + [path];
      if a != b {
        AscendingSnoc(deltas, ArgDelta(path, a, b), paths[..i]);
        deltas := deltas + [ArgDelta(path, a, b)];
      }
    }
    assert paths[..|paths|] == paths;
  }

  lemma AscendingSnoc(deltas: seq<ArgDelta>, d: ArgDelta, earlier: seq<string>)
    requires Ascending(StrLess, Paths(deltas)) && forall p :: p in Paths(deltas) ==> p in earlier
    requires forall i :: 0 <= i < |earlier| ==> StrLess(earlier[i], d.path)
    ensures Paths(deltas + [d]) == Paths(deltas) + [d.path]
    ensures Ascending(StrLess, Paths(deltas + [d]))
  {
    hide StrLess;
    assert (deltas + [d])[..|deltas|] == deltas;
    forall j | 0 <= j < |deltas| ensures StrLess(Paths(deltas)[j], d.path) {
      assert Paths(deltas)[j] in Paths(deltas);
    }
  }

  // ---- what a diff means ----

  /** Replay deltas onto a leaf map, towards the second run. */
  function Apply(m: map<string, Value>, deltas: seq<ArgDelta>): map<string, Value> {
    if deltas == [] then m
    else
      var d, rest := deltas[|deltas| - 1], Apply(m, deltas[..|deltas| - 1]);
      if d.b.Some? then rest[d.path := d.b.value] else rest - {d.path}
  }

  lemma {:induction false} ApplyAt(m: map<string, Value>, deltas: seq<ArgDelta>, p: string)
    requires forall i, j :: 0 <= i < j < |deltas| ==> deltas[i].path != deltas[j].path
    ensures (forall i :: 0 <= i < |deltas| ==> deltas[i].path != p) ==> Get(Apply(m, deltas), p) == Get(m, p)
    ensures forall i :: 0 <= i < |deltas| && deltas[i].path == p ==> Get(Apply(m, deltas), p) == deltas[i].b
  {
    if deltas != [] { ApplyAt(m, deltas[..|deltas| - 1], p); }
  }

  /** The deltas turn one side's leaves into the other's. */
  lemma DiffReplays(x: map<string, Value>, y: map<string, Value>, deltas: seq<ArgDelta>)
    requires IsDiff(x, y, deltas)
    ensures Apply(x, deltas) == y
  {
    hide StrLess, Apply;
    DiffPathsDistinct(x, y, deltas);
    var z := Apply(x, deltas);
    forall p ensures Get(z, p) == Get(y, p) {
      ApplyAt(x, deltas, p);
      if p in Paths(deltas) {
        var i :| 0 <= i < |deltas| && Paths(deltas)[i] == p;
        assert deltas[i] in deltas;
      } else {
        forall i | 0 <= i < |deltas| ensures deltas[i].path != p { assert Paths(deltas)[i] in Paths(deltas); }
      }
    }
    MapsAgree(z, y);
  }

  lemma MapsAgree(z: map<string, Value>, y: map<string, Value>)
    requires forall p :: Get(z, p) == Get(y, p)
    ensures z == y
  {
    forall p ensures p in z <==> p in y { assert Get(z, p) == Get(y, p); }
    forall p | p in z ensures z[p] == y[p] { assert Get(z, p) == Get(y, p); }
  }

  lemma DiffPathsDistinct(x: map<string, Value>, y: map<string, Value>, deltas: seq<ArgDelta>)
    requires IsDiff(x, y, deltas)
    ensures forall i, j :: 0 <= i < j < |deltas| ==> deltas[i].path != deltas[j].path
  {
    hide StrLess;
    forall i, j | 0 <= i < j < |deltas| ensures deltas[i].path != deltas[j].path {
      assert StrLess(Paths(deltas)[i], Paths(deltas)[j]);
      NotLessThanItself(deltas[i].path);
    }
  }

  ghost predicate Readable(raw: Raw) { raw.Absent? || (raw.Parsed? && WellFormed(raw.value)) }

  /** Replay deltas backwards, towards the first run. */
  function Undo(m: map<string, Value>, deltas: seq<ArgDelta>): map<string, Value> {
    Apply(m, Mirrored(deltas))
  }

  function Mirrored(deltas: seq<ArgDelta>): (r: seq<ArgDelta>)
    ensures |r| == |deltas|
    ensures forall i :: 0 <= i < |deltas| ==> r[i] == ArgDelta(deltas[i].path, deltas[i].b, deltas[i].a)
  {
    if deltas == [] then []
    else
      var d := deltas[|deltas| - 1];
      Mirrored(deltas[..|deltas| - 1]) + [ArgDelta(d.path, d.b, d.a)]
  }

  /** They also turn the second side's leaves back into the first's. */
  lemma DiffUndoes(x: map<string, Value>, y: map<string, Value>, deltas: seq<ArgDelta>)
    requires IsDiff(x, y, deltas)
    ensures Undo(y, deltas) == x
  {
    hide StrLess, Apply, Ascending;
    var m := Mirrored(deltas);
    assert Paths(m) == Paths(deltas);
    forall d | d in m ensures d.a == Get(y, d.path) && d.b == Get(x, d.path) {
      var i :| 0 <= i < |m| && m[i] == d;
      assert deltas[i] in deltas;
    }
    DiffReplays(y, x, m);
  }

  // ---- where a leaf is found ----

  /** The value below v that the rest of a path leads to, key by key. */
  function Follow(v: Value, path: string): Option<Value>
    decreases |path|
  {
    if path == "" then Some(v)
    else if path[0] != '/' then None
    else
      var token := Component(path, 1);
      if !v.Obj? || 1 + |token| > |path| then None
      else
        var child := FieldNamed(v.fields, Unescape(token));
        if child.None? then None else Follow(child.value, path[1 + |token|..])
  }

  function FieldNamed(fields: seq<Field>, key: string): Option<Value> {
    if fields == [] then None
    else if fields[|fields| - 1].key == key then Some(fields[|fields| - 1].value)
    else FieldNamed(fields[..|fields| - 1], key)
  }

  lemma {:induction false} FieldIsNamed(v: Value, n: nat, i: nat)
    requires v.Obj? && WellFormed(v) && i < n <= |v.fields|
    ensures FieldNamed(v.fields[..n], v.fields[i].key) == Some(v.fields[i].value)
    decreases n
  {
    var fields := v.fields[..n];
    assert fields[..n - 1] == v.fields[..n - 1];
    if fields[n - 1].key == v.fields[i].key {
      KeysDistinct(v, n - 1, i);
    } else {
      FieldIsNamed(v, n - 1, i);
    }
  }

  /** Every leaf lies where its path says, read as section 3 of RFC 6901 reads
      pointers: split at slashes, each part unescaped to a key. */
  lemma {:induction false} LeafIsAtPath(v: Value, path: string, k: string)
    requires WellFormed(v) && k in Flatten(v, path)
    ensures |path| <= |k| && k[..|path|] == path && Follow(v, k[|path|..]) == Some(Flatten(v, path)[k])
    decreases v
  {
    if IsLeaf(v) {
      assert k[..|path|] == path && k[|path|..] == "";
    } else {
      var i := FieldOf(v, |v.fields|, path, k);
      var f := v.fields[i];
      var child := ChildPath(path, f.key);
      LeafIsAtPath(f.value, child, k);
      Restriction(v, |v.fields|, path, i, k);
      hide Flatten, FlattenFields, WellFormed;
      DescendOne(v, path, i, k);
    }
  }

  lemma DescendOne(v: Value, path: string, i: nat, k: string)
    requires v.Obj? && WellFormed(v) && i < |v.fields|
    requires var child := ChildPath(path, v.fields[i].key);
             && |child| <= |k| && k[..|child|] == child && Under(k, child)
    ensures |path| <= |k| && k[..|path|] == path
    ensures Follow(v, k[|path|..]) == Follow(v.fields[i].value, k[|ChildPath(path, v.fields[i].key)|..])
  {
    var key := v.fields[i].key;
    var token, child := Escape(key), ChildPath(path, key);
    var rest := k[|path|..];
    hide Escape, Unescape;
    EscapeHasNoSlash(key);
    UnescapeInverts(key);
    assert child == path + "/" + token && |child| == |path| + 1 + |token|;
    assert k[..|path|] == child[..|path|] == path;
    assert rest[0] == k[|path|] == child[|path|] == '/';
    forall j | 0 <= j < |token| ensures rest[1 + j] == token[j] { assert k[|path| + 1 + j] == child[|path| + 1 + j]; }
    assert 1 + |token| == |rest| || rest[1 + |token|] == '/';
    ComponentFrom(rest, 1, token);
    FieldIsNamed(v, |v.fields|, i);
    assert v.fields[..|v.fields|] == v.fields;
    assert rest[1 + |token|..] == k[|child|..];
  }

  /** A diff is empty exactly when both runs recorded no arguments, or recorded
      the same JSON value. */
  lemma DiffEmptyIff(rawA: Raw, rawB: Raw, deltas: seq<ArgDelta>)
    requires Readable(rawA) && Readable(rawB) && IsDiff(Leaves(rawA), Leaves(rawB), deltas)
    ensures deltas == [] <==> rawA == rawB
  {
    hide StrLess, Flatten, WellFormed;
    var x, y := Leaves(rawA), Leaves(rawB);
    if deltas == [] {
      DiffReplays(x, y, deltas);
      assert x == y;
      if rawA.Parsed? && rawB.Parsed? {
        FlattenInjective(rawA.value, rawB.value, "$");
      } else if rawA.Parsed? {
        var k := FlattenNonEmpty(rawA.value, "$");
      } else if rawB.Parsed? {
        var k := FlattenNonEmpty(rawB.value, "$");
      }
    } else {
      assert Paths(deltas)[0] in Paths(deltas);
    }
  }
}
