/** What every string of an argument tree resolves to (src/registry_args.rs), said of
    the list of its strings and of what the stores answer. */
module ArgStrings {
  import opened Options
  import opened Json
  import opened RegistryArgs
  import Tenants

  // ---- the strings of a tree, in walk order ----

  function StringsIn(v: Value): seq<string>
    decreases v, 1
  {
    match v
    case Str(s) => [s]
    case Arr(items) => StringsInItems(items)
    case Obj(fields) => StringsInFields(fields)
    case _ => []
  }

  function StringsInItems(items: seq<Value>): seq<string>
    decreases items, 0
  {
    if items == [] then [] else StringsInItems(items[..|items| - 1]) + StringsIn(items[|items| - 1])
  }

  function StringsInFields(fields: seq<Field>): seq<string>
    decreases fields, 0
  {
    if fields == [] then [] else StringsInFields(fields[..|fields| - 1]) + StringsIn(fields[|fields| - 1].value)
  }

  // ---- one string ----

  /** s stands for out: a dataset for its source path, a model for the hash its
      pointer names, an experiment for its run, anything else for itself. */
  ghost predicate StandsFor(s: string, out: string, ctx: Context) {
    && ("dataset://" <= s ==> ctx.dataset(s).Some? && ctx.dataset(s).value.sourcePath == Some(out))
    && ("model://" <= s ==>
          && (ctx.restricted ==> ctx.local)
          && exists name, alias :: IsModelUri(s, name, alias) && ctx.pointer(name, alias) == Some(out))
    && ("experiment://" <= s ==> ctx.experiment(s) == Some(out))
    && (!("dataset://" <= s) && !("model://" <= s) && !("experiment://" <= s) ==> out == s)
  }

  predicate IsModelUri(s: string, name: string, alias: string) {
    s == "model://" + (name + "@" + alias) && Tenants.IsSafeIdent(name) && Tenants.IsSafeIdent(alias)
  }

  /** Why s does not resolve. */
  ghost predicate FailsWith(s: string, e: Error, ctx: Context, stores: Stores) {
    || ("dataset://" <= s && DatasetFails(s, e, ctx, stores.dataset))
    || ("model://" <= s && ModelFails(s, e, ctx, stores.model))
    || ("experiment://" <= s && ExperimentFails(s, e, ctx, stores.experiment))
  }

  ghost predicate DatasetFails(s: string, e: Error, ctx: Context, open: bool) {
    || (!open && e == RegistryUnavailable)
    || (open && ctx.dataset(s).None? && e == DatasetRefused)
    || (open && ctx.dataset(s).Some? && ctx.dataset(s).value.sourcePath.None? && e == PathNotUtf8)
  }

  ghost predicate ModelFails(s: string, e: Error, ctx: Context, open: bool) {
    var leaves := ctx.restricted && !ctx.local;
    || (!open && e == RegistryUnavailable)
    || (open && leaves && e == NodeLocalOnly)
    || (open && !leaves && e == NotAModelUri && forall name, alias :: !IsModelUri(s, name, alias))
    || (open && !leaves && e == UnresolvedModel
        && exists name, alias :: IsModelUri(s, name, alias) && ctx.pointer(name, alias) == None)
  }

  ghost predicate ExperimentFails(s: string, e: Error, ctx: Context, open: bool) {
    || (!open && e == RegistryUnavailable)
    || (open && ctx.experiment(s).None? && e == ExperimentRefused)
  }

  /** What a successful dataset lookup reports; other strings report nothing. */
  function Reported(s: string, ctx: Context): seq<DatasetResolution> {
    if "dataset://" <= s && ctx.dataset(s).Some? then [ctx.dataset(s).value] else []
  }

  lemma SchemeLetters(s: string)
    ensures "dataset://" <= s ==> !("model://" <= s) && !("experiment://" <= s)
    ensures "model://" <= s ==> !("experiment://" <= s)
  {
    SchemesDisjoint(s);
  }

  lemma {:induction false} SplitJoins(s: string)
    ensures SplitAt(s).Some? ==> s == SplitAt(s).value.0 + "@" + SplitAt(s).value.1 && '@' !in SplitAt(s).value.0
  {
    if s != "" {
      if s[0] == '@' {
        assert s == "" + "@" + s[1..];
      } else if SplitAt(s[1..]).Some? {
        SplitJoins(s[1..]);
        var (a, b) := SplitAt(s[1..]).value;
        PrependJoins(s, a, b);
      }
    }
  }

  lemma PrependJoins(s: string, a: string, b: string)
    requires s != "" && s[1..] == a + "@" + b && s[0] != '@' && '@' !in a
    ensures s == [s[0]] + a + "@" + b && '@' !in [s[0]] + a
  {
  }

  lemma {:induction false} SplitAtFirst(a: string, b: string)
    requires '@' !in a
    ensures SplitAt(a + "@" + b) == Some((a, b))
  {
    var s := a + "@" + b;
    if a == "" {
      assert s[1..] == b;
    } else {
      SplitAtFirst(a[1..], b);
      assert s[1..] == a[1..] + "@" + b && a == [a[0]] + a[1..];
    }
  }

  lemma IdentHasNoAt(s: string)
    requires Tenants.IsSafeIdent(s)
    ensures '@' !in s
  {
    forall i | 0 <= i < |s| ensures s[i] != '@' { assert Tenants.IsIdentChar(s[i]); }
  }

  /** A model handle is read as exactly the name and alias it is made of. */
  lemma ModelUriIff(s: string, name: string, alias: string)
    ensures ParseModelUri(s) == Some((name, alias)) <==> IsModelUri(s, name, alias)
  {
    hide SplitAt, Tenants.IsSafeIdent;
    if MODEL <= s {
      var rest := s[|MODEL|..];
      assert s == MODEL + rest;
      SplitJoins(rest);
    }
    if IsModelUri(s, name, alias) {
      IdentHasNoAt(name);
      SplitAtFirst(name, alias);
      assert s[|MODEL|..] == name + "@" + alias;
    }
  }

  lemma ParsedOrNot(s: string)
    ensures ParseModelUri(s).None? <==> forall name, alias :: !IsModelUri(s, name, alias)
  {
    hide ParseModelUri, IsModelUri;
    forall name, alias ensures ParseModelUri(s) == Some((name, alias)) <==> IsModelUri(s, name, alias) {
      ModelUriIff(s, name, alias);
    }
    if ParseModelUri(s).Some? {
      var (name, alias) := ParseModelUri(s).value;
      assert IsModelUri(s, name, alias);
    }
  }

  /** One string: it resolves exactly to what it stands for, or fails for a reason. */
  lemma StringResolves(s: string, ctx: Context, stores: Stores)
    ensures var (r, met) := ResolveString(s, ctx, stores);
            if r.Ok? then r.value.Str? && StandsFor(s, r.value.s, ctx) && met == Reported(s, ctx)
            else FailsWith(s, r.error, ctx, stores) && met == []
  {
    SchemeLetters(s);
    if "model://" <= s {
      ModelResolves(s, ctx, stores);
    }
  }

  lemma ModelResolves(s: string, ctx: Context, stores: Stores)
    requires "model://" <= s
    ensures var (r, met) := ResolveString(s, ctx, stores);
            if r.Ok? then r.value.Str? && StandsFor(s, r.value.s, ctx) && met == Reported(s, ctx)
            else FailsWith(s, r.error, ctx, stores) && met == []
  {
    SchemeLetters(s);
    ParsedOrNot(s);
    var parsed := ParseModelUri(s);
    hide ParseModelUri, IsModelUri;
    if parsed.Some? {
      var (name, alias) := parsed.value;
      ModelUriIff(s, name, alias);
      assert IsModelUri(s, name, alias);
    }
  }

  // ---- all strings in order ----

  type Outcome = (Result<seq<string>>, seq<DatasetResolution>)

  /** One part after the other: a failure ends it, and nothing met is lost. */
  function Then(a: Outcome, b: Outcome): Outcome {
    if a.0.Err? then a else (if b.0.Ok? then Ok(a.0.value + b.0.value) else b.0, a.1 + b.1)
  }

  lemma ThenAssociative(a: Outcome, b: Outcome, c: Outcome)
    ensures Then(Then(a, b), c) == Then(a, Then(b, c))
  {
    assert a.1 + b.1 + c.1 == a.1 + (b.1 + c.1);
    if a.0.Ok? && b.0.Ok? && c.0.Ok? {
      assert a.0.value + b.0.value + c.0.value == a.0.value + (b.0.value + c.0.value);
    }
  }

  lemma ThenNothing(a: Outcome)
    ensures Then(a, (Ok([]), [])) == a && Then((Ok([]), []), a) == a
  {
    assert a.1 + [] == a.1 && [] + a.1 == a.1;
    if a.0.Ok? { assert a.0.value + [] == a.0.value && [] + a.0.value == a.0.value; }
  }

  function One(s: string, ctx: Context, stores: Stores): Outcome {
    var (r, met) := ResolveString(s, ctx, stores);
    (if r.Ok? then Ok(StringsIn(r.value)) else Err(r.error), met)
  }

  /** The strings one by one, up to the first that fails. */
  function Flat(ss: seq<string>, ctx: Context, stores: Stores): Outcome {
    if ss == [] then (Ok([]), [])
    else Then(Flat(ss[..|ss| - 1], ctx, stores), One(ss[|ss| - 1], ctx, stores))
  }

  lemma FlatSnoc(ss: seq<string>, s: string, ctx: Context, stores: Stores)
    ensures Flat(ss + [s], ctx, stores) == Then(Flat(ss, ctx, stores), One(s, ctx, stores))
  {
    assert (ss + [s])[..|ss|] == ss;
  }

  lemma {:induction false} FlatConcat(a: seq<string>, b: seq<string>, ctx: Context, stores: Stores)
    ensures Flat(a + b, ctx, stores) == Then(Flat(a, ctx, stores), Flat(b, ctx, stores))
  {
    hide One, Then;
    if b == [] {
      assert a + b == a;
      ThenNothing(Flat(a, ctx, stores));
    } else {
      var n := |b| - 1;
      FlatConcat(a, b[..n], ctx, stores);
      assert a + b == a + b[..n] + [b[n]];
      FlatSnoc(a + b[..n], b[n], ctx, stores);
      ThenAssociative(Flat(a, ctx, stores), Flat(b[..n], ctx, stores), One(b[n], ctx, stores));
    }
  }

  /** The walk over a tree is the walk over its strings. */
  ghost predicate Follows(r: Result<Value>, met: seq<DatasetResolution>, flat: Outcome) {
    && met == flat.1
    && flat.0 == (if r.Ok? then Ok(StringsIn(r.value)) else Err(r.error))
  }

  lemma {:induction false} WalkIsFlat(v: Value, ctx: Context, stores: Stores)
    ensures Follows(Resolve(v, ctx, stores).0, Resolve(v, ctx, stores).1, Flat(StringsIn(v), ctx, stores))
    decreases v, 1
  {
    match v
    case Str(s) => OneString(s, ctx, stores);
    case Arr(items) => ItemsFlat(items, ctx, stores);
    case Obj(fields) => FieldsFlat(fields, ctx, stores);
    case _ =>
  }

  lemma OneString(s: string, ctx: Context, stores: Stores)
    ensures Follows(ResolveString(s, ctx, stores).0, ResolveString(s, ctx, stores).1, Flat([s], ctx, stores))
  {
    hide ResolveString, Flat;
    assert [] + [s] == [s];
    FlatSnoc([], s, ctx, stores);
    FlatNone(ctx, stores);
    ThenNothing(One(s, ctx, stores));
  }

  lemma {:induction false} ItemsFlat(items: seq<Value>, ctx: Context, stores: Stores)
    ensures var (r, met) := ResolveItems(items, ctx, stores);
            Follows(if r.Ok? then Ok(Arr(r.value)) else Err(r.error), met, Flat(StringsInItems(items), ctx, stores))
    decreases items, 0
  {
    hide Resolve, StringsIn, Flat;
    if items == [] {
      FlatNone(ctx, stores);
      ArrStrings([]);
    } else {
      var n := |items| - 1;
      ItemsFlat(items[..n], ctx, stores);
      WalkIsFlat(items[n], ctx, stores);
      FlatConcat(StringsInItems(items[..n]), StringsIn(items[n]), ctx, stores);
      var (r, met) := ResolveItems(items[..n], ctx, stores);
      var last := Resolve(items[n], ctx, stores).0;
      if r.Ok? {
        ArrStrings(r.value);
        if last.Ok? {
          ArrStrings(r.value + [last.value]);
          assert (r.value + [last.value])[..|r.value|] == r.value;
        }
      }
    }
  }

  lemma ArrStrings(items: seq<Value>)
    ensures StringsIn(Arr(items)) == StringsInItems(items)
  {
  }

  lemma ObjStrings(fields: seq<Field>)
    ensures StringsIn(Obj(fields)) == StringsInFields(fields)
  {
  }

  lemma FlatNone(ctx: Context, stores: Stores)
    ensures Flat([], ctx, stores) == (Ok([]), [])
  {
  }

  lemma {:induction false} FieldsFlat(fields: seq<Field>, ctx: Context, stores: Stores)
    ensures var (r, met) := ResolveFields(fields, ctx, stores);
            Follows(if r.Ok? then Ok(Obj(r.value)) else Err(r.error), met, Flat(StringsInFields(fields), ctx, stores))
    decreases fields, 0
  {
    hide Resolve, StringsIn, Flat;
    if fields == [] {
      FlatNone(ctx, stores);
      ObjStrings([]);
    } else {
      var n := |fields| - 1;
      FieldsFlat(fields[..n], ctx, stores);
      WalkIsFlat(fields[n].value, ctx, stores);
      FlatConcat(StringsInFields(fields[..n]), StringsIn(fields[n].value), ctx, stores);
      var (r, met) := ResolveFields(fields[..n], ctx, stores);
      var last := Resolve(fields[n].value, ctx, stores).0;
      if r.Ok? {
        ObjStrings(r.value);
        if last.Ok? {
          ObjStrings(r.value + [Field(fields[n].key, last.value)]);
          assert (r.value + [Field(fields[n].key, last.value)])[..|r.value|] == r.value;
        }
      }
    }
  }

  // ---- the result ----

  /** What the first strings report, in order. */
  function ReportedBy(ss: seq<string>, ctx: Context): seq<DatasetResolution> {
    if ss == [] then [] else ReportedBy(ss[..|ss| - 1], ctx) + Reported(ss[|ss| - 1], ctx)
  }

  ghost predicate AllStandFor(ss: seq<string>, out: seq<string>, ctx: Context) {
    |out| == |ss| && forall i :: 0 <= i < |ss| ==> StandsFor(ss[i], out[i], ctx)
  }

  lemma {:induction false} FlatMeans(ss: seq<string>, ctx: Context, stores: Stores)
    ensures var (r, met) := Flat(ss, ctx, stores);
            if r.Ok? then AllStandFor(ss, r.value, ctx) && met == ReportedBy(ss, ctx)
            else FirstFailure(ss, r.error, met, ctx, stores)
  {
    hide ResolveString, StandsFor, FailsWith, Reported;
    if ss != [] {
      var n := |ss| - 1;
      FlatMeans(ss[..n], ctx, stores);
      StringResolves(ss[n], ctx, stores);
      assert ss[..n] + [ss[n]] == ss;
      var (rest, met) := Flat(ss[..n], ctx, stores);
      if rest.Err? {
        var i :| 0 <= i < n && FailsWith(ss[..n][i], rest.error, ctx, stores) && met == ReportedBy(ss[..n][..i], ctx)
                 && exists out :: AllStandFor(ss[..n][..i], out, ctx);
        assert ss[..n][..i] == ss[..i] && ss[..n][i] == ss[i];
      } else if ResolveString(ss[n], ctx, stores).0.Err? {
        assert met + [] == met;
        assert AllStandFor(ss[..n], rest.value, ctx);
      }
    }
  }

  /** The walk stopped at the first string that fails, with its reason, having
      reported what the strings before it report. */
  ghost predicate FirstFailure(ss: seq<string>, e: Error, met: seq<DatasetResolution>, ctx: Context, stores: Stores) {
    exists i :: 0 <= i < |ss| && FailsWith(ss[i], e, ctx, stores) && met == ReportedBy(ss[..i], ctx)
                && exists out :: AllStandFor(ss[..i], out, ctx)
  }

  /** Every string of a resolved tree is what the string at its place stands for, the
      bindings met are the stores' answers for its dataset handles in order, and a
      tree that does not resolve fails at its first string that does not. */
  lemma ResolvedStrings(v: Value, ctx: Context, stores: Stores)
    ensures var (r, met) := Resolve(v, ctx, stores);
            if r.Ok? then AllStandFor(StringsIn(v), StringsIn(r.value), ctx) && met == ReportedBy(StringsIn(v), ctx)
            else FirstFailure(StringsIn(v), r.error, met, ctx, stores)
  {
    hide Resolve, Flat, StringsIn, FirstFailure, AllStandFor;
    WalkIsFlat(v, ctx, stores);
    FlatMeans(StringsIn(v), ctx, stores);
  }
}
