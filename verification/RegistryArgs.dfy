/** Registry URIs in raw recipe arguments (src/registry_args.rs): every handle
    string in a JSON tree is replaced by what it names, and the dataset
    bindings met on the way are reported. */
module RegistryArgs {
  import opened Json
  import opened Options
  import opened Tenants

  datatype DatasetResolution = DatasetResolution(
    tenant: string, name: string, version: string, datasetId: string,
    sourcePath: Option<string>, manifestSha256: string)

  datatype Error =
    | StoreDidNotOpen | RegistryUnavailable | DatasetRefused | PathNotUtf8
    | NodeLocalOnly | NotAModelUri | UnresolvedModel | ExperimentRefused

  datatype Result<+T> = Ok(value: T) | Err(error: Error)

  /** Which stores are open. */
  datatype Stores = Stores(dataset: bool, model: bool, experiment: bool)

  /** The caller's context: what each store answers. A source path of None is
      one that is not valid UTF-8. */
  datatype Context = Context(
    restricted: bool, local: bool,
    dataset: string -> Option<DatasetResolution>,
    pointer: (string, string) -> Option<string>,
    experiment: string -> Option<string>)

  const DATASET := "dataset://"
  const MODEL := "model://"
  const EXPERIMENT := "experiment://"

  // ---- reported handles ----

  predicate SameHandle(a: DatasetResolution, b: DatasetResolution) {
    a.tenant == b.tenant && a.name == b.name && a.version == b.version
  }

  predicate Held(xs: seq<DatasetResolution>, d: DatasetResolution) {
    exists i :: 0 <= i < |xs| && SameHandle(xs[i], d)
  }

  function Push(xs: seq<DatasetResolution>, d: DatasetResolution): seq<DatasetResolution> {
    if Held(xs, d) then xs else xs + [d]
  }

  function Absorbed(xs: seq<DatasetResolution>, ys: seq<DatasetResolution>): seq<DatasetResolution> {
    if ys == [] then xs else Push(Absorbed(xs, ys[..|ys| - 1]), ys[|ys| - 1])
  }

  class ResolvedHandles {
    var datasets: seq<DatasetResolution>

    constructor ()
      ensures datasets == []
    {
      datasets := [];
    }

    /** Record a binding unless one under the same key is already held. */
    method PushDataset(d: DatasetResolution)
      modifies this
      ensures datasets == Push(old(datasets), d)
    {
      for i := 0 to |datasets|
        invariant datasets == old(datasets)
        invariant forall j :: 0 <= j < i ==> !SameHandle(datasets[j], d)
      {
        if SameHandle(datasets[i], d) {
          return;
        }
      }
      datasets := datasets + [d];
    }

    /** Fold another pass's handles in. */
    method Absorb(other: seq<DatasetResolution>)
      modifies this
      ensures datasets == Absorbed(old(datasets), other)
    {
      for i := 0 to |other|
        invariant datasets == Absorbed(old(datasets), other[..i])
      {
        assert other[..i + 1][..i] == other[..i];
        PushDataset(other[i]);
      }
      assert other[..|other|] == other;
    }
  }

  // ---- resolution ----

  /** Split at the first `@`. */
  function SplitAt(s: string): Option<(string, string)> {
    if s == "" then None
    else if s[0] == '@' then Some(("", s[1..]))
    else
      var r := SplitAt(s[1..]);
      if r.None? then None else Some(([s[0]] + r.value.0, r.value.1))
  }

  function ParseModelUri(uri: string): Option<(string, string)> {
    if !(MODEL <= uri) then None
    else
      var r := SplitAt(uri[|MODEL|..]);
      if r.Some? && IsSafeIdent(r.value.0) && IsSafeIdent(r.value.1) then r else None
  }

  /** What one string resolves to, and the binding it reports, if any. */
  function ResolveString(s: string, ctx: Context, stores: Stores): (Result<Value>, seq<DatasetResolution>) {
    if DATASET <= s then
      if !stores.dataset then (Err(RegistryUnavailable), [])
      else
        var d := ctx.dataset(s);
        if d.None? then (Err(DatasetRefused), [])
        else if d.value.sourcePath.None? then (Err(PathNotUtf8), [])
        else (Ok(Str(d.value.sourcePath.value)), [d.value])
    else if MODEL <= s then
      if !stores.model then (Err(RegistryUnavailable), [])
      else if ctx.restricted && !ctx.local then (Err(NodeLocalOnly), [])
      else
        var parsed := ParseModelUri(s);
        if parsed.None? then (Err(NotAModelUri), [])
        else
          var hash := ctx.pointer(parsed.value.0, parsed.value.1);
          if hash.None? then (Err(UnresolvedModel), []) else (Ok(Str(hash.value)), [])
    else if EXPERIMENT <= s then
      if !stores.experiment then (Err(RegistryUnavailable), [])
      else
        var run := ctx.experiment(s);
        if run.None? then (Err(ExperimentRefused), []) else (Ok(Str(run.value)), [])
    else (Ok(Str(s)), [])
  }

  /** The rebuilt tree and every binding met, repeats included, in walk order;
      the walk stops at the first error. */
  function Resolve(v: Value, ctx: Context, stores: Stores): (Result<Value>, seq<DatasetResolution>)
    decreases v, 1
  {
    match v
    case Str(s) => ResolveString(s, ctx, stores)
    case Arr(items) =>
      var (r, met) := ResolveItems(items, ctx, stores);
      (if r.Ok? then Ok(Arr(r.value)) else Err(r.error), met)
    case Obj(fields) =>
      var (r, met) := ResolveFields(fields, ctx, stores);
      (if r.Ok? then Ok(Obj(r.value)) else Err(r.error), met)
    case _ => (Ok(v), [])
  }

  function ResolveItems(items: seq<Value>, ctx: Context, stores: Stores): (Result<seq<Value>>, seq<DatasetResolution>)
    decreases items, 0
  {
    if items == [] then (Ok([]), [])
    else
      var (rest, met) := ResolveItems(items[..|items| - 1], ctx, stores);
      if rest.Err? then (rest, met)
      else
        var (last, more) := Resolve(items[|items| - 1], ctx, stores);
        (if last.Ok? then Ok(rest.value + [last.value]) else Err(last.error), met + more)
  }

  function ResolveFields(fields: seq<Field>, ctx: Context, stores: Stores): (Result<seq<Field>>, seq<DatasetResolution>)
    decreases fields, 0
  {
    if fields == [] then (Ok([]), [])
    else
      var (rest, met) := ResolveFields(fields[..|fields| - 1], ctx, stores);
      if rest.Err? then (rest, met)
      else
        var f := fields[|fields| - 1];
        var (last, more) := Resolve(f.value, ctx, stores);
        (if last.Ok? then Ok(rest.value + [Field(f.key, last.value)]) else Err(last.error), met + more)
  }

  // ---- which stores a tree needs ----

  function Either(a: Stores, b: Stores): Stores {
    Stores(a.dataset || b.dataset, a.model || b.model, a.experiment || b.experiment)
  }

  const NOTHING := Stores(false, false, false)
  const EVERYTHING := Stores(true, true, true)

  function Needed(v: Value): Stores
    decreases v, 1
  {
    match v
    case Str(s) => Stores(DATASET <= s, MODEL <= s, EXPERIMENT <= s)
    case Arr(items) => NeededItems(items)
    case Obj(fields) => NeededFields(fields)
    case _ => NOTHING
  }

  function NeededItems(items: seq<Value>): Stores
    decreases items, 0
  {
    if items == [] then NOTHING else Either(NeededItems(items[..|items| - 1]), Needed(items[|items| - 1]))
  }

  function NeededFields(fields: seq<Field>): Stores
    decreases fields, 0
  {
    if fields == [] then NOTHING else Either(NeededFields(fields[..|fields| - 1]), Needed(fields[|fields| - 1].value))
  }

  predicate Covers(a: Stores, b: Stores) {
    (b.dataset ==> a.dataset) && (b.model ==> a.model) && (b.experiment ==> a.experiment)
  }

  // ---- the code ----

  /** One in-order walk that rebuilds the tree and pushes bindings as it meets them. */
  method ResolveInner(v: Value, ctx: Context, stores: Stores, handles: ResolvedHandles) returns (r: Result<Value>)
    modifies handles
    ensures r == Resolve(v, ctx, stores).0
    ensures handles.datasets == Absorbed(old(handles.datasets), Resolve(v, ctx, stores).1)
    decreases v
  {
    hide Push;
    if v.Str? {
      var (out, met) := ResolveString(v.s, ctx, stores);
      if met != [] {
        handles.PushDataset(met[0]);
        assert met == [met[0]] && met[..0] == [];
      }
      return out;
    }
    if v.Arr? {
      var items: seq<Value> := [];
      for i := 0 to |v.items|
        invariant ResolveItems(v.items[..i], ctx, stores).0 == Ok(items)
        invariant handles.datasets == Absorbed(old(handles.datasets), ResolveItems(v.items[..i], ctx, stores).1)
      {
        ghost var met := ResolveItems(v.items[..i], ctx, stores).1;
        var last := ResolveInner(v.items[i], ctx, stores, handles);
        AbsorbedConcat(old(handles.datasets), met, Resolve(v.items[i], ctx, stores).1);
        ItemsStep(v.items, i, ctx, stores);
        if last.Err? {
          ItemsStuck(v.items, i + 1, ctx, stores);
          return Err(last.error);
        }
        items := items + [last.value];
      }
      assert v.items[..|v.items|] == v.items;
      return Ok(Arr(items));
    }
    if v.Obj? {
      var fields: seq<Field> := [];
      for i := 0 to |v.fields|
        invariant ResolveFields(v.fields[..i], ctx, stores).0 == Ok(fields)
        invariant handles.datasets == Absorbed(old(handles.datasets), ResolveFields(v.fields[..i], ctx, stores).1)
      {
        ghost var met := ResolveFields(v.fields[..i], ctx, stores).1;
        var last := ResolveInner(v.fields[i].value, ctx, stores, handles);
        AbsorbedConcat(old(handles.datasets), met, Resolve(v.fields[i].value, ctx, stores).1);
        FieldsStep(v.fields, i, ctx, stores);
        if last.Err? {
          FieldsStuck(v.fields, i + 1, ctx, stores);
          return Err(last.error);
        }
        fields := fields + [Field(v.fields[i].key, last.value)];
      }
      assert v.fields[..|v.fields|] == v.fields;
      return Ok(Obj(fields));
    }
    return Ok(v);
  }

  lemma ItemsStep(items: seq<Value>, i: nat, ctx: Context, stores: Stores)
    requires i < |items| && ResolveItems(items[..i], ctx, stores).0.Ok?
    ensures var (rest, met) := ResolveItems(items[..i], ctx, stores);
            var (last, more) := Resolve(items[i], ctx, stores);
            ResolveItems(items[..i + 1], ctx, stores)
              == (if last.Ok? then Ok(rest.value + [last.value]) else Err(last.error), met + more)
  {
    hide Resolve;
    assert items[..i + 1][..i] == items[..i];
  }

  lemma FieldsStep(fields: seq<Field>, i: nat, ctx: Context, stores: Stores)
    requires i < |fields| && ResolveFields(fields[..i], ctx, stores).0.Ok?
    ensures var (rest, met) := ResolveFields(fields[..i], ctx, stores);
            var (last, more) := Resolve(fields[i].value, ctx, stores);
            ResolveFields(fields[..i + 1], ctx, stores)
              == (if last.Ok? then Ok(rest.value + [Field(fields[i].key, last.value)]) else Err(last.error), met + more)
  {
    hide Resolve;
    assert fields[..i + 1][..i] == fields[..i];
  }

  /** The first error ends the walk. */
  lemma {:induction false} ItemsStuck(items: seq<Value>, i: nat, ctx: Context, stores: Stores)
    requires i <= |items| && ResolveItems(items[..i], ctx, stores).0.Err?
    ensures ResolveItems(items, ctx, stores) == ResolveItems(items[..i], ctx, stores)
    decreases |items|
  {
    hide Resolve;
    if i == |items| {
      assert items[..i] == items;
    } else {
      var rest := items[..|items| - 1];
      assert rest[..i] == items[..i];
      ItemsStuck(rest, i, ctx, stores);
    }
  }

  lemma {:induction false} FieldsStuck(fields: seq<Field>, i: nat, ctx: Context, stores: Stores)
    requires i <= |fields| && ResolveFields(fields[..i], ctx, stores).0.Err?
    ensures ResolveFields(fields, ctx, stores) == ResolveFields(fields[..i], ctx, stores)
    decreases |fields|
  {
    hide Resolve;
    if i == |fields| {
      assert fields[..i] == fields;
    } else {
      var rest := fields[..|fields| - 1];
      assert rest[..i] == fields[..i];
      FieldsStuck(rest, i, ctx, stores);
    }
  }

  /** The scan that sets the three flags as it walks. */
  method Visit(v: Value, acc: Stores) returns (acc': Stores)
    ensures acc' == Either(acc, Needed(v))
    decreases v
  {
    acc' := acc;
    if v.Str? {
      acc' := Stores(acc.dataset || DATASET <= v.s, acc.model || MODEL <= v.s, acc.experiment || EXPERIMENT <= v.s);
    } else if v.Arr? {
      for i := 0 to |v.items|
        invariant acc' == Either(acc, NeededItems(v.items[..i]))
      {
        assert v.items[..i + 1][..i] == v.items[..i];
        acc' := Visit(v.items[i], acc');
      }
      assert v.items[..|v.items|] == v.items;
    } else if v.Obj? {
      for i := 0 to |v.fields|
        invariant acc' == Either(acc, NeededFields(v.fields[..i]))
      {
        assert v.fields[..i + 1][..i] == v.fields[..i];
        acc' := Visit(v.fields[i].value, acc');
      }
      assert v.fields[..|v.fields|] == v.fields;
    }
  }

  /** The production entry point: scan, open only what is needed, resolve. Unless a
      needed store does not open, the outcome is that of resolving with every store
      open; a store that is not needed need not even exist. */
  method ResolveRecipeArgsReported(raw: Value, ctx: Context, opens: Stores)
    returns (r: Result<Value>, handles: seq<DatasetResolution>)
    ensures !Covers(opens, Needed(raw)) ==> r == Err(StoreDidNotOpen)
    ensures Covers(opens, Needed(raw)) ==>
              && r == Resolve(raw, ctx, EVERYTHING).0
              && (r.Ok? ==> handles == FirstOccurrences(Resolve(raw, ctx, EVERYTHING).1))
    ensures r.Err? ==> r.error != RegistryUnavailable
  {
    hide Resolve, Needed;
    var needs := Visit(raw, NOTHING);
    NeededSuffices(raw, ctx, needs);
    NeverUnavailable(raw, ctx, needs);
    if needs == NOTHING {
      UriFreeUnchanged(raw, ctx, EVERYTHING);
      return Ok(raw), [];
    }
    if needs.dataset && !opens.dataset {
      return Err(StoreDidNotOpen), [];
    }
    if needs.model && !opens.model {
      return Err(StoreDidNotOpen), [];
    }
    if needs.experiment && !opens.experiment {
      return Err(StoreDidNotOpen), [];
    }
    var held := new ResolvedHandles();
    r := ResolveInner(raw, ctx, needs, held);
    AbsorbedIsFirstOccurrences([], Resolve(raw, ctx, EVERYTHING).1);
    assert [] + Resolve(raw, ctx, EVERYTHING).1 == Resolve(raw, ctx, EVERYTHING).1;
    handles := held.datasets;
  }

  // ---- opening only what is needed ----

  /** Covering the scan's answer gives the same outcome as opening everything. */
  lemma {:induction false} NeededSuffices(v: Value, ctx: Context, stores: Stores)
    requires Covers(stores, Needed(v))
    ensures Resolve(v, ctx, stores) == Resolve(v, ctx, EVERYTHING)
    decreases v, 1
  {
    match v
    case Arr(items) => ItemsSuffice(items, ctx, stores);
    case Obj(fields) => FieldsSuffice(fields, ctx, stores);
    case _ =>
  }

  lemma {:induction false} ItemsSuffice(items: seq<Value>, ctx: Context, stores: Stores)
    requires Covers(stores, NeededItems(items))
    ensures ResolveItems(items, ctx, stores) == ResolveItems(items, ctx, EVERYTHING)
    decreases items, 0
  {
    hide Resolve, Needed;
    if items != [] {
      ItemsSuffice(items[..|items| - 1], ctx, stores);
      NeededSuffices(items[|items| - 1], ctx, stores);
    }
  }

  lemma {:induction false} FieldsSuffice(fields: seq<Field>, ctx: Context, stores: Stores)
    requires Covers(stores, NeededFields(fields))
    ensures ResolveFields(fields, ctx, stores) == ResolveFields(fields, ctx, EVERYTHING)
    decreases fields, 0
  {
    hide Resolve, Needed;
    if fields != [] {
      FieldsSuffice(fields[..|fields| - 1], ctx, stores);
      NeededSuffices(fields[|fields| - 1].value, ctx, stores);
    }
  }

  /** The scan asks for nothing superfluous: a walk that succeeds had every
      store the scan asks for. */
  lemma {:induction false} NeededIsNecessary(v: Value, ctx: Context, stores: Stores)
    requires Resolve(v, ctx, stores).0.Ok?
    ensures Covers(stores, Needed(v))
    decreases v, 1
  {
    match v
    case Str(s) => SchemesDisjoint(s);
    case Arr(items) => ItemsNecessary(items, ctx, stores);
    case Obj(fields) => FieldsNecessary(fields, ctx, stores);
    case _ =>
  }

  lemma SchemesDisjoint(s: string)
    ensures DATASET <= s ==> !(MODEL <= s) && !(EXPERIMENT <= s)
    ensures MODEL <= s ==> !(EXPERIMENT <= s)
  {
    assert DATASET[0] == 'd' && MODEL[0] == 'm' && EXPERIMENT[0] == 'e';
  }

  lemma {:induction false} ItemsNecessary(items: seq<Value>, ctx: Context, stores: Stores)
    requires ResolveItems(items, ctx, stores).0.Ok?
    ensures Covers(stores, NeededItems(items))
    decreases items, 0
  {
    hide Resolve, Needed;
    if items != [] {
      ItemsNecessary(items[..|items| - 1], ctx, stores);
      NeededIsNecessary(items[|items| - 1], ctx, stores);
    }
  }

  lemma {:induction false} FieldsNecessary(fields: seq<Field>, ctx: Context, stores: Stores)
    requires ResolveFields(fields, ctx, stores).0.Ok?
    ensures Covers(stores, NeededFields(fields))
    decreases fields, 0
  {
    hide Resolve, Needed;
    if fields != [] {
      FieldsNecessary(fields[..|fields| - 1], ctx, stores);
      NeededIsNecessary(fields[|fields| - 1].value, ctx, stores);
    }
  }

  /** With the needed stores open, "registry unavailable" cannot be the answer. */
  lemma {:induction false} NeverUnavailable(v: Value, ctx: Context, stores: Stores)
    requires Covers(stores, Needed(v))
    ensures Resolve(v, ctx, stores).0 != Err(RegistryUnavailable)
    decreases v, 1
  {
    match v
    case Arr(items) => ItemsAvailable(items, ctx, stores);
    case Obj(fields) => FieldsAvailable(fields, ctx, stores);
    case _ =>
  }

  lemma {:induction false} ItemsAvailable(items: seq<Value>, ctx: Context, stores: Stores)
    requires Covers(stores, NeededItems(items))
    ensures ResolveItems(items, ctx, stores).0 != Err(RegistryUnavailable)
    decreases items, 0
  {
    hide Resolve, Needed;
    if items != [] {
      ItemsAvailable(items[..|items| - 1], ctx, stores);
      NeverUnavailable(items[|items| - 1], ctx, stores);
    }
  }

  lemma {:induction false} FieldsAvailable(fields: seq<Field>, ctx: Context, stores: Stores)
    requires Covers(stores, NeededFields(fields))
    ensures ResolveFields(fields, ctx, stores).0 != Err(RegistryUnavailable)
    decreases fields, 0
  {
    hide Resolve, Needed;
    if fields != [] {
      FieldsAvailable(fields[..|fields| - 1], ctx, stores);
      NeverUnavailable(fields[|fields| - 1].value, ctx, stores);
    }
  }

  /** A tree without registry strings comes back unchanged and reports nothing. */
  lemma {:induction false} UriFreeUnchanged(v: Value, ctx: Context, stores: Stores)
    requires Needed(v) == NOTHING
    ensures Resolve(v, ctx, stores) == (Ok(v), [])
    decreases v, 1
  {
    match v
    case Arr(items) => ItemsUnchanged(items, ctx, stores);
    case Obj(fields) => FieldsUnchanged(fields, ctx, stores);
    case _ =>
  }

  lemma {:induction false} ItemsUnchanged(items: seq<Value>, ctx: Context, stores: Stores)
    requires NeededItems(items) == NOTHING
    ensures ResolveItems(items, ctx, stores) == (Ok(items), [])
    decreases items, 0
  {
    hide Resolve, Needed;
    if items != [] {
      ItemsUnchanged(items[..|items| - 1], ctx, stores);
      UriFreeUnchanged(items[|items| - 1], ctx, stores);
      assert items == items[..|items| - 1] + [items[|items| - 1]];
      var none: seq<DatasetResolution> := [];
      assert none + none == none;
    }
  }

  lemma {:induction false} FieldsUnchanged(fields: seq<Field>, ctx: Context, stores: Stores)
    requires NeededFields(fields) == NOTHING
    ensures ResolveFields(fields, ctx, stores) == (Ok(fields), [])
    decreases fields, 0
  {
    hide Resolve, Needed;
    if fields != [] {
      FieldsUnchanged(fields[..|fields| - 1], ctx, stores);
      UriFreeUnchanged(fields[|fields| - 1].value, ctx, stores);
      assert fields == fields[..|fields| - 1] + [fields[|fields| - 1]];
      var none: seq<DatasetResolution> := [];
      assert none + none == none;
    }
  }

  // ---- what the rebuilt tree is ----

  /** w is v with every string replaced by what it alone resolves to: same
      lengths, same keys, everything else as it was. */
  ghost predicate Rebuilt(v: Value, w: Value, ctx: Context, stores: Stores)
    decreases v
  {
    match v
    case Str(s) => ResolveString(s, ctx, stores).0 == Ok(w)
    case Arr(items) =>
      w.Arr? && |w.items| == |items| && forall i :: 0 <= i < |items| ==> Rebuilt(items[i], w.items[i], ctx, stores)
    case Obj(fields) =>
      && w.Obj? && |w.fields| == |fields|
      && forall i :: 0 <= i < |fields| ==>
           w.fields[i].key == fields[i].key && Rebuilt(fields[i].value, w.fields[i].value, ctx, stores)
    case _ => w == v
  }

  /** The walk succeeds with w exactly when w is the tree rebuilt string by string. */
  lemma {:induction false} ResolvesIff(v: Value, w: Value, ctx: Context, stores: Stores)
    ensures Resolve(v, ctx, stores).0 == Ok(w) <==> Rebuilt(v, w, ctx, stores)
    decreases v, 1
  {
    match v
    case Arr(items) => if w.Arr? { ItemsIff(items, w.items, ctx, stores); }
    case Obj(fields) => if w.Obj? { FieldsIff(fields, w.fields, ctx, stores); }
    case _ =>
  }

  lemma {:induction false} ItemsIff(items: seq<Value>, ws: seq<Value>, ctx: Context, stores: Stores)
    ensures ResolveItems(items, ctx, stores).0 == Ok(ws) <==>
              |ws| == |items| && forall i :: 0 <= i < |items| ==> Rebuilt(items[i], ws[i], ctx, stores)
    decreases items, 0
  {
    hide Resolve, Rebuilt;
    if items != [] {
      var n := |items| - 1;
      if ws != [] {
        assert ws == ws[..|ws| - 1] + [ws[|ws| - 1]];
        ItemsIff(items[..n], ws[..|ws| - 1], ctx, stores);
        ResolvesIff(items[n], ws[|ws| - 1], ctx, stores);
      }
    }
  }

  lemma {:induction false} FieldsIff(fields: seq<Field>, ws: seq<Field>, ctx: Context, stores: Stores)
    ensures ResolveFields(fields, ctx, stores).0 == Ok(ws) <==>
              && |ws| == |fields|
              && forall i :: 0 <= i < |fields| ==>
                   ws[i].key == fields[i].key && Rebuilt(fields[i].value, ws[i].value, ctx, stores)
    decreases fields, 0
  {
    hide Resolve, Rebuilt;
    if fields != [] {
      var n := |fields| - 1;
      if ws != [] {
        assert ws == ws[..|ws| - 1] + [ws[|ws| - 1]];
        FieldsIff(fields[..n], ws[..|ws| - 1], ctx, stores);
        ResolvesIff(fields[n].value, ws[|ws| - 1].value, ctx, stores);
      }
    }
  }

  /** Away from its node, a restricted tenant's tree with a model handle anywhere
      in it does not resolve. */
  lemma {:induction false} RestrictedStaysLocal(v: Value, ctx: Context, stores: Stores)
    requires ctx.restricted && !ctx.local && Needed(v).model
    ensures Resolve(v, ctx, stores).0.Err?
    decreases v, 1
  {
    match v
    case Str(s) => SchemesDisjoint(s);
    case Arr(items) => RestrictedItems(items, ctx, stores);
    case Obj(fields) => RestrictedFields(fields, ctx, stores);
    case _ =>
  }

  lemma {:induction false} RestrictedItems(items: seq<Value>, ctx: Context, stores: Stores)
    requires ctx.restricted && !ctx.local && NeededItems(items).model
    ensures ResolveItems(items, ctx, stores).0.Err?
    decreases items, 0
  {
    hide Resolve, Needed;
    var n := |items| - 1;
    if NeededItems(items[..n]).model {
      RestrictedItems(items[..n], ctx, stores);
    } else {
      RestrictedStaysLocal(items[n], ctx, stores);
    }
  }

  lemma {:induction false} RestrictedFields(fields: seq<Field>, ctx: Context, stores: Stores)
    requires ctx.restricted && !ctx.local && NeededFields(fields).model
    ensures ResolveFields(fields, ctx, stores).0.Err?
    decreases fields, 0
  {
    hide Resolve, Needed;
    var n := |fields| - 1;
    if NeededFields(fields[..n]).model {
      RestrictedFields(fields[..n], ctx, stores);
    } else {
      RestrictedStaysLocal(fields[n].value, ctx, stores);
    }
  }

  // ---- the reported list ----

  /** The elements that no earlier element shares a key with, in order. */
  ghost function FirstOccurrences(xs: seq<DatasetResolution>): seq<DatasetResolution> {
    if xs == [] then []
    else
      var rest, last := xs[..|xs| - 1], xs[|xs| - 1];
      FirstOccurrences(rest) + (if Held(rest, last) then [] else [last])
  }

  ghost predicate NoRepeats(xs: seq<DatasetResolution>) {
    forall i, j :: 0 <= i < j < |xs| ==> !SameHandle(xs[i], xs[j])
  }

  lemma HeldSnoc(xs: seq<DatasetResolution>, y: DatasetResolution, d: DatasetResolution)
    ensures Held(xs + [y], d) <==> Held(xs, d) || SameHandle(y, d)
  {
    var zs := xs + [y];
    assert zs[|xs|] == y && forall i :: 0 <= i < |xs| ==> zs[i] == xs[i];
    if Held(xs, d) {
      var i :| 0 <= i < |xs| && SameHandle(xs[i], d);
      assert SameHandle(zs[i], d);
    }
    if SameHandle(y, d) { assert SameHandle(zs[|xs|], d); }
  }

  lemma PushHolds(xs: seq<DatasetResolution>, y: DatasetResolution, d: DatasetResolution)
    ensures Held(Push(xs, y), d) <==> Held(xs, d) || SameHandle(y, d)
  {
    HeldSnoc(xs, y, d);
  }

  lemma {:induction false} AbsorbedHolds(xs: seq<DatasetResolution>, ys: seq<DatasetResolution>, d: DatasetResolution)
    ensures Held(Absorbed(xs, ys), d) <==> Held(xs, d) || Held(ys, d)
  {
    hide Held, Push;
    if ys == [] {
      HeldNone(d);
    } else {
      var rest, last := ys[..|ys| - 1], ys[|ys| - 1];
      AbsorbedHolds(xs, rest, d);
      PushHolds(Absorbed(xs, rest), last, d);
      HeldSnoc(rest, last, d);
      assert ys == rest + [last];
    }
  }

  lemma HeldNone(d: DatasetResolution)
    ensures !Held([], d)
  {
  }

  lemma {:induction false} AbsorbedConcat(
    xs: seq<DatasetResolution>, ys: seq<DatasetResolution>, zs: seq<DatasetResolution>)
    ensures Absorbed(xs, ys + zs) == Absorbed(Absorbed(xs, ys), zs)
  {
    hide Push;
    if zs == [] {
      assert ys + zs == ys;
    } else {
      assert (ys + zs)[..|ys + zs| - 1] == ys + zs[..|zs| - 1];
      AbsorbedConcat(xs, ys, zs[..|zs| - 1]);
    }
  }

  /** The list kept is the first occurrence of each key, in order of appearance. */
  lemma {:induction false} AbsorbedIsFirstOccurrences(xs: seq<DatasetResolution>, ys: seq<DatasetResolution>)
    requires xs == FirstOccurrences(xs)
    ensures Absorbed(xs, ys) == FirstOccurrences(xs + ys)
  {
    hide Held;
    if ys == [] {
      assert xs + ys == xs;
    } else {
      var rest, last := ys[..|ys| - 1], ys[|ys| - 1];
      AbsorbedIsFirstOccurrences(xs, rest);
      assert (xs + ys)[..|xs + ys| - 1] == xs + rest;
      AbsorbedHolds(xs, rest, last);
      HeldConcat(xs, rest, last);
    }
  }

  lemma HeldConcat(xs: seq<DatasetResolution>, ys: seq<DatasetResolution>, d: DatasetResolution)
    ensures Held(xs + ys, d) <==> Held(xs, d) || Held(ys, d)
  {
    var zs := xs + ys;
    if Held(xs, d) {
      var i :| 0 <= i < |xs| && SameHandle(xs[i], d);
      assert SameHandle(zs[i], d);
    }
    if Held(ys, d) {
      var i :| 0 <= i < |ys| && SameHandle(ys[i], d);
      assert SameHandle(zs[|xs| + i], d);
    }
    if Held(zs, d) {
      var i :| 0 <= i < |zs| && SameHandle(zs[i], d);
      if i < |xs| { assert SameHandle(xs[i], d); } else { assert SameHandle(ys[i - |xs|], d); }
    }
  }

  lemma {:induction false} AbsorbedNoRepeats(xs: seq<DatasetResolution>, ys: seq<DatasetResolution>)
    requires NoRepeats(xs)
    ensures NoRepeats(Absorbed(xs, ys))
  {
    if ys != [] { AbsorbedNoRepeats(xs, ys[..|ys| - 1]); }
  }

  lemma {:induction false} AbsorbedNothingNew(xs: seq<DatasetResolution>, ys: seq<DatasetResolution>)
    requires forall i :: 0 <= i < |ys| ==> Held(xs, ys[i])
    ensures Absorbed(xs, ys) == xs
  {
    hide Held;
    if ys != [] {
      var n := |ys| - 1;
      assert Held(xs, ys[n]);
      AbsorbedNothingNew(xs, ys[..n]);
    }
  }

  /** Absorbing the same handles again changes nothing. */
  lemma AbsorbIdempotent(xs: seq<DatasetResolution>, ys: seq<DatasetResolution>)
    ensures Absorbed(Absorbed(xs, ys), ys) == Absorbed(xs, ys)
    ensures Absorbed(xs, xs) == xs
  {
    forall i | 0 <= i < |ys| ensures Held(Absorbed(xs, ys), ys[i]) {
      AbsorbedHolds(xs, ys, ys[i]);
      assert SameHandle(ys[i], ys[i]);
    }
    AbsorbedNothingNew(Absorbed(xs, ys), ys);
    forall i | 0 <= i < |xs| ensures Held(xs, xs[i]) { assert SameHandle(xs[i], xs[i]); }
    AbsorbedNothingNew(xs, xs);
  }

  /** Passes may be folded together in any grouping. */
  lemma {:induction false} AbsorbAssociative(
    xs: seq<DatasetResolution>, ys: seq<DatasetResolution>, zs: seq<DatasetResolution>)
    ensures Absorbed(Absorbed(xs, ys), zs) == Absorbed(xs, Absorbed(ys, zs))
  {
    hide Held;
    if zs != [] {
      var rest, last := zs[..|zs| - 1], zs[|zs| - 1];
      AbsorbAssociative(xs, ys, rest);
      var inner := Absorbed(ys, rest);
      if Held(inner, last) {
        AbsorbedHolds(xs, inner, last);
      } else {
        assert (inner + [last])[..|inner|] == inner;
      }
    }
  }
}
