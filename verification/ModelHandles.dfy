/** Promoted pointers seen from recipe arguments: src/registry_args.rs looks a model
    up under its tenant's rendering, src/model_registry.rs keeps it under the tenant
    as it was spelled. */
module ModelHandles {
  import opened Options
  import opened Json
  import ArgStrings
  import Pointers
  import ModelRegistry
  import RegistryArgs
  import Tenants

  /** What a handle is looked up under, for a launch by tenant t. */
  function KeyOf(t: Tenants.Tenant, uri: string): Option<ModelRegistry.Key> {
    var parsed := RegistryArgs.ParseModelUri(uri);
    if parsed.None? then None else Some(ModelRegistry.Key(Tenants.Render(t), parsed.value.0, parsed.value.1))
  }

  /** The context of a local launch by tenant t, as far as models are concerned. */
  function ContextOf(r: ModelRegistry.Registry, t: Tenants.Tenant): RegistryArgs.Context {
    RegistryArgs.Context(
      Tenants.IsRestricted(t), true, uri => None,
      (name, alias) =>
        var k := ModelRegistry.Key(Tenants.Render(t), name, alias);
        if k in r.table.pointers then Some(r.table.pointers[k]) else None,
      uri => None)
  }

  function HandleOf(k: ModelRegistry.Key): string { RegistryArgs.MODEL + (k.name + "@" + k.alias) }

  lemma HandleParses(k: ModelRegistry.Key)
    requires Tenants.IsSafeIdent(k.name) && Tenants.IsSafeIdent(k.alias)
    ensures RegistryArgs.ParseModelUri(HandleOf(k)) == Some((k.name, k.alias))
  {
    hide RegistryArgs.ParseModelUri, Tenants.IsSafeIdent;
    ArgStrings.ModelUriIff(HandleOf(k), k.name, k.alias);
  }

  /** In every reachable registry, some handle in the arguments of some tenant's
      launch is looked up under the key of a pointer if and only if the pointer's
      tenant is spelled canonically. */
  lemma ReachableIff(ops: seq<ModelRegistry.Op>, k: ModelRegistry.Key)
    requires k in ModelRegistry.Exec(ops).table.pointers
    ensures Tenants.Parse(k.tenant).Some?
    ensures (exists t, uri :: Tenants.WellFormed(t) && KeyOf(t, uri) == Some(k))
       <==> Tenants.Render(Tenants.Parse(k.tenant).value) == k.tenant
  {
    PointerIsUsable(ops, k);
    hide Tenants.Parse, Tenants.IsSafeIdent, Tenants.WellFormed, RegistryArgs.ParseModelUri, HandleOf;
    if t, uri :| Tenants.WellFormed(t) && KeyOf(t, uri) == Some(k) {
      Tenants.ParseInverts(t);
    }
    if Tenants.Render(Tenants.Parse(k.tenant).value) == k.tenant {
      Tenants.CanonicalIff(k.tenant);
      HandleParses(k);
      assert KeyOf(Tenants.Parse(k.tenant).value, HandleOf(k)) == Some(k);
    }
  }

  lemma PointerIsUsable(ops: seq<ModelRegistry.Op>, k: ModelRegistry.Key)
    requires k in ModelRegistry.Exec(ops).table.pointers
    ensures ModelRegistry.UsableKey(k)
  {
    hide ModelRegistry.UsableKey, ModelRegistry.Exec, Pointers.Trail;
    ModelRegistry.RunKeeps(ops);
    assert Pointers.PointsAtLast(ModelRegistry.Exec(ops).table, k);
    if !ModelRegistry.UsableKey(k) { ModelRegistry.UnusableHasNoTrail(ops, k); }
  }

  /** Then its own handle, in a local launch by that tenant, resolves to the target. */
  lemma CanonicalResolves(ops: seq<ModelRegistry.Op>, k: ModelRegistry.Key)
    requires k in ModelRegistry.Exec(ops).table.pointers
    requires Tenants.Parse(k.tenant).Some? && Tenants.Render(Tenants.Parse(k.tenant).value) == k.tenant
    ensures var r, t := ModelRegistry.Exec(ops), Tenants.Parse(k.tenant).value;
            RegistryArgs.Resolve(Str(HandleOf(k)), ContextOf(r, t), RegistryArgs.EVERYTHING)
              == (RegistryArgs.Ok(Str(r.table.pointers[k])), [])
  {
    PointerIsUsable(ops, k);
    HandleParses(k);
    hide Tenants.Parse, Tenants.IsSafeIdent, RegistryArgs.ParseModelUri, ModelRegistry.Exec, Tenants.Render;
    RegistryArgs.SchemesDisjoint(HandleOf(k));
    assert RegistryArgs.MODEL <= HandleOf(k);
  }
}
