/**
 The OIDC onboarding state machine: the provider rows and the oidc_config singleton, the OAuth registry, the cached
 boot state, and the life of setup tokens, through boot, Confirm, provider writes and restarts without faults.

 Provider initialisation is an oracle given to every operation that runs it; hashing is a parameter.
 */
module Onboarding {
  import opened Wrappers
  import opened Text
  import opened ProviderMerge
  import ProviderForm

  datatype BootState = ConfirmedOk | ConfirmedOptOut | InitFailed | NoEnvNoFlag

  predicate Confirmed(b: BootState) {
    b.ConfirmedOk? || b.ConfirmedOptOut?
  }

  // ----- DetermineBootState -----

  datatype InitView = InitView(id: ProviderId, configured: bool, enabled: bool, initOk: bool)

  predicate Selected(v: InitView) {
    v.configured && v.enabled
  }

  /** The verdict over all views at once; no counting. */
  function Verdict(views: seq<InitView>, optOut: bool, noOidcEnv: bool): BootState {
    if forall v :: v in views ==> !v.configured then
      if optOut || noOidcEnv then ConfirmedOptOut else NoEnvNoFlag
    else if forall v :: v in views ==> !Selected(v) then
      if optOut then ConfirmedOptOut else InitFailed
    else if forall v :: v in views && Selected(v) ==> v.initOk then ConfirmedOk
    else InitFailed
  }

  /** The counting loop agrees with the verdict; `enabled` lists the selected ids in order. */
  method DetermineBootState(views: seq<InitView>, optOut: bool, noOidcEnv: bool)
    returns (state: BootState, enabled: seq<ProviderId>)
    ensures state == Verdict(views, optOut, noOidcEnv)
    ensures forall id :: id in enabled <==> exists v :: v in views && Selected(v) && v.id == id
  {
    enabled := [];
    var initOkCount, candidateCount := 0, 0;
    for i := 0 to |views|
      invariant 0 <= initOkCount <= |enabled| && 0 <= candidateCount
      invariant candidateCount == 0 <==> forall j :: 0 <= j < i ==> !views[j].configured
      invariant enabled == [] <==> forall j :: 0 <= j < i ==> !Selected(views[j])
      invariant initOkCount == |enabled| <==> forall j :: 0 <= j < i && Selected(views[j]) ==> views[j].initOk
      invariant forall id :: id in enabled ==> exists j :: 0 <= j < i && Selected(views[j]) && views[j].id == id
      invariant forall j :: 0 <= j < i && Selected(views[j]) ==> views[j].id in enabled
    {
      var p := views[i];
      if p.configured {
        candidateCount := candidateCount + 1;
        if p.enabled {
          enabled := enabled + [p.id];
          if p.initOk {
            initOkCount := initOkCount + 1;
          }
        }
      }
    }
    if candidateCount == 0 {
      state := if optOut || noOidcEnv then ConfirmedOptOut else NoEnvNoFlag;
    } else if |enabled| == 0 {
      state := if optOut then ConfirmedOptOut else InitFailed;
    } else if |enabled| - initOkCount > 0 {
      state := InitFailed;
    } else {
      state := ConfirmedOk;
    }
  }

  // ----- the enabled list of a Confirm request -----

  function Slug(s: string): ProviderId {
    Lower(GoTrim(s))
  }

  predicate RequestedBefore(list: seq<string>, n: nat, id: ProviderId)
    requires n <= |list|
  {
    exists i :: 0 <= i < n && Slug(list[i]) == id
  }

  predicate Requested(list: seq<string>, id: ProviderId) {
    RequestedBefore(list, |list|, id)
  }

  lemma RequestedNext(list: seq<string>, n: nat, id: ProviderId)
    requires n < |list|
    ensures RequestedBefore(list, n + 1, id) <==> RequestedBefore(list, n, id) || Slug(list[n]) == id
  {
  }

  /** An entry for every registry id, true exactly for the requested ones. */
  method NormalizeEnabledSet(registry: Registry, list: seq<string>) returns (wanted: map<ProviderId, bool>)
    ensures wanted.Keys == registry.Keys
    ensures forall id :: id in registry ==> wanted[id] == Requested(list, id)
  {
    wanted := map id | id in registry :: false;
    for i := 0 to |list|
      invariant wanted.Keys == registry.Keys
      invariant forall id :: id in registry ==> wanted[id] == RequestedBefore(list, i, id)
    {
      var id := Slug(list[i]);
      forall other | other in registry
        ensures RequestedBefore(list, i + 1, other) <==> RequestedBefore(list, i, other) || id == other
      {
        RequestedNext(list, i, other);
      }
      if id in registry {
        wanted := wanted[id := true];
      }
    }
  }

  // ----- the system -----

  datatype Env = Env(registry: Registry, noOidc: bool, hash: string -> string)

  datatype Cache = Cache(optOut: bool, tokenHash: Option<string>, boot: BootState)

  /** Tables, OAuth registry (initOK by id), cache and held plaintext; `minted` is every token drawn so far. */
  datatype System = System(
    rows: Rows, optOut: bool, tokenHash: Option<string>, oauth: map<ProviderId, bool>,
    cache: Cache, plain: string, minted: set<string>)

  type Oracle = (ProviderId, Provider) -> bool

  predicate InitOk(s: System, id: ProviderId) {
    id in s.oauth && s.oauth[id]
  }

  function ViewFor(env: Env, s: System, id: ProviderId): InitView {
    InitView(id, true, MergedEnabled(LayersOf(env.registry, s.rows, id)), InitOk(s, id))
  }

  /** DetermineBootState over the registry, recomputed from the current tables and OAuth registry. */
  ghost function Recomputed(env: Env, s: System): BootState {
    if env.registry.Keys == {} then
      if s.optOut || env.noOidc then ConfirmedOptOut else NoEnvNoFlag
    else if forall id :: id in env.registry ==> !ViewFor(env, s, id).enabled then
      if s.optOut then ConfirmedOptOut else InitFailed
    else if forall id :: id in env.registry && ViewFor(env, s, id).enabled ==> InitOk(s, id) then ConfirmedOk
    else InitFailed
  }

  /** The cache mirrors the singleton row and the recomputed verdict. */
  ghost predicate Coherent(env: Env, s: System) {
    s.cache == Cache(s.optOut, s.tokenHash, Recomputed(env, s))
  }

  ghost function Refreshed(env: Env, s: System): System {
    s.(cache := Cache(s.optOut, s.tokenHash, Recomputed(env, s)))
  }

  /** Initialise every provider of a registry. */
  function Probed(registry: Registry, probe: Oracle): map<ProviderId, bool> {
    map id | id in registry :: probe(id, registry[id])
  }

  function RebuiltOauth(env: Env, s: System, probe: Oracle): map<ProviderId, bool> {
    Probed(RegistryOf(MergedOf(env.registry, s.rows)), probe)
  }

  /** rebuildAndRefresh. */
  ghost function RebuiltAndRefreshed(env: Env, s: System, probe: Oracle): System {
    Refreshed(env, s.(oauth := RebuiltOauth(env, s, probe)))
  }

  ghost function TokenEnsured(env: Env, s: System, drawn: string): System {
    if Confirmed(s.cache.boot) then
      if s.cache.tokenHash.Some? then Refreshed(env, s.(tokenHash := None)) else s
    else if s.cache.tokenHash.Some? && s.plain != "" then s
    else Refreshed(env, s.(tokenHash := Some(env.hash(drawn)), plain := drawn, minted := s.minted + {drawn}))
  }

  /** A token authenticates against the cached hash. */
  predicate Authenticates(env: Env, s: System, token: string) {
    && token != "" && s.cache.tokenHash.Some? && s.cache.tokenHash.value != ""
    && env.hash(token) == s.cache.tokenHash.value
  }

  /** SetOIDCProviderEnabled: a missing row is created blank, the other columns of a present one stay. */
  function Flagged(rows: Rows, id: ProviderId, on: bool): Row {
    if id in rows then rows[id].(enabled := on) else ProviderForm.NO_ROW.(enabled := on)
  }

  /** The row of an id after a Confirm: only registry ids are written. */
  function EnabledRow(env: Env, rows: Rows, list: seq<string>, id: ProviderId): Row
    requires id in rows || id in env.registry
  {
    if id in env.registry then Flagged(rows, id, Requested(list, id)) else rows[id]
  }

  function WithEnabled(env: Env, rows: Rows, list: seq<string>): Rows {
    map id | id in rows.Keys + env.registry.Keys :: EnabledRow(env, rows, list, id)
  }

  /** The rows and the flag that a Confirm writes before it rebuilds. */
  function Written(env: Env, s: System, list: seq<string>, optOut: bool): System {
    s.(rows := WithEnabled(env, s.rows, list), optOut := optOut || env.registry.Keys == {})
  }

  ghost function AfterConfirm(env: Env, s: System, list: seq<string>, optOut: bool, probe: Oracle): System {
    var s1 := RebuiltAndRefreshed(env, Written(env, s, list, optOut), probe);
    if Confirmed(s1.cache.boot) then Refreshed(env, s1.(tokenHash := None, plain := "")) else s1
  }

  datatype Op =
    | Boot(firstProbe: Oracle, secondProbe: Oracle, display: bool, drawn: string)
    | Confirm(admin: bool, header: string, token: string, list: seq<string>, optOut: bool, probe: Oracle)
    | Put(admin: bool, header: string, token: string, id: ProviderId, body: ProviderForm.Body, probe: Oracle)
    | Revert(admin: bool, header: string, id: ProviderId, probe: Oracle)

  ghost predicate Authorized(env: Env, s: System, op: Op) {
    match op
    case Boot(_, _, _, _) => true
    case Confirm(admin, header, token, _, _, _) =>
      admin || Authenticates(env, s, header) || Authenticates(env, s, token)
    case Put(admin, header, token, _, _, _) => admin || Authenticates(env, s, header) || Authenticates(env, s, token)
    case Revert(admin, header, _, _) => admin || Authenticates(env, s, header)
  }

  /** A boot starts a process: nothing held in memory, OAuth built from env, then overrides replayed. */
  ghost function AfterBoot(env: Env, s: System, firstProbe: Oracle, secondProbe: Oracle, display: bool,
                           drawn: string): System {
    var started := s.(plain := "", oauth := Probed(env.registry, firstProbe));
    var replayed := RebuiltAndRefreshed(env, Refreshed(env, started), secondProbe);
    if display then TokenEnsured(env, replayed, drawn) else replayed
  }

  /** The row a create or update writes. */
  function WithRow(env: Env, s: System, id: ProviderId, body: ProviderForm.Body): System {
    s.(rows := s.rows[id := ProviderForm.UpsertRow(LayersOf(env.registry, s.rows, id).row, body)])
  }

  ghost function After(env: Env, s: System, op: Op): System {
    if !Authorized(env, s, op) then s
    else
      match op
      case Boot(first, second, display, drawn) => AfterBoot(env, s, first, second, display, drawn)
      case Confirm(_, _, _, list, optOut, probe) => AfterConfirm(env, s, list, optOut, probe)
      case Put(_, _, _, id, body, probe) =>
        RebuiltAndRefreshed(env, WithRow(env, s, id, body), probe)
      case Revert(_, _, id, probe) => RebuiltAndRefreshed(env, s.(rows := s.rows - {id}), probe)
  }

  // ----- the cache is never stale -----

  /** The verdict reads the provider rows, the opt-out flag and the OAuth registry, nothing else. */
  lemma RecomputedReads(env: Env, s: System, s': System)
    requires s'.rows == s.rows && s'.optOut == s.optOut && s'.oauth == s.oauth
    ensures Recomputed(env, s') == Recomputed(env, s)
  {
    assert forall id :: id in env.registry ==> ViewFor(env, s', id) == ViewFor(env, s, id);
  }

  lemma RefreshedIsCoherent(env: Env, s: System)
    ensures Coherent(env, Refreshed(env, s))
  {
    RecomputedReads(env, s, Refreshed(env, s));
  }

  /** A rebuild leaves the tables and the token alone and the cache coherent. */
  lemma RebuildFacts(env: Env, s: System, probe: Oracle)
    ensures var s' := RebuiltAndRefreshed(env, s, probe);
            && Coherent(env, s')
            && s'.rows == s.rows && s'.optOut == s.optOut
            && s'.tokenHash == s.tokenHash && s'.plain == s.plain && s'.minted == s.minted
  {
    RefreshedIsCoherent(env, s.(oauth := RebuiltOauth(env, s, probe)));
  }

  /** EnsureSetupToken clears, keeps, or replaces by the fresh draw. */
  lemma EnsureFacts(env: Env, s: System, drawn: string)
    requires Coherent(env, s)
    ensures var s' := TokenEnsured(env, s, drawn);
            && Coherent(env, s')
            && (|| (s'.tokenHash.None? && s'.minted == s.minted)
                || (s'.tokenHash == s.tokenHash && s'.plain == s.plain && s'.minted == s.minted)
                || (s'.tokenHash == Some(env.hash(drawn)) && s'.plain == drawn && s'.minted == s.minted + {drawn}))
  {
    RefreshedIsCoherent(env, s.(tokenHash := None));
    RefreshedIsCoherent(env, s.(tokenHash := Some(env.hash(drawn)), plain := drawn, minted := s.minted + {drawn}));
  }

  lemma TokenCleared(env: Env, s: System)
    requires Coherent(env, s)
    ensures var s' := Refreshed(env, s.(tokenHash := None, plain := ""));
            && Coherent(env, s') && s'.cache.boot == s.cache.boot
            && s'.rows == s.rows && s'.optOut == s.optOut && s'.minted == s.minted
            && s'.tokenHash.None? && s'.plain == ""
  {
    var cleared := s.(tokenHash := None, plain := "");
    RefreshedIsCoherent(env, cleared);
    RecomputedReads(env, s, cleared);
  }

  /** Confirm writes rows and opt-out; ending confirmed clears the token, otherwise it stays. */
  lemma ConfirmFacts(env: Env, s: System, list: seq<string>, optOut: bool, probe: Oracle)
    ensures var s' := AfterConfirm(env, s, list, optOut, probe);
            && Coherent(env, s')
            && s'.rows == WithEnabled(env, s.rows, list) && s'.optOut == (optOut || env.registry.Keys == {})
            && s'.minted == s.minted
            && (if Confirmed(s'.cache.boot) then s'.tokenHash.None? && s'.plain == ""
                else s'.tokenHash == s.tokenHash && s'.plain == s.plain)
  {
    var written := Written(env, s, list, optOut);
    RebuildFacts(env, written, probe);
    var s1 := RebuiltAndRefreshed(env, written, probe);
    TokenCleared(env, s1);
  }

  lemma BootFacts(env: Env, s: System, first: Oracle, second: Oracle, display: bool, drawn: string)
    ensures var s' := AfterBoot(env, s, first, second, display, drawn);
            && Coherent(env, s')
            && (|| (s'.tokenHash.None? && s'.minted == s.minted)
                || (s'.tokenHash == s.tokenHash && s'.plain == "" && s'.minted == s.minted)
                || (s'.tokenHash == Some(env.hash(drawn)) && s'.plain == drawn && s'.minted == s.minted + {drawn}))
  {
    var started := s.(plain := "", oauth := Probed(env.registry, first));
    RebuildFacts(env, Refreshed(env, started), second);
    EnsureFacts(env, RebuiltAndRefreshed(env, Refreshed(env, started), second), drawn);
  }

  /** Every operation, authorised or refused, ends with a cache equal to the recomputed state. */
  lemma OperationsKeepCacheCoherent(env: Env, s: System, op: Op)
    requires Coherent(env, s) || op.Boot?
    ensures Coherent(env, After(env, s, op))
  {
    match op
    case Boot(first, second, display, drawn) => BootFacts(env, s, first, second, display, drawn);
    case Confirm(_, _, _, list, optOut, probe) => ConfirmFacts(env, s, list, optOut, probe);
    case Put(_, _, _, id, body, probe) =>
      RebuildFacts(env, WithRow(env, s, id, body), probe);
    case Revert(_, _, id, probe) => RebuildFacts(env, s.(rows := s.rows - {id}), probe);
  }

  // ----- what Confirm leaves -----

  ghost predicate SomeRequested(env: Env, list: seq<string>) {
    exists id :: id in env.registry && Requested(list, id)
  }

  /** Every requested provider has the fields it needs and initialises, with the row's overrides in force. */
  ghost predicate AllRequestedInitialise(env: Env, rows: Rows, list: seq<string>, probe: Oracle) {
    forall id :: id in env.registry && Requested(list, id) ==>
                   var p := Effective(LayersOf(env.registry, rows, id)); Complete(p) && probe(id, p)
  }

  lemma ConfirmedViews(env: Env, s: System, rows: Rows, list: seq<string>, id: ProviderId)
    requires s.rows == WithEnabled(env, rows, list) && id in env.registry
    ensures ViewFor(env, s, id).enabled == Requested(list, id)
  {
    assert s.rows[id].enabled == Requested(list, id);
  }

  lemma RecomputedFromRequest(env: Env, s: System, list: seq<string>)
    requires forall id :: id in env.registry ==> ViewFor(env, s, id).enabled == Requested(list, id)
    requires env.registry.Keys == {} ==> s.optOut
    ensures var boot := Recomputed(env, s);
            && (boot == ConfirmedOk <==>
                  && SomeRequested(env, list)
                  && forall id :: id in env.registry && Requested(list, id) ==> InitOk(s, id))
            && (boot == ConfirmedOptOut <==> env.registry.Keys == {} || (!SomeRequested(env, list) && s.optOut))
            && boot != NoEnvNoFlag
  {
  }

  lemma EnabledIsNoField(l: Layers, enabled: bool)
    ensures l.row.Some? ==> Effective(l.(row := Some(l.row.value.(enabled := enabled)))) == Effective(l)
    ensures l.row.None? ==> Effective(l.(row := Some(ProviderForm.NO_ROW.(enabled := enabled)))) == Effective(l)
  {
  }

  /** Confirm touches nothing but the enabled flag of registry ids: every field override survives. */
  lemma ConfirmKeepsOverrides(env: Env, s: System, list: seq<string>, optOut: bool, probe: Oracle, id: ProviderId)
    ensures var rows' := AfterConfirm(env, s, list, optOut, probe).rows;
            && (id in s.rows ==> id in rows' && rows'[id].(enabled := s.rows[id].enabled) == s.rows[id])
            && (id in rows' && id !in s.rows ==>
                  id in env.registry && rows'[id].(enabled := true) == ProviderForm.NO_ROW)
            && (id !in env.registry && id in s.rows ==> rows'[id] == s.rows[id])
            && Effective(LayersOf(env.registry, rows', id)) == Effective(LayersOf(env.registry, s.rows, id))
  {
    ConfirmFacts(env, s, list, optOut, probe);
    var rows' := WithEnabled(env, s.rows, list);
    EnabledIsNoField(LayersOf(env.registry, s.rows, id), Requested(list, id));
  }

  // ----- what is in the OAuth registry -----

  /** The provider that the row and the environment together make. */
  function InForce(env: Env, rows: Rows, id: ProviderId): Provider {
    Effective(LayersOf(env.registry, rows, id))
  }

  /**
   After a rebuild a provider is registered iff known, not disabled and complete, and initialised as the probe says.
   */
  lemma RebuildProbesOverrides(env: Env, s: System, probe: Oracle, id: ProviderId)
    ensures var oauth := RebuiltAndRefreshed(env, s, probe).oauth;
            && (id in oauth <==>
                  && (id in env.registry || id in s.rows) && (id in s.rows ==> s.rows[id].enabled)
                  && Complete(InForce(env, s.rows, id)))
            && (id in oauth ==> oauth[id] == probe(id, InForce(env, s.rows, id)))
  {
    RegisteredIff(env.registry, s.rows, id);
  }

  lemma ClearingKeepsOauth(env: Env, s: System, list: seq<string>, optOut: bool, probe: Oracle)
    ensures AfterConfirm(env, s, list, optOut, probe).oauth ==
            RebuiltAndRefreshed(env, Written(env, s, list, optOut), probe).oauth
  {
    var s1 := RebuiltAndRefreshed(env, Written(env, s, list, optOut), probe);
    assert Refreshed(env, s1.(tokenHash := None, plain := "")).oauth == s1.oauth;
  }

  /** After a Confirm, for an id of the registry: registered iff requested and complete with its overrides. */
  lemma ConfirmProbesOverrides(env: Env, s: System, list: seq<string>, optOut: bool, probe: Oracle, id: ProviderId)
    requires id in env.registry
    ensures var oauth := AfterConfirm(env, s, list, optOut, probe).oauth;
            && (id in oauth <==> Requested(list, id) && Complete(InForce(env, s.rows, id)))
            && (id in oauth ==> oauth[id] == probe(id, InForce(env, s.rows, id)))
  {
    var written := Written(env, s, list, optOut);
    ClearingKeepsOauth(env, s, list, optOut, probe);
    ConfirmKeepsOverrides(env, s, list, optOut, probe, id);
    ConfirmFacts(env, s, list, optOut, probe);
    RebuildProbesOverrides(env, written, probe, id);
    assert written.rows[id].enabled == Requested(list, id);
  }

  /**
   The state after a Confirm: ok iff some registry provider was requested and every requested one initialises with its
   overrides, opt-out iff the registry is empty or none was requested and opt_out was set, init_failed otherwise.
   */
  lemma ConfirmDecidesState(env: Env, s: System, list: seq<string>, optOut: bool, probe: Oracle)
    ensures var boot := AfterConfirm(env, s, list, optOut, probe).cache.boot;
            && (boot == ConfirmedOk <==> SomeRequested(env, list) && AllRequestedInitialise(env, s.rows, list, probe))
            && (boot == ConfirmedOptOut <==> env.registry.Keys == {} || (!SomeRequested(env, list) && optOut))
            && boot != NoEnvNoFlag
  {
    var s' := AfterConfirm(env, s, list, optOut, probe);
    ConfirmFacts(env, s, list, optOut, probe);
    forall id | id in env.registry
      ensures ViewFor(env, s', id).enabled == Requested(list, id)
      ensures Requested(list, id) ==>
                (InitOk(s', id) <==> Complete(InForce(env, s.rows, id)) && probe(id, InForce(env, s.rows, id)))
    {
      ConfirmedViews(env, s', s.rows, list, id);
      ConfirmProbesOverrides(env, s, list, optOut, probe, id);
    }
    RecomputedFromRequest(env, s', list);
  }

  /** After a create or update the provider is registered iff its new row enables it and makes it complete. */
  lemma PutProbesOverrides(env: Env, s: System, id: ProviderId, body: ProviderForm.Body, probe: Oracle)
    ensures var rows := WithRow(env, s, id, body).rows;
            var oauth := After(env, s, Put(true, "", "", id, body, probe)).oauth;
            && rows == s.rows[id := ProviderForm.UpsertRow(if id in s.rows then Some(s.rows[id]) else None, body)]
            && (id in oauth <==> rows[id].enabled && Complete(InForce(env, rows, id)))
            && (id in oauth ==> oauth[id] == probe(id, InForce(env, rows, id)))
  {
    var s1 := WithRow(env, s, id, body);
    RebuildProbesOverrides(env, s1, probe, id);
    assert After(env, s, Put(true, "", "", id, body, probe)) == RebuiltAndRefreshed(env, s1, probe);
  }

  /** After a revert it is registered iff the environment knows it and makes it complete with the defaults. */
  lemma RevertProbesOverrides(env: Env, s: System, id: ProviderId, probe: Oracle)
    ensures var oauth := After(env, s, Revert(true, "", id, probe)).oauth;
            && (id in oauth <==> id in env.registry && Complete(InForce(env, s.rows - {id}, id)))
            && (id in oauth ==> oauth[id] == probe(id, InForce(env, s.rows - {id}, id)))
  {
    var s1 := s.(rows := s.rows - {id});
    RebuildProbesOverrides(env, s1, probe, id);
    assert After(env, s, Revert(true, "", id, probe)) == RebuiltAndRefreshed(env, s1, probe);
  }

  lemma FirstRebuildConfirms(env: Env, s: System, probe: Oracle)
    requires s.rows == map[] && env.registry.Keys != {}
    requires forall id :: id in env.registry ==> Complete(env.registry[id]) && probe(id, InForce(env, map[], id))
    ensures RebuiltAndRefreshed(env, s, probe).cache.boot == ConfirmedOk
  {
    var s' := RebuiltAndRefreshed(env, s, probe);
    RebuildFacts(env, s, probe);
    forall id | id in env.registry ensures ViewFor(env, s', id).enabled && InitOk(s', id) {
      FirstRebuildProbes(env, s, probe, id);
    }
    var id :| id in env.registry.Keys;
    assert ViewFor(env, s', id).enabled;
  }

  lemma FirstRebuildProbes(env: Env, s: System, probe: Oracle, id: ProviderId)
    requires s.rows == map[] && id in env.registry && Complete(env.registry[id]) && probe(id, InForce(env, map[], id))
    ensures var s' := RebuiltAndRefreshed(env, s, probe); ViewFor(env, s', id).enabled && InitOk(s', id)
  {
    EnvironmentAlone(env.registry, map[], id);
    RegisteredIff(env.registry, map[], id);
    RebuildProbesOverrides(env, s, probe, id);
  }

  lemma EnsureKeepsBoot(env: Env, s: System, drawn: string)
    requires Coherent(env, s)
    ensures TokenEnsured(env, s, drawn).cache.boot == s.cache.boot
  {
    RecomputedReads(env, s, s.(tokenHash := None));
    RecomputedReads(env, s, s.(tokenHash := Some(env.hash(drawn)), plain := drawn, minted := s.minted + {drawn}));
  }

  /** A first boot: with no rows, a complete registry whose every provider initialises ends confirmed. */
  lemma FirstBootConfirms(env: Env, s: System, first: Oracle, second: Oracle, display: bool, drawn: string)
    requires s.rows == map[] && env.registry.Keys != {}
    requires forall id :: id in env.registry ==> Complete(env.registry[id]) && second(id, InForce(env, map[], id))
    ensures AfterBoot(env, s, first, second, display, drawn).cache.boot == ConfirmedOk
  {
    var started := Refreshed(env, s.(plain := "", oauth := Probed(env.registry, first)));
    var replayed := RebuiltAndRefreshed(env, started, second);
    FirstRebuildConfirms(env, started, second);
    RebuildFacts(env, started, second);
    EnsureKeepsBoot(env, replayed, drawn);
  }

  lemma EnsureLeavesTheShownToken(env: Env, s: System, drawn: string)
    requires Coherent(env, s) && s.plain == ""
    ensures var s' := TokenEnsured(env, s, drawn);
            && s'.cache.boot == s.cache.boot
            && if s.cache.boot in {ConfirmedOk, ConfirmedOptOut} then s'.cache.tokenHash.None?
               else s'.plain == drawn && s'.cache.tokenHash == Some(env.hash(drawn))
  {
    EnsureKeepsBoot(env, s, drawn);
  }

  /** A boot that does not end confirmed leaves exactly one usable token, the one it shows; otherwise none. */
  lemma BootLeavesTheShownToken(env: Env, s: System, first: Oracle, second: Oracle, drawn: string, token: string)
    requires Injective(env.hash) && drawn != "" && env.hash(drawn) != ""
    ensures var s' := AfterBoot(env, s, first, second, true, drawn);
            if s'.cache.boot in {ConfirmedOk, ConfirmedOptOut} then !Authenticates(env, s', token)
            else s'.plain == drawn && (Authenticates(env, s', token) <==> token == drawn)
  {
    var started := Refreshed(env, s.(plain := "", oauth := Probed(env.registry, first)));
    RebuildFacts(env, started, second);
    EnsureLeavesTheShownToken(env, RebuiltAndRefreshed(env, started, second), drawn);
  }

  // ----- setup tokens -----

  ghost predicate Injective(hash: string -> string) {
    forall a, b :: hash(a) == hash(b) ==> a == b
  }

  /** The stored hash is that of a minted token, and of the held plaintext when there is one. */
  ghost predicate TokensOk(env: Env, s: System) {
    && Behind(env, s, {})
    && (s.tokenHash.Some? && s.plain != "" ==> s.tokenHash == Some(env.hash(s.plain)))
  }

  /** The stored hash, if any, is that of a minted token outside `retired`. */
  ghost predicate Behind(env: Env, s: System, retired: set<string>) {
    && retired <= s.minted
    && (s.tokenHash.Some? ==> exists t :: t in s.minted && t !in retired && s.tokenHash == Some(env.hash(t)))
  }

  /** The random draw of a boot was never drawn before. */
  ghost predicate Fresh(s: System, op: Op) {
    op.Boot? ==> op.drawn != "" && op.drawn !in s.minted
  }

  /** An operation clears the token, keeps it, or replaces it by a fresh draw. */
  lemma TokenSteps(env: Env, s: System, op: Op)
    ensures var s' := After(env, s, op);
            || (s'.tokenHash.None? && s'.minted == s.minted)
            || (s'.tokenHash == s.tokenHash && s'.minted == s.minted && s'.plain in {s.plain, ""})
            || (&& op.Boot? && s'.tokenHash == Some(env.hash(op.drawn)) && s'.plain == op.drawn
                && s'.minted == s.minted + {op.drawn})
  {
    match op
    case Boot(first, second, display, drawn) => BootFacts(env, s, first, second, display, drawn);
    case Confirm(_, _, _, list, optOut, probe) => ConfirmFacts(env, s, list, optOut, probe);
    case Put(_, _, _, id, body, probe) =>
      RebuildFacts(env, WithRow(env, s, id, body), probe);
    case Revert(_, _, id, probe) => RebuildFacts(env, s.(rows := s.rows - {id}), probe);
  }

  lemma TokenStepKeepsBehind(env: Env, s: System, s': System, drawn: string, retired: set<string>)
    requires Behind(env, s, retired) && drawn !in s.minted
    requires || (s'.tokenHash.None? && s'.minted == s.minted)
             || (s'.tokenHash == s.tokenHash && s'.minted == s.minted)
             || (s'.tokenHash == Some(env.hash(drawn)) && s'.minted == s.minted + {drawn})
    ensures Behind(env, s', retired)
  {
    if s'.tokenHash.Some? && s'.minted == s.minted + {drawn} && s'.tokenHash == Some(env.hash(drawn)) {
      assert drawn in s'.minted && drawn !in retired;
    }
  }

  lemma OperationsKeepBehind(env: Env, s: System, op: Op, s': System, retired: set<string>)
    requires Behind(env, s, retired) && IsStep(env, s, op, s')
    ensures Behind(env, s', retired)
  {
    TokenSteps(env, s, op);
    if op.Boot? {
      TokenStepKeepsBehind(env, s, s', op.drawn, retired);
    }
  }

  /** At most one token authenticates at any time. */
  lemma OneTokenAuthenticates(env: Env, s: System, t: string, u: string)
    requires Injective(env.hash) && Authenticates(env, s, t) && Authenticates(env, s, u)
    ensures t == u
  {
  }

  /** The credential is a non-empty string whose hash is the non-empty cached one. */
  predicate ValidCredential(env: Env, s: System, credential: string) {
    && credential != "" && s.cache.tokenHash.Some? && s.cache.tokenHash.value != ""
    && env.hash(credential) == s.cache.tokenHash.value
  }

  /**
   Only an administrator or the holder of the setup token changes anything, the token in the header or, where there
   is a body, in the body; and whoever may, does.
   */
  lemma CredentialsDecide(env: Env, s: System, op: Op)
    ensures op.Confirm? ==>
              After(env, s, op) ==
              if op.admin || ValidCredential(env, s, op.header) || ValidCredential(env, s, op.token)
              then AfterConfirm(env, s, op.list, op.optOut, op.probe) else s
    ensures op.Put? ==>
              After(env, s, op) ==
              if op.admin || ValidCredential(env, s, op.header) || ValidCredential(env, s, op.token)
              then RebuiltAndRefreshed(env, WithRow(env, s, op.id, op.body), op.probe) else s
    ensures op.Revert? ==>
              After(env, s, op) ==
              if op.admin || ValidCredential(env, s, op.header)
              then RebuiltAndRefreshed(env, s.(rows := s.rows - {op.id}), op.probe) else s
    ensures op.Boot? ==> After(env, s, op) == AfterBoot(env, s, op.firstProbe, op.secondProbe, op.display, op.drawn)
  {
  }

  // ----- runs -----

  ghost predicate IsRun(env: Env, run: seq<System>, ops: seq<Op>) {
    && |run| == |ops| + 1 && |ops| > 0 && ops[0].Boot?
    && forall i :: 0 <= i < |ops| ==> IsStep(env, run[i], ops[i], run[i + 1])
  }

  ghost predicate IsStep(env: Env, s: System, op: Op, s': System) {
    Fresh(s, op) && s' == After(env, s, op)
  }

  /**
   In every run of boots, confirmations and provider writes: cache coherent, held plaintext behind the stored hash.
   */
  lemma {:induction false} RunsStayCoherent(env: Env, run: seq<System>, ops: seq<Op>, i: nat)
    requires IsRun(env, run, ops) && TokensOk(env, run[0]) && 0 < i < |run|
    ensures Coherent(env, run[i]) && TokensOk(env, run[i])
    ensures run[i].tokenHash.Some? && run[i].plain != "" ==> run[i].tokenHash == Some(env.hash(run[i].plain))
  {
    if i > 1 {
      RunsStayCoherent(env, run, ops, i - 1);
    }
    var s, op, s' := run[i - 1], ops[i - 1], run[i];
    assert IsStep(env, s, op, run[i - 1 + 1]);
    OperationsKeepCacheCoherent(env, s, op);
    OperationsKeepBehind(env, s, op, s', {});
    TokenSteps(env, s, op);
  }

  lemma {:induction false} RetiredForever(env: Env, run: seq<System>, ops: seq<Op>, i: nat, j: nat,
                                          retired: set<string>)
    requires IsRun(env, run, ops) && i <= j < |run|
    requires Behind(env, run[i], retired)
    ensures Behind(env, run[j], retired)
    decreases j
  {
    if i < j {
      RetiredForever(env, run, ops, i, j - 1, retired);
      assert IsStep(env, run[j - 1], ops[j - 1], run[j - 1 + 1]);
      OperationsKeepBehind(env, run[j - 1], ops[j - 1], run[j], retired);
    }
  }

  /** Once a Confirm has ended confirmed, no token minted before it ever authenticates again. */
  lemma ConfirmRetiresTokens(env: Env, run: seq<System>, ops: seq<Op>, i: nat, j: nat, token: string)
    requires IsRun(env, run, ops) && TokensOk(env, run[0]) && Injective(env.hash)
    requires 0 < i < j < |run| && ops[i].Confirm? && Authorized(env, run[i], ops[i])
    requires run[i + 1].cache.boot in {ConfirmedOk, ConfirmedOptOut}
    requires token in run[i].minted
    ensures !Authenticates(env, run[j], token)
  {
    ConfirmFacts(env, run[i], ops[i].list, ops[i].optOut, ops[i].probe);
    RetiredForever(env, run, ops, i + 1, j, run[i].minted);
    RunsStayCoherent(env, run, ops, j);
  }

  // ----- the code -----

  /** The views, in whatever order, decide what the recomputation says. */
  lemma VerdictIsRecomputed(env: Env, s: System, views: seq<InitView>)
    requires forall id :: id in env.registry ==> ViewFor(env, s, id) in views
    requires forall v :: v in views ==> v.id in env.registry && v == ViewFor(env, s, v.id)
    ensures Verdict(views, s.optOut, env.noOidc) == Recomputed(env, s)
  {
    if env.registry.Keys != {} {
      var id :| id in env.registry.Keys;
      assert ViewFor(env, s, id) in views;
    }
    assert forall id :: id in env.registry ==> ViewFor(env, s, id).id == id && ViewFor(env, s, id) in views;
  }

  /** The initialisation loop of NewOAuth and Rebuild. */
  method InitProviders(registry: Registry, probe: Oracle) returns (states: map<ProviderId, bool>)
    ensures states == Probed(registry, probe)
  {
    var ids := registry.Keys;
    states := map[];
    while ids != {}
      invariant ids <= registry.Keys
      invariant states.Keys == registry.Keys - ids
      invariant forall id :: id in states ==> states[id] == probe(id, registry[id])
      decreases |ids|
    {
      var id :| id in ids;
      states := states[id := probe(id, registry[id])];
      ids := ids - {id};
    }
  }

  /** All wanted flags but those of `pending` are written, and nothing else has changed. */
  ghost predicate FlagsWritten(before: Rows, wanted: map<ProviderId, bool>, rows: Rows, pending: set<ProviderId>) {
    && (forall id :: id in rows <==> id in before || (id in wanted && id !in pending))
    && (forall id :: id in rows ==>
          rows[id] == if id in wanted && id !in pending then Flagged(before, id, wanted[id]) else before[id])
  }

  lemma FlagWritten(before: Rows, wanted: map<ProviderId, bool>, rows: Rows, pending: set<ProviderId>, id: ProviderId)
    requires id in pending && pending <= wanted.Keys && FlagsWritten(before, wanted, rows, pending)
    ensures FlagsWritten(before, wanted, rows[id := Flagged(rows, id, wanted[id])], pending - {id})
  {
  }

  /** Confirm's loop over the registry: one upsert of the enabled flag per id. */
  method WriteEnabled(env: Env, before: Rows, list: seq<string>, wanted: map<ProviderId, bool>) returns (rows: Rows)
    requires wanted.Keys == env.registry.Keys && forall id :: id in wanted ==> wanted[id] == Requested(list, id)
    ensures rows == WithEnabled(env, before, list)
  {
    rows := before;
    var ids := wanted.Keys;
    while ids != {}
      invariant ids <= wanted.Keys && FlagsWritten(before, wanted, rows, ids)
      decreases |ids|
    {
      var id :| id in ids;
      FlagWritten(before, wanted, rows, ids, id);
      rows := rows[id := Flagged(rows, id, wanted[id])];
      ids := ids - {id};
    }
    FlagsAreEnabled(env, before, list, wanted, rows);
  }

  lemma FlagsAreEnabled(env: Env, before: Rows, list: seq<string>, wanted: map<ProviderId, bool>, rows: Rows)
    requires wanted.Keys == env.registry.Keys && forall id :: id in wanted ==> wanted[id] == Requested(list, id)
    requires FlagsWritten(before, wanted, rows, {})
    ensures rows == WithEnabled(env, before, list)
  {
    var target := WithEnabled(env, before, list);
    assert forall id :: id in rows ==> id in target && rows[id] == target[id];
  }

  class Handler {
    const env: Env
    var rows: Rows
    var optOut: bool
    var tokenHash: Option<string>
    var oauth: map<ProviderId, bool>
    var cache: Cache
    var plain: string
    ghost var minted: set<string>

    ghost function Contents(): System
      reads this
    {
      System(rows, optOut, tokenHash, oauth, cache, plain, minted)
    }

    constructor (env: Env)
      ensures this.env == env && rows == map[] && tokenHash == None && plain == "" && minted == {}
      ensures TokensOk(env, Contents())
    {
      this.env := env;
      rows, optOut, tokenHash, oauth, plain, minted := map[], false, None, map[], "", {};
      cache := Cache(false, None, NoEnvNoFlag);
    }

    method BuildProviderViews() returns (views: seq<InitView>)
      ensures forall id :: id in env.registry ==> ViewFor(env, Contents(), id) in views
      ensures forall v :: v in views ==> v.id in env.registry && v == ViewFor(env, Contents(), v.id)
    {
      views := [];
      var ids := env.registry.Keys;
      while ids != {}
        invariant ids <= env.registry.Keys
        invariant forall id :: id in env.registry && id !in ids ==> ViewFor(env, Contents(), id) in views
        invariant forall v :: v in views ==> v.id in env.registry && v == ViewFor(env, Contents(), v.id)
        decreases |ids|
      {
        var id :| id in ids;
        var v := InitView(id, true, MergedEnabled(LayersOf(env.registry, rows, id)), id in oauth && oauth[id]);
        assert v == ViewFor(env, Contents(), id);
        views := views + [v];
        ids := ids - {id};
      }
    }

    method RefreshState()
      modifies this`cache
      ensures Contents() == Refreshed(env, old(Contents()))
    {
      var views := BuildProviderViews();
      var boot, _ := DetermineBootState(views, optOut, env.noOidc);
      VerdictIsRecomputed(env, Contents(), views);
      cache := Cache(optOut, tokenHash, boot);
    }

    /** OAuth.Rebuild over the merged registry: a new map is filled, then swapped in. */
    method Rebuild(probe: Oracle)
      modifies this`oauth
      ensures oauth == RebuiltOauth(env, old(Contents()), probe)
    {
      var merged := LoadMergedProviders(env.registry, rows);
      var registry := MergedRegistry(merged);
      oauth := InitProviders(registry, probe);
    }

    method RebuildAndRefresh(probe: Oracle)
      modifies this`oauth, this`cache
      ensures Contents() == RebuiltAndRefreshed(env, old(Contents()), probe)
    {
      Rebuild(probe);
      RefreshState();
    }

    /** Returns the plaintext to show, or "" when there is nothing new to show. */
    method EnsureSetupToken(drawn: string) returns (shown: string)
      requires drawn != "" && drawn !in minted
      modifies this
      ensures Contents() == TokenEnsured(env, old(Contents()), drawn)
      ensures shown == if minted == old(minted) then "" else drawn
      ensures shown != "" ==> shown == plain && tokenHash == Some(env.hash(shown)) && cache.tokenHash == tokenHash
    {
      if Confirmed(cache.boot) {
        if cache.tokenHash.Some? {
          tokenHash := None;
          RefreshState();
        }
        return "";
      }
      if cache.tokenHash.Some? && plain != "" {
        return "";
      }
      if cache.tokenHash.Some? {
        tokenHash := None;
      }
      tokenHash := Some(env.hash(drawn));
      plain := drawn;
      minted := minted + {drawn};
      RefreshState();
      shown := plain;
    }

    /** Confirm's writes to the tables. */
    method SaveSelection(list: seq<string>, optOutFlag: bool)
      modifies this`rows, this`optOut
      ensures Contents() == Written(env, old(Contents()), list, optOutFlag)
    {
      var wanted := NormalizeEnabledSet(env.registry, list);
      rows := WriteEnabled(env, rows, list, wanted);
      optOut := optOutFlag || |wanted| == 0;
      assert |wanted| == 0 <==> env.registry.Keys == {};
    }

    /** Confirm past its credential check. */
    method ConfirmSelection(list: seq<string>, optOutFlag: bool, probe: Oracle)
      modifies this
      ensures Contents() == AfterConfirm(env, old(Contents()), list, optOutFlag, probe)
    {
      SaveSelection(list, optOutFlag);
      RebuildAndRefresh(probe);
      if Confirmed(cache.boot) {
        tokenHash := None;
        plain := "";
        RefreshState();
      }
    }

    /** Create or Update past its credential and id checks. */
    method PutProvider(id: ProviderId, body: ProviderForm.Body, probe: Oracle)
      modifies this`rows, this`oauth, this`cache
      ensures Contents() == After(env, old(Contents()), Put(true, "", "", id, body, probe))
    {
      var row := ProviderForm.UpsertRow(if id in rows then Some(rows[id]) else None, body);
      rows := rows[id := row];
      RebuildAndRefresh(probe);
    }

    method RevertProvider(id: ProviderId, probe: Oracle)
      modifies this`rows, this`oauth, this`cache
      ensures Contents() == After(env, old(Contents()), Revert(true, "", id, probe))
    {
      rows := rows - {id};
      RebuildAndRefresh(probe);
    }

    /** The restart sequence of the server: OAuth from env, refresh, replay the overrides, ensure a token. */
    method StartUp(firstProbe: Oracle, secondProbe: Oracle, display: bool, drawn: string)
      requires drawn != "" && drawn !in minted
      modifies this
      ensures Contents() == AfterBoot(env, old(Contents()), firstProbe, secondProbe, display, drawn)
    {
      plain := "";
      oauth := InitProviders(env.registry, firstProbe);
      RefreshState();
      RebuildAndRefresh(secondProbe);
      if display {
        var _ := EnsureSetupToken(drawn);
      }
    }
  }
}
