/**
 The provider cascade: database row over environment over well-known default over fallback.
 */
module ProviderMerge {
  import opened Wrappers

  type ProviderId = string

  datatype Provider = Provider(
    id: ProviderId, displayName: string, issuerUrl: string, clientId: string, clientSecret: string,
    claimStyle: string, scopes: seq<string>, multiTenantIssuer: bool)

  datatype Defaults = Defaults(issuerUrl: string, claimStyle: string, displayName: string)

  /** An oidc_providers row; a NULL column has no opinion. */
  datatype Row = Row(
    displayName: Option<string>, issuerUrl: Option<string>, clientId: Option<string>, clientSecret: Option<string>,
    claimStyle: Option<string>, scopes: Option<seq<string>>, enabled: bool)

  type Rows = map<ProviderId, Row>
  type Registry = map<ProviderId, Provider>

  /** The built-in providers. */
  function WellKnown(id: ProviderId): Option<Defaults> {
    if id == "google" then Some(Defaults("https://accounts.google.com", "google", "Google"))
    else if id == "microsoft" then
      Some(Defaults("https://login.microsoftonline.com/common/v2.0", "microsoft", "Microsoft"))
    else None
  }

  const DEFAULT_SCOPES: seq<string> := ["openid", "email", "profile"]

  const MULTI_TENANT_ISSUERS: set<string> := {
    "https://login.microsoftonline.com/common/v2.0",
    "https://login.microsoftonline.com/organizations/v2.0",
    "https://login.microsoftonline.com/consumers/v2.0"}

  /** The three layers that know about one id. */
  datatype Layers = Layers(id: ProviderId, row: Option<Row>, env: Option<Provider>, wellKnown: Option<Defaults>)

  // ----- picking a value -----

  function FirstNonEmpty(candidates: seq<string>): string {
    if candidates == [] then "" else if candidates[0] != "" then candidates[0] else FirstNonEmpty(candidates[1..])
  }

  lemma {:induction false} SkipEmpty(candidates: seq<string>, n: nat)
    requires n <= |candidates| && forall i :: 0 <= i < n ==> candidates[i] == ""
    ensures FirstNonEmpty(candidates) == FirstNonEmpty(candidates[n..])
  {
    if n > 0 {
      SkipEmpty(candidates[1..], n - 1);
      assert candidates[1..][n - 1..] == candidates[n..];
    } else {
      assert candidates[0..] == candidates;
    }
  }

  method PickStr(candidates: seq<string>) returns (r: string)
    ensures r == FirstNonEmpty(candidates)
    ensures r == "" <==> forall i :: 0 <= i < |candidates| ==> candidates[i] == ""
  {
    for i := 0 to |candidates|
      invariant forall j :: 0 <= j < i ==> candidates[j] == ""
    {
      if candidates[i] != "" {
        SkipEmpty(candidates, i);
        return candidates[i];
      }
    }
    SkipEmpty(candidates, |candidates|);
    r := "";
  }

  /** A NULL and an empty column are the same. */
  function TextOf(t: Option<string>): string {
    if t.Some? then t.value else ""
  }

  function UpperChar(c: char): char {
    if 'a' <= c <= 'z' then c - 'a' + 'A' else c
  }

  function TitleCase(id: ProviderId): string {
    if id == "" then "" else [UpperChar(id[0])] + id[1..]
  }

  // ----- what each layer below the row offers, as the views report it -----

  function DefaultDisplayName(l: Layers): string {
    if l.env.Some? && l.env.value.displayName != "" then l.env.value.displayName
    else if l.wellKnown.Some? && l.wellKnown.value.displayName != "" then l.wellKnown.value.displayName
    else TitleCase(l.id)
  }

  function DefaultIssuerUrl(l: Layers): string {
    if l.env.Some? && l.env.value.issuerUrl != "" then l.env.value.issuerUrl
    else if l.wellKnown.Some? then l.wellKnown.value.issuerUrl
    else ""
  }

  function DefaultClientId(l: Layers): string {
    if l.env.Some? then l.env.value.clientId else ""
  }

  function DefaultClaimStyle(l: Layers): string {
    if l.env.Some? && l.env.value.claimStyle != "" then l.env.value.claimStyle
    else if l.wellKnown.Some? then l.wellKnown.value.claimStyle
    else ""
  }

  function DefaultScopes(l: Layers): seq<string> {
    if l.env.Some? && l.env.value.scopes != [] then l.env.value.scopes else DEFAULT_SCOPES
  }

  // ----- the merge -----

  function StoredDisplayName(row: Option<Row>): string { if row.Some? then TextOf(row.value.displayName) else "" }

  function StoredIssuerUrl(row: Option<Row>): string { if row.Some? then TextOf(row.value.issuerUrl) else "" }

  function StoredClientId(row: Option<Row>): string { if row.Some? then TextOf(row.value.clientId) else "" }

  function StoredClientSecret(row: Option<Row>): string { if row.Some? then TextOf(row.value.clientSecret) else "" }

  function StoredClaimStyle(row: Option<Row>): string { if row.Some? then TextOf(row.value.claimStyle) else "" }

  function EnvDisplayName(env: Option<Provider>): string { if env.Some? then env.value.displayName else "" }

  function EnvIssuerUrl(env: Option<Provider>): string { if env.Some? then env.value.issuerUrl else "" }

  function EnvClientId(env: Option<Provider>): string { if env.Some? then env.value.clientId else "" }

  function EnvClientSecret(env: Option<Provider>): string { if env.Some? then env.value.clientSecret else "" }

  function EnvClaimStyle(env: Option<Provider>): string { if env.Some? then env.value.claimStyle else "" }

  function KnownDisplayName(known: Option<Defaults>): string { if known.Some? then known.value.displayName else "" }

  function KnownIssuerUrl(known: Option<Defaults>): string { if known.Some? then known.value.issuerUrl else "" }

  function KnownClaimStyle(known: Option<Defaults>): string { if known.Some? then known.value.claimStyle else "" }

  function PickScopes(row: Option<Row>, env: Option<Provider>): seq<string> {
    if row.Some? && row.value.scopes.Some? && row.value.scopes.value != [] then row.value.scopes.value
    else if env.Some? && env.value.scopes != [] then env.value.scopes
    else DEFAULT_SCOPES
  }

  /** mergeFields: the effective provider of one id. */
  function Effective(l: Layers): Provider {
    var issuerUrl := FirstNonEmpty([StoredIssuerUrl(l.row), EnvIssuerUrl(l.env),
                                    KnownIssuerUrl(l.wellKnown)]);
    Provider(
      l.id,
      FirstNonEmpty([StoredDisplayName(l.row), EnvDisplayName(l.env),
                     KnownDisplayName(l.wellKnown), TitleCase(l.id)]),
      issuerUrl,
      FirstNonEmpty([StoredClientId(l.row), EnvClientId(l.env)]),
      FirstNonEmpty([StoredClientSecret(l.row), EnvClientSecret(l.env)]),
      FirstNonEmpty([StoredClaimStyle(l.row), EnvClaimStyle(l.env),
                     KnownClaimStyle(l.wellKnown)]),
      PickScopes(l.row, l.env),
      issuerUrl in MULTI_TENANT_ISSUERS)
  }

  predicate MergedEnabled(l: Layers) {
    l.row.Some? ==> l.row.value.enabled
  }

  function Over(stored: string, fallback: string): string {
    if stored != "" then stored else fallback
  }

  lemma PickTwo(a: string, b: string)
    ensures FirstNonEmpty([a, b]) == Over(a, b)
  {
    assert [a, b][1..] == [b] && [b][1..] == [];
    assert FirstNonEmpty([b]) == b;
  }

  lemma PickThree(a: string, b: string, c: string)
    ensures FirstNonEmpty([a, b, c]) == Over(a, Over(b, c))
  {
    assert [a, b, c][1..] == [b, c];
    PickTwo(b, c);
  }

  lemma PickFour(a: string, b: string, c: string, d: string)
    ensures FirstNonEmpty([a, b, c, d]) == Over(a, Over(b, Over(c, d)))
  {
    assert [a, b, c, d][1..] == [b, c, d];
    PickThree(b, c, d);
  }

  /** Every text field of the merge is the row's value over the reported default. */
  lemma EffectiveIsRowOverDefault(l: Layers)
    ensures Effective(l).displayName == Over(StoredDisplayName(l.row), DefaultDisplayName(l))
    ensures Effective(l).issuerUrl == Over(StoredIssuerUrl(l.row), DefaultIssuerUrl(l))
    ensures Effective(l).clientId == Over(StoredClientId(l.row), DefaultClientId(l))
    ensures Effective(l).claimStyle == Over(StoredClaimStyle(l.row), DefaultClaimStyle(l))
    ensures Effective(l).clientSecret == Over(StoredClientSecret(l.row), EnvClientSecret(l.env))
  {
    PickFour(StoredDisplayName(l.row), EnvDisplayName(l.env),
             KnownDisplayName(l.wellKnown), TitleCase(l.id));
    PickThree(StoredIssuerUrl(l.row), EnvIssuerUrl(l.env),
              KnownIssuerUrl(l.wellKnown));
    PickTwo(StoredClientId(l.row), EnvClientId(l.env));
    PickThree(StoredClaimStyle(l.row), EnvClaimStyle(l.env),
              KnownClaimStyle(l.wellKnown));
    PickTwo(StoredClientSecret(l.row), EnvClientSecret(l.env));
  }

  /** `r` is the first of the four that is there and not empty. */
  predicate IsCascade(r: string, row: Option<string>, env: Option<string>, known: Option<string>, last: string) {
    if row.Some? && row.value != "" then r == row.value
    else if env.Some? && env.value != "" then r == env.value
    else if known.Some? && known.value != "" then r == known.value
    else r == last
  }

  /** The merge on the columns: database over environment over built-in default. */
  lemma EffectiveOnColumns(l: Layers)
    ensures var p := Effective(l);
            && p.id == l.id
            && IsCascade(p.displayName,
                         if l.row.Some? then l.row.value.displayName else None,
                         if l.env.Some? then Some(l.env.value.displayName) else None,
                         if l.wellKnown.Some? then Some(l.wellKnown.value.displayName) else None, TitleCase(l.id))
            && IsCascade(p.issuerUrl,
                         if l.row.Some? then l.row.value.issuerUrl else None,
                         if l.env.Some? then Some(l.env.value.issuerUrl) else None,
                         if l.wellKnown.Some? then Some(l.wellKnown.value.issuerUrl) else None, "")
            && IsCascade(p.clientId,
                         if l.row.Some? then l.row.value.clientId else None,
                         if l.env.Some? then Some(l.env.value.clientId) else None, None, "")
            && IsCascade(p.clientSecret,
                         if l.row.Some? then l.row.value.clientSecret else None,
                         if l.env.Some? then Some(l.env.value.clientSecret) else None, None, "")
            && IsCascade(p.claimStyle,
                         if l.row.Some? then l.row.value.claimStyle else None,
                         if l.env.Some? then Some(l.env.value.claimStyle) else None,
                         if l.wellKnown.Some? then Some(l.wellKnown.value.claimStyle) else None, "")
  {
    EffectiveIsRowOverDefault(l);
  }

  /** The scopes are the row's, else the environment's, else the default; the tenancy flag follows the issuer. */
  lemma ScopesOnColumns(l: Layers)
    ensures Effective(l).scopes ==
            if l.row.Some? && l.row.value.scopes.Some? && |l.row.value.scopes.value| > 0 then l.row.value.scopes.value
            else if l.env.Some? && |l.env.value.scopes| > 0 then l.env.value.scopes
            else ["openid", "email", "profile"]
    ensures Effective(l).multiTenantIssuer <==> Effective(l).issuerUrl in MULTI_TENANT_ISSUERS
  {
  }

  /** The built-in providers and only they have defaults. */
  lemma BuiltInDefaults(env: Registry, rows: Rows, id: ProviderId)
    ensures LayersOf(env, rows, id).wellKnown ==
            match id
            case "google" => Some(Defaults("https://accounts.google.com", "google", "Google"))
            case "microsoft" =>
              Some(Defaults("https://login.microsoftonline.com/common/v2.0", "microsoft", "Microsoft"))
            case _ => None
    ensures LayersOf(env, rows, id).row == if id in rows then Some(rows[id]) else None
    ensures LayersOf(env, rows, id).env == if id in env then Some(env[id]) else None
    ensures LayersOf(env, rows, id).id == id
  {
  }

  /**
   A title-cased id differs from the id at most in its first character, which is then the capital of a small letter.
   */
  lemma TitleCaseCapitalizes(id: ProviderId)
    ensures |TitleCase(id)| == |id| && TitleCase(TitleCase(id)) == TitleCase(id)
    ensures id != "" ==>
              && TitleCase(id)[1..] == id[1..]
              && if id[0] in "abcdefghijklmnopqrstuvwxyz" then TitleCase(id)[0] as int + 32 == id[0] as int
                 else TitleCase(id)[0] == id[0]
  {
    if id != "" {
      SmallLetters(id[0]);
    }
  }

  lemma SmallLetters(c: char)
    ensures c in "abcdefghijklmnopqrstuvwxyz" <==> 'a' <= c <= 'z'
  {
    var letters := "abcdefghijklmnopqrstuvwxyz";
    assert forall i :: 0 <= i < 26 ==> letters[i] as int == 'a' as int + i;
    if 'a' <= c <= 'z' {
      assert letters[c as int - 'a' as int] == c;
    }
  }

  /** The *_default a view reports is what the merge yields once Revert has deleted the row. */
  lemma DefaultsAreWhatRevertYields(l: Layers)
    ensures var reverted := Effective(l.(row := None));
            && reverted.displayName == DefaultDisplayName(l) && reverted.issuerUrl == DefaultIssuerUrl(l)
            && reverted.clientId == DefaultClientId(l) && reverted.claimStyle == DefaultClaimStyle(l)
            && reverted.scopes == DefaultScopes(l)
  {
    EffectiveIsRowOverDefault(l.(row := None));
  }

  // ----- the registry -----

  function LayersOf(env: Registry, rows: Rows, id: ProviderId): Layers {
    Layers(id,
           if id in rows then Some(rows[id]) else None,
           if id in env then Some(env[id]) else None,
           WellKnown(id))
  }

  function MergedOf(env: Registry, rows: Rows): map<ProviderId, Layers> {
    map id | id in env.Keys + rows.Keys :: LayersOf(env, rows, id)
  }

  /** Enabled, and with the fields OAuth initialisation needs. */
  predicate Viable(l: Layers) {
    MergedEnabled(l) && Effective(l).clientId != "" && Effective(l).issuerUrl != "" && Effective(l).claimStyle != ""
  }

  function RegistryOf(merged: map<ProviderId, Layers>): Registry {
    map id | id in merged && Viable(merged[id]) :: Effective(merged[id])
  }

  /** The fields that OAuth initialisation needs are there. */
  predicate Complete(p: Provider) {
    p.clientId != "" && p.issuerUrl != "" && p.claimStyle != ""
  }

  /** A provider is registered exactly when some layer knows it, no row disables it, and its merged fields suffice. */
  lemma RegisteredIff(env: Registry, rows: Rows, id: ProviderId)
    ensures var registry := RegistryOf(MergedOf(env, rows));
            && (id in registry <==>
                  && (id in env || id in rows) && (id in rows ==> rows[id].enabled)
                  && Complete(Effective(LayersOf(env, rows, id))))
            && (id in registry ==> registry[id] == Effective(LayersOf(env, rows, id)))
  {
  }

  /** Without a row, a provider of the environment is merged from it and the built-in defaults alone. */
  lemma EnvironmentAlone(env: Registry, rows: Rows, id: ProviderId)
    requires id in env && id !in rows && Complete(env[id])
    ensures var p := Effective(LayersOf(env, rows, id));
            && p.issuerUrl == env[id].issuerUrl && p.clientId == env[id].clientId
            && p.clientSecret == env[id].clientSecret && p.claimStyle == env[id].claimStyle
    ensures id in RegistryOf(MergedOf(env, rows))
  {
    EffectiveIsRowOverDefault(LayersOf(env, rows, id));
    RegisteredIff(env, rows, id);
  }

  /** The loop over the ids either layer knows. */
  method MergeEach(ids: set<ProviderId>, env: Registry, rows: Rows) returns (merged: map<ProviderId, Layers>)
    ensures merged.Keys == ids && forall id :: id in ids ==> merged[id] == LayersOf(env, rows, id)
  {
    var rest := ids;
    merged := map[];
    while rest != {}
      invariant rest <= ids && merged.Keys == ids - rest
      invariant forall id :: id in merged ==> merged[id] == LayersOf(env, rows, id)
      decreases |rest|
    {
      var id :| id in rest;
      merged := merged[id := LayersOf(env, rows, id)];
      rest := rest - {id};
    }
  }

  method LoadMergedProviders(env: Registry, rows: Rows) returns (merged: map<ProviderId, Layers>)
    ensures merged == MergedOf(env, rows)
  {
    merged := MergeEach(env.Keys + rows.Keys, env, rows);
  }

  method MergedRegistry(merged: map<ProviderId, Layers>) returns (registry: Registry)
    ensures registry == RegistryOf(merged)
    ensures forall id :: id in registry <==> id in merged && Viable(merged[id])
  {
    var ids := merged.Keys;
    registry := map[];
    while ids != {}
      invariant ids <= merged.Keys
      invariant forall id :: id in registry <==> id in merged && id !in ids && Viable(merged[id])
      invariant forall id :: id in registry ==> registry[id] == Effective(merged[id])
      decreases |ids|
    {
      var id :| id in ids;
      if Viable(merged[id]) {
        registry := registry[id := Effective(merged[id])];
      }
      ids := ids - {id};
    }
  }
}
