/**
 The edit form's way round: view, form, PUT body, row merge, effective provider.

 The form shows effective values and the body clears whatever equals the default, so saving an unchanged form
 should change nothing.  `SaveIsNeutralIff` says exactly when that is so.
 */
module ProviderForm {
  import opened Wrappers
  import opened Text
  import opened ProviderMerge

  const COMMA: char := ','

  // ----- the view -----

  /** `stored` is the row's override, `fallback` the *_default; both null when empty. */
  datatype FieldView = FieldView(stored: Option<string>, fallback: Option<string>)

  datatype View = View(
    displayName: FieldView, issuerUrl: FieldView, clientId: FieldView, claimStyle: FieldView,
    scopes: Option<seq<string>>, scopesDefault: seq<string>, enabled: bool)

  function NonEmpty(s: string): Option<string> {
    if s == "" then None else Some(s)
  }

  function FieldOf(stored: string, fallback: string): FieldView {
    FieldView(NonEmpty(stored), NonEmpty(fallback))
  }

  function OverrideScopes(row: Option<Row>): Option<seq<string>> {
    if row.Some? && row.value.scopes.Some? && row.value.scopes.value != [] then row.value.scopes else None
  }

  function ViewOf(l: Layers): View {
    View(FieldOf(StoredDisplayName(l.row), DefaultDisplayName(l)),
         FieldOf(StoredIssuerUrl(l.row), DefaultIssuerUrl(l)),
         FieldOf(StoredClientId(l.row), DefaultClientId(l)),
         FieldOf(StoredClaimStyle(l.row), DefaultClaimStyle(l)),
         OverrideScopes(l.row), DefaultScopes(l), MergedEnabled(l))
  }

  // ----- the form -----

  datatype Form = Form(
    displayName: string, issuerUrl: string, clientId: string, clientSecret: string, clearSecret: bool,
    claimStyle: string, scopes: string, enabled: bool)

  function Shown(f: FieldView): string {
    if f.stored.Some? then f.stored.value else if f.fallback.Some? then f.fallback.value else ""
  }

  function ViewToForm(v: View): Form {
    Form(Shown(v.displayName), Shown(v.issuerUrl), Shown(v.clientId), "", false, Shown(v.claimStyle),
         Join(if v.scopes.Some? then v.scopes.value else v.scopesDefault, ", "), v.enabled)
  }

  /** A JSON value of the PUT body; `Malformed` is one of the wrong shape. */
  datatype Json<T> = Absent | Null | Value(value: T) | Malformed

  datatype Body = Body(
    displayName: Json<string>, issuerUrl: Json<string>, clientId: Json<string>, clientSecret: Json<string>,
    claimStyle: Json<string>, scopes: Json<seq<string>>, enabled: Json<bool>)

  /** Trim every part and drop the blank ones. */
  function Normalize(parts: seq<string>, space: char -> bool): (r: seq<string>)
    ensures forall i :: 0 <= i < |r| ==> r[i] != "" && IsTrimmed(r[i], space)
  {
    if parts == [] then [] else Prepend(Trim(parts[0], space), Normalize(parts[1..], space))
  }

  function Prepend(first: string, rest: seq<string>): seq<string> {
    if first == "" then rest else [first] + rest
  }

  function ParseScopes(input: string): seq<string> {
    Normalize(Split(input, COMMA), JsSpace)
  }

  function ResolveOverride(value: string, fallback: Option<string>): Json<string> {
    var trimmed := JsTrim(value);
    if trimmed == "" || trimmed == JsTrim(TextOf(fallback)) then Null else Value(trimmed)
  }

  function ResolveScopesOverride(value: string, fallback: seq<string>): Json<seq<string>> {
    var parsed := ParseScopes(value);
    if parsed == [] || parsed == fallback then Null else Value(parsed)
  }

  function BuildWriteBody(form: Form, v: View): Body {
    Body(ResolveOverride(form.displayName, v.displayName.fallback),
         ResolveOverride(form.issuerUrl, v.issuerUrl.fallback),
         ResolveOverride(form.clientId, v.clientId.fallback),
         if form.clientSecret != "" then Value(form.clientSecret) else if form.clearSecret then Value("") else Absent,
         ResolveOverride(form.claimStyle, v.claimStyle.fallback),
         ResolveScopesOverride(form.scopes, v.scopesDefault),
         Value(form.enabled))
  }

  // ----- the server's merge of the body into the row -----

  function MergeText(field: Json<string>, existing: Option<string>): Option<string> {
    match field
    case Absent => existing
    case Malformed => existing
    case Null => None
    case Value(s) => if s == "" then None else Some(s)
  }

  function MergeScopes(field: Json<seq<string>>, existing: Option<seq<string>>): Option<seq<string>> {
    match field
    case Absent => existing
    case Malformed => existing
    case Null => None
    case Value(a) => if Normalize(a, GoSpace) == [] then None else Some(Normalize(a, GoSpace))
  }

  /** mergeScopes' trim-and-drop loop. */
  method NormalizeScopes(a: seq<string>) returns (out: seq<string>)
    ensures out == Normalize(a, GoSpace)
    ensures forall i :: 0 <= i < |out| ==> out[i] != "" && IsTrimmed(out[i], GoSpace)
  {
    out := [];
    for i := 0 to |a|
      invariant Normalize(a, GoSpace) == out + Normalize(a[i..], GoSpace)
    {
      assert a[i..][1..] == a[i + 1..];
      var s := GoTrim(a[i]);
      if s != "" {
        out := out + [s];
      }
    }
    assert a[|a|..] == [];
  }

  const NO_ROW := Row(None, None, None, None, None, None, true)

  /** upsertAndRespond: the row to write; an absent row counts as all NULL and enabled. */
  function UpsertRow(existing: Option<Row>, body: Body): Row {
    var row := if existing.Some? then existing.value else NO_ROW;
    Row(MergeText(body.displayName, row.displayName), MergeText(body.issuerUrl, row.issuerUrl),
        MergeText(body.clientId, row.clientId), MergeText(body.clientSecret, row.clientSecret),
        MergeText(body.claimStyle, row.claimStyle), MergeScopes(body.scopes, row.scopes),
        MergeFlag(body.enabled, row.enabled))
  }

  /** boolField: a null decodes to false without an error; only an absent or wrongly shaped value keeps the flag. */
  function MergeFlag(field: Json<bool>, existing: bool): bool {
    match field
    case Absent => existing
    case Malformed => existing
    case Null => false
    case Value(b) => b
  }

  /** The layers after opening the form and saving it untouched. */
  function AfterSave(l: Layers): Layers {
    l.(row := Some(UpsertRow(l.row, BuildWriteBody(ViewToForm(ViewOf(l)), ViewOf(l)))))
  }

  // ----- one text field -----

  /** The override the round trip stores for a field that held `stored` over `fallback`. */
  function SavedText(stored: string, fallback: string): string {
    TextOf(MergeText(ResolveOverride(Shown(FieldOf(stored, fallback)), NonEmpty(fallback)), NonEmpty(stored)))
  }

  /** An override survives: it equals the default, or it is trimmed and the trimmed default is something else. */
  predicate TextSurvives(stored: string, fallback: string) {
    stored == "" || stored == fallback || (IsTrimmed(stored, JsSpace) && JsTrim(fallback) != stored)
  }

  lemma SavedTextIs(stored: string, fallback: string)
    ensures var kept := JsTrim(Over(stored, fallback));
            SavedText(stored, fallback) == if kept == "" || kept == JsTrim(fallback) then "" else kept
  {
  }

  lemma SavedTextIff(stored: string, fallback: string)
    ensures Over(SavedText(stored, fallback), fallback) == Over(stored, fallback) <==> TextSurvives(stored, fallback)
    ensures stored == "" ==> SavedText(stored, fallback) == ""
  {
    SavedTextIs(stored, fallback);
    TrimIsIdentity(stored, JsSpace);
  }

  // ----- the scopes -----

  function SavedScopes(inForce: seq<string>, fallback: seq<string>): seq<string> {
    var parsed := ParseScopes(Join(inForce, ", "));
    var normal := Normalize(parsed, GoSpace);
    if parsed == [] || parsed == fallback || normal == [] then fallback else normal
  }

  /** Not blank, trimmed in JavaScript's sense, and free of the separator. */
  predicate FormClean(s: string) {
    s != "" && COMMA !in s && IsTrimmed(s, JsSpace)
  }

  predicate AllFormClean(parts: seq<string>) {
    forall i :: 0 <= i < |parts| ==> FormClean(parts[i])
  }

  predicate AllServerTrimmed(parts: seq<string>) {
    forall i :: 0 <= i < |parts| ==> IsTrimmed(parts[i], GoSpace)
  }

  lemma {:induction false} NormalizeClean(parts: seq<string>, space: char -> bool)
    requires forall i :: 0 <= i < |parts| ==> parts[i] != "" && IsTrimmed(parts[i], space)
    ensures Normalize(parts, space) == parts
  {
    if parts != [] {
      NormalizeClean(parts[1..], space);
      TrimIsIdentity(parts[0], space);
      assert parts == [parts[0]] + parts[1..];
    }
  }

  lemma {:induction false} NormalizeKeepsOut(parts: seq<string>, space: char -> bool, c: char)
    requires forall i :: 0 <= i < |parts| ==> c !in parts[i]
    ensures forall i :: 0 <= i < |Normalize(parts, space)| ==> c !in Normalize(parts, space)[i]
  {
    if parts != [] {
      NormalizeKeepsOut(parts[1..], space, c);
      assert c !in Trim(parts[0], space);
    }
  }

  function Padded(parts: seq<string>): seq<string> {
    if parts == [] then [] else [" " + parts[0]] + Padded(parts[1..])
  }

  /** Splitting "a, b, c" at the commas gives back the parts, all but the first with a leading space. */
  lemma {:induction false} SplitOfCommaJoin(parts: seq<string>)
    requires parts != [] && forall i :: 0 <= i < |parts| ==> COMMA !in parts[i]
    ensures Split(Join(parts, ", "), COMMA) == [parts[0]] + Padded(parts[1..])
  {
    if |parts| == 1 {
      SplitWithoutSeparator(parts[0], COMMA);
    } else {
      var rest := Join(parts[1..], ", ");
      SplitOfCommaJoin(parts[1..]);
      SplitAtSeparator(parts[0], COMMA, " " + rest);
      assert Join(parts, ", ") == parts[0] + [COMMA] + (" " + rest);
      SplitOfPrefixed(rest);
    }
  }

  lemma SplitOfPrefixed(s: string)
    ensures Split(" " + s, COMMA) == [" " + Split(s, COMMA)[0]] + Split(s, COMMA)[1..]
  {
    assert (" " + s)[1..] == s;
  }

  lemma {:induction false} PaddingIsTrimmedAway(parts: seq<string>)
    ensures Normalize(Padded(parts), JsSpace) == Normalize(parts, JsSpace)
  {
    if parts != [] {
      PaddingIsTrimmedAway(parts[1..]);
      TrimOfPadded(parts[0], JsSpace, ' ');
      assert Padded(parts)[0] == [' '] + parts[0];
      assert Padded(parts)[1..] == Padded(parts[1..]);
    }
  }

  /** Parts without commas come back from the form trimmed and with the blank ones dropped, nothing else. */
  lemma ParseOfJoin(parts: seq<string>)
    requires parts != [] && forall i :: 0 <= i < |parts| ==> COMMA !in parts[i]
    ensures ParseScopes(Join(parts, ", ")) == Normalize(parts, JsSpace)
  {
    SplitOfCommaJoin(parts);
    PaddingIsTrimmedAway(parts[1..]);
    var split := [parts[0]] + Padded(parts[1..]);
    assert split[1..] == Padded(parts[1..]);
  }

  /** Going through the form is the identity exactly on clean scopes. */
  lemma FormRoundTripIff(parts: seq<string>)
    requires parts != []
    ensures ParseScopes(Join(parts, ", ")) == parts <==> AllFormClean(parts)
  {
    if AllFormClean(parts) {
      ParseOfJoin(parts);
      NormalizeClean(parts, JsSpace);
    }
    NormalizeKeepsOut(Split(Join(parts, ", "), COMMA), JsSpace, COMMA);
  }

  /** Two shortening steps on the head and two on the tail that end where they started changed nothing. */
  lemma PrependStep(x: string, a: string, b: string, rest: seq<string>, t: seq<string>, u: seq<string>)
    requires |b| <= |a| <= |x| && (|a| == |x| ==> a == x)
    requires |u| <= |rest| && (u == rest ==> t == rest)
    ensures |Prepend(b, u)| <= |rest| + 1
    ensures Prepend(b, u) == [x] + rest ==> Prepend(a, t) == [x] + rest
  {
    if Prepend(b, u) == [x] + rest {
      assert Prepend(b, u)[0] == x && Prepend(b, u)[1..] == rest;
      assert b != "" ==> ([b] + u)[1..] == u;
    }
  }

  lemma NormalizeOfPrepend(first: string, rest: seq<string>, space: char -> bool)
    ensures Normalize(Prepend(first, rest), space) == Prepend(Trim(first, space), Normalize(rest, space))
  {
    if first != "" {
      assert ([first] + rest)[1..] == rest;
    }
  }

  /** Trimming twice and ending where it started means neither trim did anything. */
  lemma {:induction false} DoubleTrimIsIdentity(parts: seq<string>)
    ensures |Normalize(Normalize(parts, JsSpace), GoSpace)| <= |parts|
    ensures Normalize(Normalize(parts, JsSpace), GoSpace) == parts ==> Normalize(parts, JsSpace) == parts
  {
    if parts != [] {
      var first, rest := parts[0], parts[1..];
      var head, tail := Trim(first, JsSpace), Normalize(rest, JsSpace);
      DoubleTrimIsIdentity(rest);
      NormalizeOfPrepend(head, tail, GoSpace);
      PrependStep(first, head, Trim(head, GoSpace), rest, tail, Normalize(tail, GoSpace));
      assert parts == [first] + rest;
    }
  }

  /** Going through the form and the server is the identity exactly on scopes clean for both. */
  lemma ServerRoundTripIff(parts: seq<string>)
    requires parts != []
    ensures Normalize(ParseScopes(Join(parts, ", ")), GoSpace) == parts <==>
              AllFormClean(parts) && AllServerTrimmed(parts)
  {
    var parsed := ParseScopes(Join(parts, ", "));
    FormRoundTripIff(parts);
    if AllFormClean(parts) && AllServerTrimmed(parts) {
      NormalizeClean(parts, GoSpace);
    }
    if Normalize(parsed, GoSpace) == parts {
      NormalizeKeepsOut(Split(Join(parts, ", "), COMMA), JsSpace, COMMA);
      NormalizeKeepsOut(parsed, GoSpace, COMMA);
      ParseOfJoin(parts);
      DoubleTrimIsIdentity(parts);
    }
  }

  /**
   No usable scope in it at all: once JavaScript has trimmed it, every piece between commas is Go white space only.
   */
  predicate Blank(parts: seq<string>) {
    AllBlank(Split(Join(parts, ", "), COMMA))
  }

  predicate AllBlank(pieces: seq<string>) {
    forall i :: 0 <= i < |pieces| ==> OnlyGoSpace(JsTrim(pieces[i]))
  }

  predicate OnlyGoSpace(s: string) {
    forall i :: 0 <= i < |s| ==> GoSpace(s[i])
  }

  lemma {:induction false} TrimLeftOfSpace(s: string)
    ensures TrimLeft(s, GoSpace) == "" <==> OnlyGoSpace(s)
  {
    if s != "" && GoSpace(s[0]) {
      TrimLeftOfSpace(s[1..]);
      assert forall i :: 0 < i < |s| ==> s[i] == s[1..][i - 1];
    }
  }

  lemma TrimOfSpace(s: string)
    ensures GoTrim(s) == "" <==> OnlyGoSpace(s)
  {
    TrimLeftOfSpace(s);
    var left := TrimLeft(s, GoSpace);
    if left != "" {
      TrimRightKeepsFirst(left);
    }
  }

  lemma {:induction false} TrimRightKeepsFirst(s: string)
    requires s != "" && !GoSpace(s[0])
    ensures TrimRight(s, GoSpace) != ""
  {
    if |s| > 1 {
      TrimRightKeepsFirst(s[..|s| - 1]);
    }
  }

  lemma {:induction false} BlankPieces(pieces: seq<string>)
    ensures Normalize(Normalize(pieces, JsSpace), GoSpace) == [] <==> AllBlank(pieces)
  {
    if pieces != [] {
      var first, rest := JsTrim(pieces[0]), pieces[1..];
      BlankPieces(rest);
      NormalizeOfPrepend(first, Normalize(rest, JsSpace), GoSpace);
      TrimOfSpace(first);
      assert forall i :: 0 < i < |pieces| ==> pieces[i] == rest[i - 1];
      assert AllBlank(pieces) <==> OnlyGoSpace(first) && AllBlank(rest);
    }
  }

  predicate ScopesSurvive(inForce: seq<string>, fallback: seq<string>) {
    || (AllFormClean(inForce) && AllServerTrimmed(inForce))
    || (inForce == fallback && (AllFormClean(fallback) || Blank(fallback)))
  }

  lemma SavedScopesIff(inForce: seq<string>, fallback: seq<string>)
    requires inForce != []
    ensures SavedScopes(inForce, fallback) == inForce <==> ScopesSurvive(inForce, fallback)
  {
    FormRoundTripIff(inForce);
    ServerRoundTripIff(inForce);
    BlankPieces(Split(Join(inForce, ", "), COMMA));
  }

  // ----- the whole form -----

  /** What a caller can check on the row and its defaults before opening the form. */
  predicate Neutral(l: Layers) {
    && TextSurvives(StoredDisplayName(l.row), DefaultDisplayName(l))
    && TextSurvives(StoredIssuerUrl(l.row), DefaultIssuerUrl(l))
    && TextSurvives(StoredClientId(l.row), DefaultClientId(l))
    && TextSurvives(StoredClaimStyle(l.row), DefaultClaimStyle(l))
    && ScopesSurvive(PickScopes(l.row, l.env), DefaultScopes(l))
  }

  /** The body never says Absent or Malformed about a text field, so what was stored before does not matter. */
  lemma SavedTextMerges(existing: Option<string>, stored: string, fallback: string)
    ensures TextOf(MergeText(ResolveOverride(Shown(FieldOf(stored, fallback)), NonEmpty(fallback)), existing))
            == SavedText(stored, fallback)
  {
  }

  lemma AfterSaveTexts(l: Layers)
    ensures var saved := AfterSave(l).row;
            && StoredDisplayName(saved) == SavedText(StoredDisplayName(l.row), DefaultDisplayName(l))
            && StoredIssuerUrl(saved) == SavedText(StoredIssuerUrl(l.row), DefaultIssuerUrl(l))
            && StoredClientId(saved) == SavedText(StoredClientId(l.row), DefaultClientId(l))
            && StoredClaimStyle(saved) == SavedText(StoredClaimStyle(l.row), DefaultClaimStyle(l))
            && StoredClientSecret(saved) == StoredClientSecret(l.row)
  {
    var row := if l.row.Some? then l.row.value else NO_ROW;
    SavedTextMerges(row.displayName, StoredDisplayName(l.row), DefaultDisplayName(l));
    SavedTextMerges(row.issuerUrl, StoredIssuerUrl(l.row), DefaultIssuerUrl(l));
    SavedTextMerges(row.clientId, StoredClientId(l.row), DefaultClientId(l));
    SavedTextMerges(row.claimStyle, StoredClaimStyle(l.row), DefaultClaimStyle(l));
  }

  lemma AfterSaveScopes(l: Layers)
    ensures PickScopes(AfterSave(l).row, l.env) == SavedScopes(PickScopes(l.row, l.env), DefaultScopes(l))
  {
    var v := ViewOf(l);
    var inForce := PickScopes(l.row, l.env);
    assert ViewToForm(v).scopes == Join(inForce, ", ");
    var written := ResolveScopesOverride(Join(inForce, ", "), DefaultScopes(l));
    assert AfterSave(l).row.value.scopes == MergeScopes(written, (if l.row.Some? then l.row.value else NO_ROW).scopes);
  }

  /**
   Saving an untouched form leaves the enabled flag and the secret alone, and leaves the effective provider alone
   exactly when the row is Neutral.
   */
  lemma SaveIsNeutralIff(l: Layers)
    ensures MergedEnabled(AfterSave(l)) == MergedEnabled(l)
    ensures Effective(AfterSave(l)).clientSecret == Effective(l).clientSecret
    ensures Effective(AfterSave(l)) == Effective(l) <==> Neutral(l)
  {
    AfterSaveTexts(l);
    AfterSaveScopes(l);
    SameEffectiveIff(l, AfterSave(l));
    SavedTextIff(StoredDisplayName(l.row), DefaultDisplayName(l));
    SavedTextIff(StoredIssuerUrl(l.row), DefaultIssuerUrl(l));
    SavedTextIff(StoredClientId(l.row), DefaultClientId(l));
    SavedTextIff(StoredClaimStyle(l.row), DefaultClaimStyle(l));
    SavedScopesIff(PickScopes(l.row, l.env), DefaultScopes(l));
  }

  predicate SameOver(stored: string, stored': string, fallback: string) {
    Over(stored', fallback) == Over(stored, fallback)
  }

  /** Two rows over the same defaults: which parts decide whether the effective provider is the same. */
  lemma SameEffectiveIff(l: Layers, l': Layers)
    requires l' == l.(row := l'.row)
    ensures Effective(l') == Effective(l) <==>
            && SameOver(StoredDisplayName(l.row), StoredDisplayName(l'.row), DefaultDisplayName(l))
            && SameOver(StoredIssuerUrl(l.row), StoredIssuerUrl(l'.row), DefaultIssuerUrl(l))
            && SameOver(StoredClientId(l.row), StoredClientId(l'.row), DefaultClientId(l))
            && SameOver(StoredClaimStyle(l.row), StoredClaimStyle(l'.row), DefaultClaimStyle(l))
            && SameOver(StoredClientSecret(l.row), StoredClientSecret(l'.row), EnvClientSecret(l.env))
            && PickScopes(l'.row, l.env) == PickScopes(l.row, l.env)
    ensures StoredClientSecret(l'.row) == StoredClientSecret(l.row) ==>
              Effective(l').clientSecret == Effective(l).clientSecret
  {
    EffectiveIsRowOverDefault(l);
    EffectiveIsRowOverDefault(l');
  }

  // ----- what the view and the form show -----

  /** The form shows the provider in force, no secret, and the enabled flag. */
  lemma FormShowsEffective(l: Layers)
    ensures var form := ViewToForm(ViewOf(l));
            && form.displayName == Effective(l).displayName && form.issuerUrl == Effective(l).issuerUrl
            && form.clientId == Effective(l).clientId && form.claimStyle == Effective(l).claimStyle
            && form.scopes == Join(Effective(l).scopes, ", ")
            && form.clientSecret == "" && !form.clearSecret
            && form.enabled == (l.row.Some? ==> l.row.value.enabled)
  {
    EffectiveIsRowOverDefault(l);
  }

  /** An override is reported exactly when the column holds something, and a default exactly when there is one. */
  lemma ViewOnColumns(l: Layers)
    ensures var v := ViewOf(l);
            && v.issuerUrl.stored == (if l.row.Some? && l.row.value.issuerUrl.Some? && l.row.value.issuerUrl.value != ""
                                      then l.row.value.issuerUrl else None)
            && v.displayName.stored ==
               (if l.row.Some? && l.row.value.displayName.Some? && l.row.value.displayName.value != ""
                then l.row.value.displayName else None)
            && v.clientId.stored == (if l.row.Some? && l.row.value.clientId.Some? && l.row.value.clientId.value != ""
                                     then l.row.value.clientId else None)
            && v.claimStyle.stored ==
               (if l.row.Some? && l.row.value.claimStyle.Some? && l.row.value.claimStyle.value != ""
                then l.row.value.claimStyle else None)
            && v.scopes == (if l.row.Some? && l.row.value.scopes.Some? && |l.row.value.scopes.value| > 0
                            then l.row.value.scopes else None)
            && v.scopesDefault == Effective(l.(row := None)).scopes
  {
  }

  /** Each reported default is what the provider reverts to, or null when that is empty. */
  lemma DefaultsOnColumns(l: Layers)
    ensures var v, reverted := ViewOf(l), Effective(l.(row := None));
            && v.displayName.fallback == (if reverted.displayName == "" then None else Some(reverted.displayName))
            && v.issuerUrl.fallback == (if reverted.issuerUrl == "" then None else Some(reverted.issuerUrl))
            && v.clientId.fallback == (if reverted.clientId == "" then None else Some(reverted.clientId))
            && v.claimStyle.fallback == (if reverted.claimStyle == "" then None else Some(reverted.claimStyle))
  {
    DefaultsAreWhatRevertYields(l);
  }

  // ----- any form -----

  /**
   What a field's text in the form makes of the column: cleared when blank or the default, otherwise stored trimmed.
   */
  function ColumnFor(text: string, fallback: string): Option<string> {
    if JsTrim(text) == "" || JsTrim(text) == JsTrim(fallback) then None else Some(JsTrim(text))
  }

  /** Saving any edited form: every column, on the form's fields and what the row held. */
  lemma EditedSave(l: Layers, form: Form)
    ensures var saved := UpsertRow(l.row, BuildWriteBody(form, ViewOf(l)));
            && saved.displayName == ColumnFor(form.displayName, DefaultDisplayName(l))
            && saved.issuerUrl == ColumnFor(form.issuerUrl, DefaultIssuerUrl(l))
            && saved.clientId == ColumnFor(form.clientId, DefaultClientId(l))
            && saved.claimStyle == ColumnFor(form.claimStyle, DefaultClaimStyle(l))
            && saved.enabled == form.enabled
            && (form.clientSecret != "" ==> saved.clientSecret == Some(form.clientSecret))
            && (form.clientSecret == "" && form.clearSecret ==> saved.clientSecret == None)
            && (form.clientSecret == "" && !form.clearSecret ==>
                  saved.clientSecret == if l.row.Some? then l.row.value.clientSecret else None)
  {
  }

  /** And the scopes: cleared when none is given or they are the default, otherwise stored as parsed and trimmed. */
  lemma EditedScopes(l: Layers, form: Form)
    ensures var parsed := Normalize(Split(form.scopes, ','), JsSpace);
            var kept := Normalize(parsed, GoSpace);
            UpsertRow(l.row, BuildWriteBody(form, ViewOf(l))).scopes ==
            if parsed == [] || parsed == DefaultScopes(l) || kept == [] then None else Some(kept)
  {
  }

  predicate OverridesTrimmed(row: Option<Row>) {
    && IsTrimmed(StoredDisplayName(row), JsSpace) && IsTrimmed(StoredIssuerUrl(row), JsSpace)
    && IsTrimmed(StoredClientId(row), JsSpace) && IsTrimmed(StoredClaimStyle(row), JsSpace)
  }

  predicate DefaultsTrimmed(l: Layers) {
    && IsTrimmed(DefaultDisplayName(l), JsSpace) && IsTrimmed(DefaultIssuerUrl(l), JsSpace)
    && IsTrimmed(DefaultClientId(l), JsSpace) && IsTrimmed(DefaultClaimStyle(l), JsSpace)
  }

  lemma TrimmedTextSurvives(stored: string, fallback: string)
    requires IsTrimmed(stored, JsSpace) && IsTrimmed(fallback, JsSpace)
    ensures TextSurvives(stored, fallback)
  {
    TrimIsIdentity(fallback, JsSpace);
  }

  /** The promised case: trimmed overrides and defaults, and clean scopes, save unchanged. */
  lemma TrimmedRowsSaveUnchanged(l: Layers)
    requires OverridesTrimmed(l.row) && DefaultsTrimmed(l)
    requires AllFormClean(PickScopes(l.row, l.env)) && AllServerTrimmed(PickScopes(l.row, l.env))
    ensures Effective(AfterSave(l)) == Effective(l)
  {
    TrimmedTextSurvives(StoredDisplayName(l.row), DefaultDisplayName(l));
    TrimmedTextSurvives(StoredIssuerUrl(l.row), DefaultIssuerUrl(l));
    TrimmedTextSurvives(StoredClientId(l.row), DefaultClientId(l));
    TrimmedTextSurvives(StoredClaimStyle(l.row), DefaultClaimStyle(l));
    SaveIsNeutralIff(l);
  }

  /** A save never turns a field that had no override into one: its source label stays. */
  lemma SaveAddsNoOverride(l: Layers)
    requires l.row.None?
    ensures var saved := AfterSave(l).row.value;
            && saved.displayName.None? && saved.issuerUrl.None? && saved.clientId.None?
            && saved.claimStyle.None? && saved.clientSecret.None?
            && (AllFormClean(DefaultScopes(l)) ==> saved.scopes.None?)
  {
    FormRoundTripIff(DefaultScopes(l));
  }

  /** An untrimmed default breaks the promise: the override that equals its trimmed form is silently dropped. */
  lemma UntrimmedDefaultDropsOverride()
    ensures SavedText("x", "x ") == "" && Over(SavedText("x", "x "), "x ") != Over("x", "x ")
  {
    assert JsTrim("x") == "x";
    assert "x "[..1] == "x" && TrimRight("x ", JsSpace) == "x";
    assert JsTrim("x ") == "x";
  }
}
