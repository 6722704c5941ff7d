/**
 Errors of the SMTP sender: the text that leaves it must not carry a message address.

 `fail` replaces each secret by a marker, one after the other, so a later replacement could in principle
 recreate an earlier secret next to the marker.
 */
module Redaction {
  import opened Wrappers
  import opened Decimal

  const MARK := "[redacted]"

  // ----- strings.Contains and strings.ReplaceAll -----

  predicate OccursAt(s: string, t: string, i: nat) {
    i <= |s| && t <= s[i..]
  }

  ghost predicate Contains(s: string, t: string) {
    exists i: nat :: OccursAt(s, t, i)
  }

  function ContainsFrom(s: string, t: string): (found: bool)
    ensures found <==> Contains(s, t)
  {
    if t <= s then
      assert OccursAt(s, t, 0);
      true
    else if s == "" then
      assert forall i: nat :: !OccursAt(s, t, i);
      false
    else
      assert forall i: nat :: i > 0 && OccursAt(s, t, i) ==> OccursAt(s[1..], t, i - 1) by {
        assert forall i: nat :: 0 < i <= |s| ==> s[i..] == s[1..][i - 1..];
      }
      assert forall i: nat :: OccursAt(s[1..], t, i) ==> OccursAt(s, t, i + 1) by {
        assert forall i: nat :: i <= |s| - 1 ==> s[i + 1..] == s[1..][i..];
      }
      ContainsFrom(s[1..], t)
  }

  /** Leftmost, non-overlapping replacement of a non-empty string. */
  function ReplaceAll(s: string, t: string, by_: string): string
    requires t != ""
  {
    if |s| < |t| then s
    else if t <= s then by_ + ReplaceAll(s[|t|..], t, by_)
    else [s[0]] + ReplaceAll(s[1..], t, by_)
  }

  // ----- when a string can and cannot touch the marker -----

  /** One of the two strings begins the other. */
  predicate Comparable(a: string, b: string) {
    a <= b || b <= a
  }

  /** `t` begins inside a marker. */
  predicate StartsInside(t: string) {
    exists j :: 0 < j < |MARK| && Comparable(MARK[j..], t)
  }

  /**
   Replacing `old_` can put a marker where the rest of `t` is comparable with it: `t[..n]` followed by `old_`
   has its first match of `old_` exactly at `n`.
   */
  predicate Recreates(t: string, old_: string) {
    exists n :: 0 <= n < |t| && Comparable(t[n..], MARK) && forall m :: 0 <= m < n ==> !(old_ <= (t[..n] + old_)[m..])
  }

  /**
   The shape of the mailboxes the sender is given, with or without a display name: an '@', no bracket, no leading
   space, and no colon followed by a space.  A string with an '@' and neither space nor bracket is one.
   */
  predicate MailboxLike(t: string) {
    && '@' in t && '[' !in t && ']' !in t && t[0] != ' '
    && forall i :: 0 <= i < |t| - 1 ==> !(t[i] == ':' && t[i + 1] == ' ')
  }

  lemma PlainAddressIsMailbox(t: string)
    requires '@' in t && ' ' !in t && '[' !in t && ']' !in t
    ensures MailboxLike(t)
  {
    assert forall i :: 0 <= i < |t| ==> t[i] in t;
  }

  lemma MailboxIsClean(t: string, old_: string)
    requires MailboxLike(t)
    ensures !StartsInside(t) && !Recreates(t, old_)
  {
    assert MARK[0] == '[' && MARK[9] == ']' && '@' !in MARK;
    forall n | 0 <= n < |t| ensures !Comparable(t[n..], MARK) {
      assert t[n..][0] == t[n] && t[n] in t;
    }
    var k :| 0 <= k < |t| && t[k] == '@';
    forall j | 0 < j < |MARK| ensures !Comparable(MARK[j..], t) {
      var tail := MARK[j..];
      assert tail[|tail| - 1] == ']';
      assert k < |tail| ==> tail[k] == MARK[j + k] && MARK[j + k] in MARK;
      assert |tail| <= |t| ==> t[|tail| - 1] in t;
    }
  }

  lemma PrefixOfConcat(t: string, a: string, b: string)
    requires t <= a + b
    ensures Comparable(t, a)
  {
    if |t| <= |a| {
      assert t == (a + b)[..|t|] == a[..|t|];
    } else {
      assert a == (a + b)[..|a|] == t[..|a|];
    }
  }

  // ----- one replacement -----

  /** A match of `old_` begins before position `n`. */
  predicate MatchBefore(s: string, old_: string, n: nat) {
    exists m :: 0 <= m < n && OccursAt(s, old_, m)
  }

  /** The marker is never placed where the rest of `t`, read from the start of `s`, is comparable with it. */
  predicate NoBridge(s: string, old_: string, t: string) {
    forall n :: 0 <= n < |t| && Comparable(t[n..], MARK) && t[..n] + old_ <= s ==> MatchBefore(s, old_, n)
  }

  lemma NoBridgeUnlessRecreated(s: string, old_: string, t: string)
    requires !Recreates(t, old_)
    ensures NoBridge(s, old_, t)
  {
    forall n | 0 <= n < |t| && Comparable(t[n..], MARK) && t[..n] + old_ <= s ensures MatchBefore(s, old_, n) {
      var bridge := t[..n] + old_;
      var m :| 0 <= m < n && old_ <= bridge[m..];
      assert bridge[m..] <= s[m..];
      assert OccursAt(s, old_, m);
    }
  }

  lemma PrefixAfterFirst(c: char, a: string, s: string)
    requires s != "" && c == s[0] && a <= s[1..]
    ensures [c] + a <= s
  {
    assert s == [c] + s[1..];
  }

  lemma NoBridgeTail(s: string, old_: string, t: string)
    requires NoBridge(s, old_, t) && t != "" && s != "" && t[0] == s[0] && !(old_ <= s)
    ensures NoBridge(s[1..], old_, t[1..])
  {
    var t1, s1 := t[1..], s[1..];
    forall n | 0 <= n < |t1| && Comparable(t1[n..], MARK) && t1[..n] + old_ <= s1 ensures MatchBefore(s1, old_, n) {
      assert t1[n..] == t[n + 1..];
      PrefixAfterFirst(t[0], t1[..n] + old_, s);
      assert t[..n + 1] + old_ == [t[0]] + (t1[..n] + old_);
      var m :| 0 <= m < n + 1 && OccursAt(s, old_, m);
      assert s[0..] == s;
      assert s1[m - 1..] == s[m..];
      assert OccursAt(s1, old_, m - 1);
    }
  }

  /** If the redacted string begins with `t`, so does the original, with no match of `old_` beginning inside `t`. */
  lemma {:induction false} PrefixSurvives(s: string, old_: string, t: string)
    requires old_ != "" && t <= ReplaceAll(s, old_, MARK) && NoBridge(s, old_, t)
    ensures t <= s && forall m :: 0 <= m < |t| ==> !(old_ <= s[m..])
    decreases |t|
  {
    assert t[0..] == t && t[..0] + old_ == old_;
    if t != "" && |s| >= |old_| {
      if old_ <= s {
        PrefixOfConcat(t, MARK, ReplaceAll(s[|old_|..], old_, MARK));
        assert false;
      } else {
        assert ReplaceAll(s, old_, MARK)[1..] == ReplaceAll(s[1..], old_, MARK);
        NoBridgeTail(s, old_, t);
        PrefixSurvives(s[1..], old_, t[1..]);
        forall m | 0 <= m < |t| ensures !(old_ <= s[m..]) {
          assert m > 0 ==> s[m..] == s[1..][m - 1..];
          assert s[0..] == s;
        }
      }
    }
  }

  lemma NothingStartsInside(t: string, rest: string)
    requires !StartsInside(t)
    ensures forall i: nat :: 0 < i < |MARK| ==> !OccursAt(MARK + rest, t, i)
  {
    forall i: nat | 0 < i < |MARK| ensures !OccursAt(MARK + rest, t, i) {
      assert (MARK + rest)[i..] == MARK[i..] + rest;
      if t <= MARK[i..] + rest {
        PrefixOfConcat(t, MARK[i..], rest);
      }
    }
  }

  /** An occurrence in the redacted string is one of the original, with no match of `old_` beginning inside it. */
  lemma {:induction false} OccurrenceSurvives(s: string, old_: string, t: string, i: nat) returns (at: nat)
    requires old_ != "" && t != "" && !StartsInside(t) && !Recreates(t, old_)
    requires OccursAt(ReplaceAll(s, old_, MARK), t, i)
    ensures OccursAt(s, t, at) && forall p: nat :: at <= p < at + |t| ==> !OccursAt(s, old_, p)
    decreases |s|
  {
    var out := ReplaceAll(s, old_, MARK);
    if i == 0 {
      at := 0;
      assert out[0..] == out && s[0..] == s;
      NoBridgeUnlessRecreated(s, old_, t);
      PrefixSurvives(s, old_, t);
      assert forall p: nat :: p < |t| ==> OccursAt(s, old_, p) == (old_ <= s[p..]);
    } else if |s| < |old_| {
      at := i;
      assert forall p: nat :: p <= |s| ==> |s[p..]| < |old_|;
    } else if old_ <= s {
      var rest := ReplaceAll(s[|old_|..], old_, MARK);
      NothingStartsInside(t, rest);
      assert i >= |MARK|;
      DropOfConcat(MARK, rest, i);
      var inner := OccurrenceSurvives(s[|old_|..], old_, t, i - |MARK|);
      at := inner + |old_|;
      Shift(s, |old_|, t, old_, inner);
    } else {
      DropOfConcat([s[0]], ReplaceAll(s[1..], old_, MARK), i);
      var inner := OccurrenceSurvives(s[1..], old_, t, i - 1);
      at := inner + 1;
      Shift(s, 1, t, old_, inner);
    }
  }

  lemma DropOfConcat(a: string, b: string, i: nat)
    requires |a| <= i <= |a| + |b|
    ensures (a + b)[i..] == b[i - |a|..]
  {
  }

  lemma Shift(s: string, k: nat, t: string, old_: string, inner: nat)
    requires k <= |s| && OccursAt(s[k..], t, inner)
    requires forall p: nat :: inner <= p < inner + |t| ==> !OccursAt(s[k..], old_, p)
    ensures OccursAt(s, t, inner + k)
    ensures forall p: nat :: inner + k <= p < inner + k + |t| ==> !OccursAt(s, old_, p)
  {
    assert s[inner + k..] == s[k..][inner..];
    forall p: nat | inner + k <= p < inner + k + |t| ensures !OccursAt(s, old_, p) {
      assert !OccursAt(s[k..], old_, p - k);
      assert p <= |s| ==> s[p..] == s[k..][p - k..];
    }
  }

  /** One replacement removes its own secret and brings back none that was absent. */
  lemma ReplacementRemoves(s: string, old_: string, t: string)
    requires old_ != "" && t != "" && !StartsInside(t) && !Recreates(t, old_)
    ensures Contains(ReplaceAll(s, old_, MARK), t) ==> Contains(s, t) && t != old_
  {
    if Contains(ReplaceAll(s, old_, MARK), t) {
      var i: nat :| OccursAt(ReplaceAll(s, old_, MARK), t, i);
      var at := OccurrenceSurvives(s, old_, t, i);
      assert !OccursAt(s, old_, at);
    }
  }

  // ----- all the secrets, in order -----

  function Redact(detail: string, secrets: seq<string>): string {
    if secrets == [] then detail
    else
      var last := |secrets| - 1;
      var before := Redact(detail, secrets[..last]);
      if secrets[last] == "" then before else ReplaceAll(before, secrets[last], MARK)
  }

  /** The secret at `k` cannot reappear next to a marker that its own or a later replacement places. */
  predicate StaysOut(secrets: seq<string>, k: nat)
    requires k < |secrets|
  {
    && secrets[k] != "" && !StartsInside(secrets[k])
    && forall j :: k <= j < |secrets| && secrets[j] != "" ==> !Recreates(secrets[k], secrets[j])
  }

  /** After all replacements the secret is not left, whatever the text was and whatever was replaced before it. */
  lemma {:induction false} RedactRemoves(detail: string, secrets: seq<string>, k: nat)
    requires k < |secrets| && StaysOut(secrets, k)
    ensures !Contains(Redact(detail, secrets), secrets[k])
  {
    var last := |secrets| - 1;
    var before := Redact(detail, secrets[..last]);
    if k < last {
      assert forall j :: 0 <= j < last ==> secrets[..last][j] == secrets[j];
      RedactRemoves(detail, secrets[..last], k);
    }
    if secrets[last] != "" {
      ReplacementRemoves(before, secrets[last], secrets[k]);
    }
  }

  // ----- the error value -----

  /** The stages of a transaction that can fail. */
  const STAGES: set<string> := {"dial", "starttls", "auth", "mail", "rcpt", "data", "quit"}

  datatype ContextError = Canceled | DeadlineExceeded {
    function Message(): string {
      if Canceled? then "context canceled" else "context deadline exceeded"
    }
  }

  /** A reply code as net/textproto reads it: three digits, at least 100. */
  type ReplyCode = code: nat | 100 <= code < 1000 witness 100

  function ReplyText(code: nat): string { "server replied " + Print(code) }

  /** What `fail` can observe of an error: its text, whether it is a network timeout, and a wrapped server reply. */
  datatype Failure = Failure(text: string, timeout: bool, reply: Option<ReplyCode>)

  datatype Cause = FromContext(error: ContextError) | Original(failure: Failure) {
    function Message(): string {
      match this
      case FromContext(e) => e.Message()
      case Original(f) => f.text
    }
  }

  datatype SendError = SendError(stage: string, detail: string, cause: Option<Cause>) {
    function Message(): string { Header(stage) + detail }
  }

  function Header(stage: string): string { "smtp: " + stage + ": " }

  /** The context's own error, its deadline when that is the effective one, and the clock. */
  datatype Situation = Situation(contextError: Option<ContextError>, contextDeadline: Option<int>, now: int)

  predicate CarriesSecret(text: string, secrets: seq<string>) {
    exists t :: t in secrets && t != "" && ContainsFrom(text, t)
  }

  function Failed(stage: string, at: Situation, f: Failure, secrets: seq<string>): SendError {
    if at.contextError.Some? then
      SendError(stage, at.contextError.value.Message(), Some(FromContext(at.contextError.value)))
    else if f.timeout && at.contextDeadline.Some? && at.contextDeadline.value <= at.now then
      SendError(stage, DeadlineExceeded.Message(), Some(FromContext(DeadlineExceeded)))
    else if f.reply.Some? then
      SendError(stage, ReplyText(f.reply.value), None)
    else
      SendError(stage, Redact(f.text, secrets), if CarriesSecret(f.text, secrets) then None else Some(Original(f)))
  }

  method Fail(stage: string, at: Situation, f: Failure, secrets: seq<string>) returns (e: SendError)
    ensures e == Failed(stage, at, f, secrets)
  {
    if at.contextError.Some? {
      return SendError(stage, at.contextError.value.Message(), Some(FromContext(at.contextError.value)));
    }
    if f.timeout && at.contextDeadline.Some? && at.now >= at.contextDeadline.value {
      return SendError(stage, DeadlineExceeded.Message(), Some(FromContext(DeadlineExceeded)));
    }
    if f.reply.Some? {
      return SendError(stage, ReplyText(f.reply.value), None);
    }
    var detail := f.text;
    for i := 0 to |secrets|
      invariant detail == Redact(f.text, secrets[..i])
    {
      assert secrets[..i + 1][..i] == secrets[..i];
      if secrets[i] != "" {
        detail := ReplaceAll(detail, secrets[i], MARK);
      }
    }
    assert secrets[..|secrets|] == secrets;
    var cause := Some(Original(f));
    for i := 0 to |secrets|
      invariant cause == Some(Original(f))
      invariant forall k :: 0 <= k < i && secrets[k] != "" ==> !ContainsFrom(f.text, secrets[k])
    {
      if secrets[i] != "" && ContainsFrom(f.text, secrets[i]) {
        cause := None;
        break;
      }
    }
    return SendError(stage, detail, cause);
  }

  /** The text before the detail holds `t` or ends in a beginning of it. */
  predicate HeaderTouches(stage: string, t: string) {
    exists j :: 0 <= j < |Header(stage)| && Comparable(Header(stage)[j..], t)
  }

  lemma HeaderIsSafe(stage: string, detail: string, t: string)
    requires t != "" && !HeaderTouches(stage, t) && !Contains(detail, t)
    ensures !Contains(Header(stage) + detail, t)
  {
    var header := Header(stage);
    forall i: nat ensures !OccursAt(header + detail, t, i) {
      if i < |header| {
        assert (header + detail)[i..] == header[i..] + detail;
        if t <= header[i..] + detail {
          PrefixOfConcat(t, header[i..], detail);
        }
      } else if i <= |header| + |detail| {
        assert (header + detail)[i..] == detail[i - |header|..];
        assert !OccursAt(detail, t, i - |header|);
      }
    }
  }

  lemma ContainsKeepsChars(s: string, t: string, c: char)
    requires Contains(s, t) && c in t
    ensures c in s
  {
    var i: nat :| OccursAt(s, t, i);
    var k :| 0 <= k < |t| && t[k] == c;
    assert s[i..][k] == s[i + k];
  }

  lemma MailboxAvoidsHeader(stage: string, t: string)
    requires MailboxLike(t) && stage in STAGES
    ensures !HeaderTouches(stage, t)
  {
    var header := Header(stage);
    assert header[|header| - 1] == ' ' && header[|header| - 2] == ':' && '@' !in header;
    forall j | 0 <= j < |header| ensures !Comparable(header[j..], t) {
      var tail := header[j..];
      var last := |tail| - 1;
      assert tail[last] == ' ' && (last > 0 ==> tail[last - 1] == ':') && forall c :: c in tail ==> c in header;
      assert 0 < last < |t| ==> !(t[last - 1] == ':' && t[last] == ' ');
      var k :| 0 <= k < |t| && t[k] == '@';
      assert k < |tail| ==> tail[k] in tail;
    }
  }

  /** One of the texts that `fail` takes from no error holds `t`. */
  predicate InFixedText(t: string) {
    || ContainsFrom(Canceled.Message(), t)
    || ContainsFrom(DeadlineExceeded.Message(), t)
    || exists code :: 100 <= code < 1000 && ContainsFrom(ReplyText(code), t)
  }

  /** The caller can read `t` off the error: in its text or in the text of the cause it exposes. */
  ghost predicate Escapes(e: SendError, t: string) {
    Contains(e.Message(), t) || (e.cause.Some? && Contains(e.cause.value.Message(), t))
  }

  /**
   What a caller can check of a list of secrets: the one at `k` touches no marker, no stage prefix and no fixed text.
   */
  predicate Hidden(stage: string, secrets: seq<string>, k: nat)
    requires k < |secrets|
  {
    StaysOut(secrets, k) && !HeaderTouches(stage, secrets[k]) && !InFixedText(secrets[k])
  }

  lemma DetailIsClean(stage: string, at: Situation, f: Failure, secrets: seq<string>, k: nat)
    requires k < |secrets| && StaysOut(secrets, k) && !InFixedText(secrets[k])
    ensures !Contains(Failed(stage, at, f, secrets).detail, secrets[k])
  {
    RedactRemoves(f.text, secrets, k);
    if f.reply.Some? {
      assert !ContainsFrom(ReplyText(f.reply.value), secrets[k]);
    }
  }

  /** In every branch, for every list of secrets: a hidden secret is neither in the error's text nor in its cause's. */
  lemma HiddenSecretNeverEscapes(stage: string, at: Situation, f: Failure, secrets: seq<string>, k: nat)
    requires k < |secrets| && Hidden(stage, secrets, k)
    ensures !Escapes(Failed(stage, at, f, secrets), secrets[k])
  {
    var e, t := Failed(stage, at, f, secrets), secrets[k];
    DetailIsClean(stage, at, f, secrets, k);
    HeaderIsSafe(stage, e.detail, t);
    if e.cause.Some? && e.cause.value.FromContext? {
      assert e.cause.value.Message() == e.detail;
    } else if e.cause.Some? {
      assert !CarriesSecret(f.text, secrets) && t in secrets;
    }
  }

  lemma MailboxAvoidsFixedTexts(t: string)
    requires MailboxLike(t)
    ensures !InFixedText(t)
  {
    assert '@' !in Canceled.Message() && '@' !in DeadlineExceeded.Message();
    forall s | Contains(s, t) ensures '@' in s {
      ContainsKeepsChars(s, t, '@');
    }
    forall code: nat | 100 <= code < 1000 ensures !ContainsFrom(ReplyText(code), t) {
      assert !IsDigit('@') && '@' !in "server replied ";
      assert '@' !in ReplyText(code);
    }
  }

  predicate AllHidden(stage: string, secrets: seq<string>) {
    forall k :: 0 <= k < |secrets| && secrets[k] != "" ==> Hidden(stage, secrets, k)
  }

  lemma MailboxesAreHidden(stage: string, secrets: seq<string>)
    requires stage in STAGES && forall s :: s in secrets && s != "" ==> MailboxLike(s)
    ensures AllHidden(stage, secrets)
  {
    forall k | 0 <= k < |secrets| && secrets[k] != "" ensures Hidden(stage, secrets, k) {
      var t := secrets[k];
      forall j | k <= j < |secrets| && secrets[j] != "" ensures !StartsInside(t) && !Recreates(t, secrets[j]) {
        MailboxIsClean(t, secrets[j]);
      }
      MailboxAvoidsHeader(stage, t);
      MailboxAvoidsFixedTexts(t);
    }
  }

  /** Mailboxes of the usual shape never escape as they were given. */
  lemma NoSecretEscapes(stage: string, at: Situation, f: Failure, secrets: seq<string>, t: string)
    requires stage in STAGES && t in secrets && t != ""
    requires forall s :: s in secrets && s != "" ==> MailboxLike(s)
    ensures !Escapes(Failed(stage, at, f, secrets), t)
  {
    MailboxesAreHidden(stage, secrets);
    var k :| 0 <= k < |secrets| && secrets[k] == t;
    HiddenSecretNeverEscapes(stage, at, f, secrets, k);
  }

  // ----- exactly when a lone secret stays out of a redacted text -----

  lemma ReplaceAtFront(t: string, rest: string)
    requires t != "" && |rest| < |t|
    ensures ReplaceAll(t + rest, t, MARK) == MARK + rest
  {
    assert (t + rest)[|t|..] == rest && t <= t + rest;
  }

  /** The first match lies after `v`, so the marker lands there. */
  lemma {:induction false} ReplaceAfter(v: string, t: string, rest: string)
    requires t != "" && |rest| < |t| && forall m :: 0 <= m < |v| ==> !(t <= (v + t)[m..])
    ensures ReplaceAll(v + t + rest, t, MARK) == v + MARK + rest
    decreases |v|
  {
    var s := v + t + rest;
    if v == "" {
      assert s == t + rest;
      ReplaceAtFront(t, rest);
    } else {
      var v1 := v[1..];
      assert (v + t)[0..] == v + t;
      assert !(t <= s) by {
        assert s[..|t|] == (v + t)[..|t|];
      }
      forall m | 0 <= m < |v1| ensures !(t <= (v1 + t)[m..]) {
        assert (v1 + t)[m..] == (v + t)[m + 1..];
      }
      assert s[1..] == v1 + t + rest;
      ReplaceAfter(v1, t, rest);
      assert [v[0]] + (v1 + MARK + rest) == v + MARK + rest;
    }
  }

  /** A text whose redacted form, behind the header, holds the secret. */
  ghost predicate Leaks(stage: string, t: string, raw: string)
    requires t != ""
  {
    Contains(Header(stage) + ReplaceAll(raw, t, MARK), t)
  }

  /** What is missing of `t` after `tail`. */
  lemma Completion(tail: string, t: string) returns (rest: string)
    requires tail != "" && t != "" && Comparable(tail, t)
    ensures t <= tail + rest && |rest| < |t|
  {
    rest := if t <= tail then "" else t[|tail|..];
    assert t <= tail || t == tail + rest;
  }

  lemma LeakBehindHeader(stage: string, t: string) returns (raw: string)
    requires t != "" && HeaderTouches(stage, t)
    ensures Leaks(stage, t, raw)
  {
    var j :| 0 <= j < |Header(stage)| && Comparable(Header(stage)[j..], t);
    raw := CompletedAt(Header(stage), t, j);
    assert ReplaceAll(raw, t, MARK) == raw;
  }

  lemma DetailShows(stage: string, detail: string, t: string, i: nat)
    requires OccursAt(detail, t, i)
    ensures Contains(Header(stage) + detail, t)
  {
    var header := Header(stage);
    assert (header + detail)[|header| + i..] == detail[i..];
    assert OccursAt(header + detail, t, |header| + i);
  }

  lemma BehindHeader(stage: string, t: string, raw: string, out: string, i: nat)
    requires t != "" && ReplaceAll(raw, t, MARK) == out && OccursAt(out, t, i)
    ensures Leaks(stage, t, raw)
  {
    DetailShows(stage, out, t, i);
  }

  /** A string comparable with what follows position `j` of `base` can be completed there. */
  lemma CompletedAt(base: string, t: string, j: nat) returns (rest: string)
    requires t != "" && j < |base| && Comparable(base[j..], t)
    ensures |rest| < |t| && OccursAt(base + rest, t, j)
  {
    rest := Completion(base[j..], t);
    SuffixOfConcat(base, rest, j);
  }

  lemma SuffixOfConcat(a: string, b: string, j: nat)
    requires j <= |a|
    ensures (a + b)[j..] == a[j..] + b
  {
  }

  lemma LeakInsideMarker(stage: string, t: string) returns (raw: string)
    requires t != "" && StartsInside(t)
    ensures Leaks(stage, t, raw)
  {
    var i :| 0 < i < |MARK| && Comparable(MARK[i..], t);
    var rest := CompletedAt(MARK, t, i);
    raw := t + rest;
    ReplaceAtFront(t, rest);
    BehindHeader(stage, t, raw, MARK + rest, i);
  }

  lemma PrefixAfter(v: string, a: string, b: string)
    requires a <= b
    ensures v + a <= v + b
  {
    assert v + b == v + a + b[|a|..];
  }

  lemma CompletedBefore(t: string, n: nat) returns (rest: string)
    requires n < |t| && Comparable(t[n..], MARK)
    ensures |rest| < |t| && OccursAt(t[..n] + MARK + rest, t, 0)
  {
    rest := Completion(MARK, t[n..]);
    var out := t[..n] + MARK + rest;
    PrefixAfter(t[..n], t[n..], MARK + rest);
    assert t == t[..n] + t[n..] && out == t[..n] + (MARK + rest) && out[0..] == out;
  }

  lemma LeakBeforeMarker(stage: string, t: string) returns (raw: string)
    requires t != "" && Recreates(t, t)
    ensures Leaks(stage, t, raw)
  {
    var n :| 0 <= n < |t| && Comparable(t[n..], MARK) && forall m :: 0 <= m < n ==> !(t <= (t[..n] + t)[m..]);
    var rest := CompletedBefore(t, n);
    raw := t[..n] + t + rest;
    ReplaceAfter(t[..n], t, rest);
    BehindHeader(stage, t, raw, t[..n] + MARK + rest, 0);
  }

  lemma NetworkError(stage: string, raw: string, t: string)
    requires t != ""
    ensures Failed(stage, QUIET, Failure(raw, false, None), [t]).detail == ReplaceAll(raw, t, MARK)
  {
    assert [t][..0] == [];
    assert Redact(raw, []) == raw;
  }

  lemma FixedTextEscapes(stage: string, t: string) returns (at: Situation, f: Failure)
    requires InFixedText(t)
    ensures Escapes(Failed(stage, at, f, [t]), t)
  {
    at, f := QUIET, Failure("", false, None);
    if ContainsFrom(Canceled.Message(), t) {
      at := at.(contextError := Some(Canceled));
    } else if ContainsFrom(DeadlineExceeded.Message(), t) {
      at := at.(contextError := Some(DeadlineExceeded));
    } else {
      var code :| 100 <= code < 1000 && ContainsFrom(ReplyText(code), t);
      f := f.(reply := Some(code));
      var i: nat :| OccursAt(ReplyText(code), t, i);
      DetailShows(stage, ReplyText(code), t, i);
    }
  }

  /** No context error, no context deadline. */
  const QUIET := Situation(None, None, 0)

  /**
   A condition on the secret alone decides whether `fail` can let it escape, over all branches, situations and
   errors, through the text or through the cause.
   */
  lemma LoneSecretEscapesIff(stage: string, t: string)
    requires t != ""
    ensures (exists at, f :: Escapes(Failed(stage, at, f, [t]), t))
            <==> HeaderTouches(stage, t) || StartsInside(t) || Recreates(t, t) || InFixedText(t)
  {
    if InFixedText(t) {
      var at, f := FixedTextEscapes(stage, t);
    } else if HeaderTouches(stage, t) || StartsInside(t) || Recreates(t, t) {
      var raw := RawLeaks(stage, t);
      NetworkError(stage, raw, t);
      assert Escapes(Failed(stage, QUIET, Failure(raw, false, None), [t]), t);
    } else {
      forall at, f ensures !Escapes(Failed(stage, at, f, [t]), t) {
        HiddenSecretNeverEscapes(stage, at, f, [t], 0);
      }
    }
  }

  lemma RawLeaks(stage: string, t: string) returns (raw: string)
    requires t != "" && (HeaderTouches(stage, t) || StartsInside(t) || Recreates(t, t))
    ensures Leaks(stage, t, raw)
  {
    if HeaderTouches(stage, t) {
      raw := LeakBehindHeader(stage, t);
    } else if StartsInside(t) {
      raw := LeakInsideMarker(stage, t);
    } else {
      raw := LeakBeforeMarker(stage, t);
    }
  }

  // ----- texts that pass unchanged -----

  lemma {:induction false} ReplaceOfAbsent(s: string, t: string)
    requires t != "" && !Contains(s, t)
    ensures ReplaceAll(s, t, MARK) == s
  {
    if |s| >= |t| {
      assert s[0..] == s;
      assert !OccursAt(s, t, 0);
      forall i: nat ensures !OccursAt(s[1..], t, i) {
        assert !OccursAt(s, t, i + 1);
        assert i < |s| ==> s[1..][i..] == s[i + 1..];
      }
      ReplaceOfAbsent(s[1..], t);
    }
  }

  lemma {:induction false} RedactOfAbsent(raw: string, secrets: seq<string>)
    requires !CarriesSecret(raw, secrets)
    ensures Redact(raw, secrets) == raw
  {
    if secrets != [] {
      var last := |secrets| - 1;
      assert secrets[last] in secrets && forall t :: t in secrets[..last] ==> t in secrets;
      RedactOfAbsent(raw, secrets[..last]);
      if secrets[last] != "" {
        assert !ContainsFrom(raw, secrets[last]);
        ReplaceOfAbsent(raw, secrets[last]);
      }
    }
  }

  /** An error text that holds no secret as a whole comes out verbatim, cause included. */
  lemma TextWithoutSecretsIsVerbatim(stage: string, raw: string, secrets: seq<string>)
    requires !CarriesSecret(raw, secrets)
    ensures var f := Failure(raw, false, None);
            Failed(stage, QUIET, f, secrets) == SendError(stage, raw, Some(Original(f)))
  {
    RedactOfAbsent(raw, secrets);
  }

  lemma ContainsIsTransitive(a: string, b: string, c: string)
    requires Contains(a, b) && Contains(b, c)
    ensures Contains(a, c)
  {
    var i: nat :| OccursAt(a, b, i);
    var j: nat :| OccursAt(b, c, j);
    assert a[i + j..] == a[i..][j..] && b[j..] <= a[i..][j..];
    assert OccursAt(a, c, i + j);
  }

  /** An error text without a secret shows everything in it, for every list of secrets. */
  lemma UncoveredTextEscapes(stage: string, raw: string, secrets: seq<string>, t: string)
    requires !CarriesSecret(raw, secrets) && Contains(raw, t)
    ensures Escapes(Failed(stage, QUIET, Failure(raw, false, None), secrets), t)
  {
    TextWithoutSecretsIsVerbatim(stage, raw, secrets);
  }

  /** A text that holds a hidden secret never escapes. */
  lemma CoveredTextStaysIn(stage: string, at: Situation, f: Failure, secrets: seq<string>, k: nat, t: string)
    requires k < |secrets| && Hidden(stage, secrets, k) && Contains(t, secrets[k])
    ensures !Escapes(Failed(stage, at, f, secrets), t)
  {
    var e := Failed(stage, at, f, secrets);
    HiddenSecretNeverEscapes(stage, at, f, secrets, k);
    if Contains(e.Message(), t) {
      ContainsIsTransitive(e.Message(), t, secrets[k]);
    }
    if e.cause.Some? && Contains(e.cause.value.Message(), t) {
      ContainsIsTransitive(e.cause.value.Message(), t, secrets[k]);
    }
  }

  /**
   Which texts can escape past a list of hidden secrets, over all branches, situations and errors: exactly those that
   hold no secret as a whole.  An address stays in iff one of the strings given to the sender occurs in it.
   */
  lemma TextEscapesIff(stage: string, secrets: seq<string>, t: string)
    requires AllHidden(stage, secrets)
    ensures (exists at, f :: Escapes(Failed(stage, at, f, secrets), t)) <==> !CarriesSecret(t, secrets)
  {
    if CarriesSecret(t, secrets) {
      var s :| s in secrets && s != "" && ContainsFrom(t, s);
      var k :| 0 <= k < |secrets| && secrets[k] == s;
      forall at, f ensures !Escapes(Failed(stage, at, f, secrets), t) {
        CoveredTextStaysIn(stage, at, f, secrets, k, t);
      }
    } else {
      assert t[0..] == t && OccursAt(t, t, 0);
      UncoveredTextEscapes(stage, t, secrets, t);
    }
  }

  lemma ForeignCharacter(raw: string, t: string, c: char)
    requires c in t && c !in raw
    ensures !Contains(raw, t)
  {
    if Contains(raw, t) {
      ContainsKeepsChars(raw, t, c);
    }
  }

  /** Nowhere in `raw` do the first two characters of `t` follow each other. */
  lemma ForeignPair(raw: string, t: string)
    requires |t| >= 2 && forall i :: 0 <= i < |raw| - 1 && raw[i] == t[0] ==> raw[i + 1] != t[1]
    ensures !Contains(raw, t)
  {
    forall i: nat ensures !OccursAt(raw, t, i) {
      if i + 1 < |raw| {
        assert raw[i..][0] == raw[i] && raw[i..][1] == raw[i + 1];
      }
    }
  }

  /** A character of each secret that is foreign to the text settles that no secret covers the address. */
  lemma ForeignToAll(raw: string, secrets: seq<string>, marks: string)
    requires |marks| == |secrets|
    requires forall k :: 0 <= k < |secrets| ==> marks[k] in secrets[k] && marks[k] !in raw
    ensures !CarriesSecret(raw, secrets)
  {
    forall t | t in secrets ensures !Contains(raw, t) {
      var k :| 0 <= k < |secrets| && secrets[k] == t;
      ForeignCharacter(raw, t, marks[k]);
    }
  }

  /** A malformed reply line as net/textproto reports it, which is no reply error. */
  function ShortResponse(line: string): Failure { Failure("short response: " + line, false, None) }

  lemma ShortResponseShows(stage: string, line: string, secrets: seq<string>, address: string, at: nat)
    requires !CarriesSecret(ShortResponse(line).text, secrets) && OccursAt(line, address, at)
    ensures Escapes(Failed(stage, QUIET, ShortResponse(line), secrets), address)
  {
    var prefix := "short response: ";
    assert (prefix + line)[|prefix| + at..] == line[at..];
    assert OccursAt(prefix + line, address, |prefix| + at);
    UncoveredTextEscapes(stage, prefix + line, secrets, address);
  }

  /** Only the whole Reply-To is replaced: one with a display name is hidden, but its bare address stays. */
  lemma DisplayNameReplyToLeaks(secrets: seq<string>)
    requires secrets == ["t@c", "Bob <bob@x>", "f@c"]
    ensures AllHidden("rcpt", secrets)
    ensures Escapes(Failed("rcpt", QUIET, ShortResponse("bob@x"), secrets), "bob@x")
  {
    DisplayNameIsMailbox(secrets);
    MailboxesAreHidden("rcpt", secrets);
    DisplayNameIsForeign(secrets);
    assert "bob@x"[0..] == "bob@x";
    ShortResponseShows("rcpt", "bob@x", secrets, "bob@x", 0);
  }

  lemma DisplayNameIsMailbox(secrets: seq<string>)
    requires secrets == ["t@c", "Bob <bob@x>", "f@c"]
    ensures forall s :: s in secrets ==> MailboxLike(s)
  {
    assert secrets[0][1] == '@' && secrets[1][8] == '@' && secrets[2][1] == '@';
  }

  lemma DisplayNameIsForeign(secrets: seq<string>)
    requires secrets == ["t@c", "Bob <bob@x>", "f@c"]
    ensures !CarriesSecret(ShortResponse("bob@x").text, secrets)
  {
    assert secrets[0][2] == 'c' && secrets[1][0] == 'B' && secrets[2][2] == 'c';
    ForeignToAll(ShortResponse("bob@x").text, secrets, "cBc");
  }

  /** A Reply-To that begins with a space, as the address parser allows: the address after another character stays. */
  lemma PaddedReplyToLeaks(secrets: seq<string>)
    requires secrets == ["t@c", " a@b", "f@c"]
    ensures Escapes(Failed("rcpt", QUIET, ShortResponse("<a@b>"), secrets), "a@b")
  {
    PaddedIsForeign(secrets);
    assert "<a@b>"[1..] == "a@b>";
    ShortResponseShows("rcpt", "<a@b>", secrets, "a@b", 1);
  }

  lemma PaddedIsForeign(secrets: seq<string>)
    requires secrets == ["t@c", " a@b", "f@c"]
    ensures !CarriesSecret(ShortResponse("<a@b>").text, secrets)
  {
    var raw := ShortResponse("<a@b>").text;
    assert secrets[0][2] == 'c' && secrets[2][2] == 'c';
    ForeignCharacter(raw, secrets[0], 'c');
    ForeignPair(raw, secrets[1]);
    ForeignCharacter(raw, secrets[2], 'c');
  }

  // ----- the branches -----

  /**
   Which error comes out, branch by branch: the context's, an elapsed deadline's, a bare code, or the redacted text.
   */
  lemma BranchesDecide(stage: string, at: Situation, f: Failure, secrets: seq<string>)
    ensures var e := Failed(stage, at, f, secrets);
            var elapsed := f.timeout && at.contextDeadline.Some? && at.contextDeadline.value <= at.now;
            && e.Message() == "smtp: " + stage + ": " + e.detail
            && (at.contextError == Some(Canceled) ==>
                  e.detail == "context canceled" && e.cause == Some(FromContext(Canceled)))
            && (at.contextError == Some(DeadlineExceeded) || (at.contextError.None? && elapsed) ==>
                  e.detail == "context deadline exceeded" && e.cause == Some(FromContext(DeadlineExceeded)))
            && (at.contextError.None? && !elapsed && f.reply.Some? ==>
                  e.detail == "server replied " + Print(f.reply.value) && e.cause.None?)
            && (at.contextError.None? && !elapsed && f.reply.None? ==>
                  && e.detail == Redact(f.text, secrets)
                  && (e.cause == Some(Original(f)) || e.cause.None?)
                  && (e.cause.None? <==> exists t :: t in secrets && t != "" && Contains(f.text, t)))
  {
    forall t | t in secrets && t != "" ensures ContainsFrom(f.text, t) == Contains(f.text, t) {
    }
  }

  // ----- line endings of the body -----

  function NormalizeLineEndings(s: string): string {
    ReplaceAll(ReplaceAll(s, "\r\n", "\n"), "\r", "\n")
  }

  /** One pass: CRLF is one line ending, and so is a bare CR. */
  function LinesEndedByLf(s: string): string {
    if s == "" then ""
    else if s[0] != '\r' then [s[0]] + LinesEndedByLf(s[1..])
    else if |s| > 1 && s[1] == '\n' then "\n" + LinesEndedByLf(s[2..])
    else "\n" + LinesEndedByLf(s[1..])
  }

  lemma {:induction false} NormalizationIsOnePass(s: string)
    ensures NormalizeLineEndings(s) == LinesEndedByLf(s) && '\r' !in NormalizeLineEndings(s)
    decreases |s|
  {
    var crlf, lf, cr := "\r\n", "\n", "\r";
    var once := ReplaceAll(s, crlf, lf);
    if s != "" {
      NormalizationIsOnePass(s[1..]);
      assert |s| > 1 && s[0] == '\r' && s[1] == '\n' ==> s[..2] == crlf;
      if crlf <= s {
        NormalizationIsOnePass(s[2..]);
        assert once == lf + ReplaceAll(s[2..], crlf, lf);
        assert once[1..] == ReplaceAll(s[2..], crlf, lf);
      } else {
        assert |s| == 1 ==> ReplaceAll(s[1..], crlf, lf) == "" && s == [s[0]];
        assert once == [s[0]] + ReplaceAll(s[1..], crlf, lf);
        assert once[1..] == ReplaceAll(s[1..], crlf, lf);
      }
    }
  }
}
