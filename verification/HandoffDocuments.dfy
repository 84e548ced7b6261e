/**
 * The text under which Redis keeps a handoff record: canonicalJson when it is written,
 * parseStoredHumanHandoff when it is read back (src/handoff.ts, src/redis.ts).
 * A timestamp is written by some injective text; decimal milliseconds stand for it here.
 */
module HandoffDocuments {
  import opened Basics
  import opened HandoffRecords
  import D = Decimal
  import opened CanonicalJson
  import opened CanonicalJsonLaws
  import opened CanonicalJsonText
  import opened JsonObjects

  // ---------------------------------------------------------------- writing

  function NatOf(t: string): Option<nat> {
    if D.Digits(t) && t == D.Text(D.NumberOf(t)) then Some(D.NumberOf(t)) else None
  }

  lemma NatOfText(n: nat)
    ensures NatOf(D.Text(n)) == Some(n)
  {
    D.NumberOfText(n);
  }

  function StatusText(s: Status): string {
    match s
    case Pending => "pending" case Polling => "polling" case Completed => "completed"
    case Failed => "failed" case Expired => "expired" case Cancelled => "cancelled"
  }

  function StatusOf(t: string): Option<Status> {
    if t == "pending" then Some(Pending) else if t == "polling" then Some(Polling)
    else if t == "completed" then Some(Completed) else if t == "failed" then Some(Failed)
    else if t == "expired" then Some(Expired) else if t == "cancelled" then Some(Cancelled) else None
  }

  function OptionalText(o: Option<string>): Value { if o.None? then Undefined else Str(o.value) }

  const PRESENTATION_KEYS := ["kind", "uri", "userCode"]

  function PresentationValue(p: Presentation): Value {
    Obj(FieldsOf(PRESENTATION_KEYS, [Str("uri"), Str(p.uri), OptionalText(p.userCode)]))
  }

  const KEYS := ["handoffId", "dependencyId", "providerId", "methodId", "accessTokenDigest", "status",
                 "pollClaimExpiresAt", "presentation", "protectedState", "protectedCompletion", "failureCode",
                 "pollAfterMs", "expiresAt", "version"]

  function Fields(r: Handoff): (vals: seq<Value>)
    ensures |vals| == |KEYS|
  {
    [Str(r.handoffId), Str(r.dependencyId), Str(r.providerId), Str(r.methodId), Str(r.accessTokenDigest),
     Str(StatusText(r.status)),
     if r.pollClaimExpiresAt.None? then Undefined else Str(D.Text(r.pollClaimExpiresAt.value)),
     PresentationValue(r.presentation), Str(r.protectedState),
     OptionalText(r.protectedCompletion), OptionalText(r.failureCode),
     Num(D.Text(r.pollAfterMs)), Str(D.Text(r.expiresAt)), Num(D.Text(r.version))]
  }

  function RecordValue(r: Handoff): Value { Obj(FieldsOf(KEYS, Fields(r))) }

  // ---------------------------------------------------------------- reading

  function TextField(m: map<string, Tree>, k: string): Option<string> {
    if k in m && m[k].TStr? then Some(m[k].s) else None
  }

  function NatField(m: map<string, Tree>, k: string): Option<nat> {
    if k in m && m[k].TNum? then NatOf(m[k].text) else None
  }

  function TimeField(m: map<string, Tree>, k: string): Option<nat> {
    var t := TextField(m, k);
    if t.None? then None else NatOf(t.value)
  }

  predicate Absent(m: map<string, Tree>, k: string) { k !in m }

  /** parseStoredHumanHandoff on the parsed document; None where the source throws. */
  function RecordOf(t: Tree): Option<Handoff> {
    if !t.TObj? then None
    else
      var m := t.members;
      var id, dep, prov := TextField(m, "handoffId"), TextField(m, "dependencyId"), TextField(m, "providerId");
      var meth, digest, state := TextField(m, "methodId"), TextField(m, "accessTokenDigest"), TextField(m, "protectedState");
      var status := TextField(m, "status");
      var poll, version := NatField(m, "pollAfterMs"), NatField(m, "version");
      var expires, lease := TimeField(m, "expiresAt"), TimeField(m, "pollClaimExpiresAt");
      var completion, failure := TextField(m, "protectedCompletion"), TextField(m, "failureCode");
      var shown := if "presentation" in m && m["presentation"].TObj? then m["presentation"].members else map[];
      if id.None? || dep.None? || prov.None? || meth.None? || digest.None? || state.None?
         || status.None? || StatusOf(status.value).None?
         || TextField(shown, "kind") != Some("uri") || TextField(shown, "uri").None?
         || poll.None? || poll.value < 500 || poll.value > 10_000
         || version.None? || version.value < 1
         || expires.None? || (lease.None? && !Absent(m, "pollClaimExpiresAt"))
         || (completion.None? && !Absent(m, "protectedCompletion")) || (failure.None? && !Absent(m, "failureCode"))
         || (TextField(shown, "userCode").None? && !Absent(shown, "userCode"))
      then None
      else Some(Handoff(id.value, dep.value, prov.value, meth.value, digest.value, StatusOf(status.value).value, lease,
                        Presentation(TextField(shown, "uri").value, TextField(shown, "userCode")),
                        state.value, completion, failure, poll.value, expires.value, version.value))
  }

  // Number.MAX_SAFE_INTEGER: up to here ECMAScript reads and prints integers exactly.
  const MAX_SAFE_INTEGER: nat := 9_007_199_254_740_991

  predicate Storable(r: Handoff) { 500 <= r.pollAfterMs <= 10_000 && 1 <= r.version <= MAX_SAFE_INTEGER }

  // A number reader that reads safe natural numbers as themselves.
  ghost predicate ReadsNaturals(num: Reader) {
    Lawful(num) && forall n: nat :: n <= MAX_SAFE_INTEGER ==> num(D.Text(n)) == Some(D.Text(n))
  }

  // Such readers exist: one that reads safe natural numbers and nothing else.
  function SafeReader(t: string): Option<string> {
    if t != "" && NatOf(t).Some? && NatOf(t).value <= MAX_SAFE_INTEGER then Some(t) else None
  }

  lemma SafeReaderReads()
    ensures ReadsNaturals(SafeReader)
  {
    forall n: nat | n <= MAX_SAFE_INTEGER ensures SafeReader(D.Text(n)) == Some(D.Text(n)) { NatOfText(n); }
  }

  lemma KeysDistinct()
    ensures NoRepeats(KEYS) && PROTO !in KEYS && NoRepeats(PRESENTATION_KEYS) && PROTO !in PRESENTATION_KEYS
  {
  }

  lemma PresentationRead(num: Reader, p: Presentation)
    ensures WellFormed(num, PresentationValue(p)) && Plain(PresentationValue(p))
    ensures var m := TreeOf(PresentationValue(p)).members;
            && TextField(m, "kind") == Some("uri") && TextField(m, "uri") == Some(p.uri)
            && TextField(m, "userCode") == p.userCode && (p.userCode.None? ==> Absent(m, "userCode"))
  {
    KeysDistinct();
    var vals := [Str("uri"), Str(p.uri), OptionalText(p.userCode)];
    FieldsFacts(num, PRESENTATION_KEYS, vals);
    var m := TreeMembers(FieldsOf(PRESENTATION_KEYS, vals));
    assert Says(m, PRESENTATION_KEYS[0], vals[0]) && Says(m, PRESENTATION_KEYS[1], vals[1]) && Says(m, PRESENTATION_KEYS[2], vals[2]);
  }

  lemma RecordFacts(num: Reader, r: Handoff)
    requires ReadsNaturals(num) && Storable(r)
    ensures WellFormed(num, RecordValue(r)) && Plain(RecordValue(r))
    ensures var m := TreeOf(RecordValue(r)).members;
            forall i :: 0 <= i < |KEYS| ==> Says(m, KEYS[i], Fields(r)[i])
  {
    KeysDistinct();
    PresentationRead(num, r.presentation);
    var vals := Fields(r);
    forall i | 0 <= i < |vals| ensures WellFormed(num, vals[i]) && (vals[i].Undefined? || Plain(vals[i])) {}
    FieldsFacts(num, KEYS, vals);
  }

  lemma RecordTexts(m: map<string, Tree>, r: Handoff)
    requires forall i :: 0 <= i < |KEYS| ==> Says(m, KEYS[i], Fields(r)[i])
    ensures TextField(m, "handoffId") == Some(r.handoffId) && TextField(m, "dependencyId") == Some(r.dependencyId)
    ensures TextField(m, "providerId") == Some(r.providerId) && TextField(m, "methodId") == Some(r.methodId)
    ensures TextField(m, "accessTokenDigest") == Some(r.accessTokenDigest)
    ensures TextField(m, "status") == Some(StatusText(r.status)) && TextField(m, "protectedState") == Some(r.protectedState)
    ensures "presentation" in m && m["presentation"] == TreeOf(PresentationValue(r.presentation))
  {
    var f := Fields(r);
    assert Says(m, KEYS[0], f[0]) && Says(m, KEYS[1], f[1]) && Says(m, KEYS[2], f[2]) && Says(m, KEYS[3], f[3]);
    assert Says(m, KEYS[4], f[4]) && Says(m, KEYS[5], f[5]) && Says(m, KEYS[7], f[7]) && Says(m, KEYS[8], f[8]);
  }

  lemma RecordNumbers(m: map<string, Tree>, r: Handoff)
    requires forall i :: 0 <= i < |KEYS| ==> Says(m, KEYS[i], Fields(r)[i])
    ensures NatField(m, "pollAfterMs") == Some(r.pollAfterMs) && NatField(m, "version") == Some(r.version)
    ensures TimeField(m, "expiresAt") == Some(r.expiresAt) && TimeField(m, "pollClaimExpiresAt") == r.pollClaimExpiresAt
    ensures TextField(m, "protectedCompletion") == r.protectedCompletion && TextField(m, "failureCode") == r.failureCode
    ensures r.pollClaimExpiresAt.None? ==> Absent(m, "pollClaimExpiresAt")
    ensures r.protectedCompletion.None? ==> Absent(m, "protectedCompletion")
    ensures r.failureCode.None? ==> Absent(m, "failureCode")
  {
    NatOfText(r.pollAfterMs); NatOfText(r.version); NatOfText(r.expiresAt);
    if r.pollClaimExpiresAt.Some? { NatOfText(r.pollClaimExpiresAt.value); }
    var f := Fields(r);
    assert Says(m, KEYS[6], f[6]) && Says(m, KEYS[9], f[9]) && Says(m, KEYS[10], f[10]);
    assert Says(m, KEYS[11], f[11]) && Says(m, KEYS[12], f[12]) && Says(m, KEYS[13], f[13]);
  }

  lemma StatusRead(s: Status)
    ensures StatusOf(StatusText(s)) == Some(s)
  {
  }

  lemma RecordRead(num: Reader, r: Handoff)
    requires ReadsNaturals(num) && Storable(r)
    ensures RecordOf(TreeOf(RecordValue(r))) == Some(r)
  {
    RecordFacts(num, r);
    PresentationRead(num, r.presentation);
    var m := TreeOf(RecordValue(r)).members;
    RecordTexts(m, r);
    RecordNumbers(m, r);
    StatusRead(r.status);
  }

  /** The stored text of a record. */
  function Document(less: Order, r: Handoff): string {
    var text := Canonical(less, RecordValue(r));
    if text.None? then "" else text.value
  }

  function ReadDocument(num: Reader, text: string): Option<Handoff> {
    var v := Parse(num, text);
    if v.None? then None else RecordOf(TreeOf(v.value))
  }

  /** A stored record reads back as itself, and writing what was read gives the stored text again. */
  lemma DocumentRoundTrip(num: Reader, less: Order, r: Handoff)
    requires ReadsNaturals(num) && StrictTotal(less) && Storable(r)
    ensures ReadDocument(num, Document(less, r)) == Some(r)
  {
    RecordFacts(num, r);
    ParseCanonicalText(num, less, RecordValue(r));
    RecordRead(num, r);
  }

  /** Comparing stored texts is comparing records. */
  lemma DocumentInjective(num: Reader, less: Order, a: Handoff, b: Handoff)
    requires ReadsNaturals(num) && StrictTotal(less) && Storable(a) && Storable(b)
    ensures Document(less, a) == Document(less, b) <==> a == b
  {
    DocumentRoundTrip(num, less, a);
    DocumentRoundTrip(num, less, b);
  }
}
