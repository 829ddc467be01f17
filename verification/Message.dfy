/**
 * The queue-message decoder. `Decode` is the published contract: an ordered
 * list of rules, the first violated one decides. `DecodeMessage` is the
 * TypeScript SDK's procedure, which interleaves the checks differently.
 */
module Message {
  import opened Text
  import opened Json
  import Base64
  import ClaimRef

  datatype Verification = Verification(status: string, flagged: bool)

  /**
   * A decoded message. `texts` holds the ten nullable strings by their wire
   * key (a key that is not there is null); `body` is the decoded inline body.
   */
  datatype Message = Message(
    v: int,
    id: string,
    sourceId: string,
    receivedAt: int,
    size: int,
    texts: map<Key, string>,
    bodyBase64: Option<string>,
    claim: Option<string>,
    sha256: Option<string>,
    headers: map<Key, string>,
    verification: Option<Verification>,
    body: Option<Bytes>)
  {
    function Text(key: Key): Option<string> {
      if key in texts then Some(texts[key]) else None
    }
  }

  datatype Code =
    | InvalidJson | NotAnObject | UnsupportedVersion | InvalidField | AmbiguousBody
    | MissingBody | InvalidBodyBase64 | SizeMismatch | Integrity | TenantMismatch

  datatype Error = Error(code: Code, field: Option<Key>)

  datatype Result = Ok(message: Message) | Err(error: Error)

  const MIN_SUPPORTED_VERSION := 1
  const MAX_SUPPORTED_VERSION := 2

  // ---------------------------------------------------------------------
  // The published rules
  // ---------------------------------------------------------------------

  const NULLABLE: seq<Key> := [
    TenantId, ContentType, DedupeKey, ReplayId, IdempotencyKey,
    Traceparent, Tracestate, Instance, Region, EventType]

  predicate IsNullable(key: Key) {
    match key
    case TenantId | ContentType | DedupeKey | ReplayId | IdempotencyKey => true
    case Traceparent | Tracestate | Instance | Region | EventType => true
    case _ => false
  }

  /** The loop's list and the test name the same keys. */
  lemma NullableListed()
    ensures forall i :: 0 <= i < |NULLABLE| ==> IsNullable(NULLABLE[i])
    ensures forall key :: IsNullable(key) ==> exists i :: 0 <= i < |NULLABLE| && NULLABLE[i] == key
  {
    assert NULLABLE[0] == TenantId && NULLABLE[1] == ContentType && NULLABLE[2] == DedupeKey;
    assert NULLABLE[3] == ReplayId && NULLABLE[4] == IdempotencyKey && NULLABLE[5] == Traceparent;
    assert NULLABLE[6] == Tracestate && NULLABLE[7] == Instance && NULLABLE[8] == Region && NULLABLE[9] == EventType;
  }

  /** The number of published rules; rule `k` is the `k`-th in the published order. */
  const RULES := 28

  function ErrorAt(k: nat): Error
    requires k < RULES
  {
    if k == 0 then Error(InvalidJson, None)
    else if k == 1 then Error(NotAnObject, None)
    else if k == 2 then Error(UnsupportedVersion, None)
    else if k == 3 then Error(InvalidField, Some(Id))
    else if k == 4 then Error(InvalidField, Some(SourceId))
    else if k == 5 then Error(InvalidField, Some(ReceivedAt))
    else if k == 6 then Error(InvalidField, Some(Size))
    else if k < 17 then Error(InvalidField, Some(NULLABLE[k - 7]))
    else if k == 17 then Error(InvalidField, Some(Headers))
    else if k == 18 then Error(InvalidField, Some(Sha256))
    else if k == 19 then Error(InvalidField, Some(VerificationKey))
    else if k == 20 then Error(AmbiguousBody, None)
    else if k == 21 then Error(MissingBody, None)
    else if k == 22 then Error(InvalidBodyBase64, None)
    else if k == 23 then Error(InvalidField, Some(Claim))
    else if k == 24 then Error(InvalidField, Some(Sha256))
    else if k == 25 then Error(SizeMismatch, None)
    else if k == 26 then Error(Integrity, None)
    else Error(TenantMismatch, None)
  }

  predicate Present(o: Members, key: Key) { key in o && o[key] != JNull }

  predicate IsText(o: Members, key: Key) { key in o && o[key].JString? }

  predicate IsNullableText(o: Members, key: Key) { Present(o, key) ==> IsText(o, key) }

  predicate IsHex64(s: string) { |s| == 64 && forall c :: c in s ==> IsDigit(c) || 'a' <= c <= 'f' }

  predicate IsSupported(n: int) { MIN_SUPPORTED_VERSION <= n <= MAX_SUPPORTED_VERSION }

  predicate ValidVersion(o: Members) { V in o && IsInteger(o[V]) && IsSupported(o[V].n.Floor) }

  predicate ValidSize(o: Members) { Size in o && IsInteger(o[Size]) && o[Size].n >= 0.0 }

  predicate AllText(m: Members) { forall h :: h in m ==> m[h].JString? }

  predicate ValidHeaders(o: Members) { Headers in o ==> o[Headers].JObject? && AllText(o[Headers].members) }

  predicate ValidSha256(o: Members) { Sha256 in o ==> o[Sha256].JString? && IsHex64(o[Sha256].s) }

  predicate IsVerification(j: Json) {
    && j.JObject?
    && IsText(j.members, Status) && j.members[Status].s != ""
    && Flagged in j.members && j.members[Flagged].JBool?
  }

  predicate ValidVerification(o: Members) { Present(o, VerificationKey) ==> IsVerification(o[VerificationKey]) }

  function InlineBody(o: Members): Option<Bytes> {
    if IsText(o, BodyBase64) then Base64.Decode(o[BodyBase64].s, false) else None
  }

  function ClaimOf(o: Members): Option<ClaimRef.Ref> {
    if IsText(o, Claim) then ClaimRef.Parse(o[Claim].s) else None
  }

  /** Whether an object violates rule `k`, each rule judged on its own. */
  predicate Violates(k: nat, o: Members, sha: Bytes -> string)
    requires 2 <= k < RULES
  {
    if k == 2 then !ValidVersion(o)
    else if k == 3 then !IsText(o, Id) || o[Id].s == ""
    else if k == 4 then !IsText(o, SourceId)
    else if k == 5 then ReceivedAt !in o || !IsInteger(o[ReceivedAt])
    else if k == 6 then !ValidSize(o)
    else if k < 17 then !IsNullableText(o, NULLABLE[k - 7])
    else if k == 17 then !ValidHeaders(o)
    else if k == 18 then !ValidSha256(o)
    else if k == 19 then !ValidVerification(o)
    else if k == 20 then Present(o, BodyBase64) && Present(o, Claim)
    else if k == 21 then !Present(o, BodyBase64) && !Present(o, Claim)
    else if k == 22 then Present(o, BodyBase64) && InlineBody(o).None?
    else if k == 23 then Present(o, Claim) && ClaimOf(o).None?
    else if k == 24 then Present(o, Claim) && Sha256 !in o
    else if k == 25 then InlineBody(o).Some? && !(Size in o && o[Size] == JNumber(|InlineBody(o).value| as real))
    else if k == 26 then InlineBody(o).Some? && IsText(o, Sha256) && o[Sha256].s != sha(InlineBody(o).value)
    else ClaimOf(o).Some? && IsText(o, TenantId) && o[TenantId].s != ClaimOf(o).value.tenant
  }

  /** The violated rules of an input, as a test on the rule number. */
  function Bad(input: Input, sha: Bytes -> string): nat -> bool {
    (k: nat) =>
      if k == 0 then input.NotJson?
      else if k == 1 then input.Parsed? && !input.value.JObject?
      else k < RULES && input.Parsed? && input.value.JObject? && Violates(k, input.value.members, sha)
  }

  /** The first `k` in `[from, RULES)` with `bad(k)`; `RULES` when there is none. */
  function FirstFrom(from: nat, bad: nat -> bool): (r: nat)
    requires from <= RULES
    ensures from <= r <= RULES
    ensures r < RULES ==> bad(r)
    ensures forall j: nat :: from <= j < r ==> !bad(j)
    decreases RULES - from
  {
    if from == RULES || bad(from) then from else FirstFrom(from + 1, bad)
  }

  /** What the contract says of any input: the first violated rule's error, or the message. */
  function Decode(input: Input, sha: Bytes -> string): Result {
    Outcome(FirstFrom(0, Bad(input, sha)), input)
  }

  function Outcome(first: nat, input: Input): Result
    requires first <= RULES
  {
    if first < RULES then Err(ErrorAt(first))
    else if input.Parsed? && input.value.JObject? then Ok(MessageOf(input.value.members))
    else Err(ErrorAt(0))
  }

  function Optional(o: Members, key: Key): Option<string> {
    if IsText(o, key) then Some(o[key].s) else None
  }

  function Required(o: Members, key: Key): string {
    if IsText(o, key) then o[key].s else ""
  }

  function Whole(o: Members, key: Key): int {
    if key in o && o[key].JNumber? then o[key].n.Floor else 0
  }

  function HeadersOf(o: Members): map<Key, string> {
    if Headers in o && o[Headers].JObject? then
      map h | h in o[Headers].members && o[Headers].members[h].JString? :: o[Headers].members[h].s
    else map[]
  }

  function VerificationOf(o: Members): Option<Verification> {
    if VerificationKey in o && IsVerification(o[VerificationKey]) then
      Some(Verification(o[VerificationKey].members[Status].s, o[VerificationKey].members[Flagged].b))
    else None
  }

  function Encoded(body: Option<Bytes>): Option<string> {
    if body.Some? then Some(Base64.Encode(body.value)) else None
  }

  function TextsOf(o: Members): map<Key, string> {
    map key | key in o && IsNullable(key) && o[key].JString? :: o[key].s
  }

  function MessageOf(o: Members): Message {
    Message(
      Whole(o, V), Required(o, Id), Required(o, SourceId), Whole(o, ReceivedAt), Whole(o, Size), TextsOf(o),
      Encoded(InlineBody(o)), Optional(o, Claim), Optional(o, Sha256), HeadersOf(o), VerificationOf(o),
      InlineBody(o))
  }

  // ---------------------------------------------------------------------
  // The SDK's procedure
  // ---------------------------------------------------------------------

  ghost predicate Clean(k: nat, bad: nat -> bool) {
    forall j: nat :: j < k ==> !bad(j)
  }

  lemma FirstIs(k: nat, bad: nat -> bool)
    requires k <= RULES && Clean(k, bad) && (k < RULES ==> bad(k))
    ensures FirstFrom(0, bad) == k
  {
  }

  /** Past `k` clean rules, rule `k` decides. */
  lemma Decides(k: nat, o: Members, sha: Bytes -> string)
    requires 2 <= k < RULES && Clean(k, Bad(Wrap(o), sha)) && Violates(k, o, sha)
    ensures Decode(Wrap(o), sha) == Err(ErrorAt(k))
  {
    var bad := Bad(Wrap(o), sha);
    assert bad(k);
    FirstIs(k, bad);
  }

  lemma Passes(k: nat, o: Members, sha: Bytes -> string)
    requires 2 <= k < RULES && Clean(k, Bad(Wrap(o), sha)) && !Violates(k, o, sha)
    ensures Clean(k + 1, Bad(Wrap(o), sha))
  {
  }

  lemma ObjectPasses(o: Members, sha: Bytes -> string)
    ensures Clean(2, Bad(Wrap(o), sha))
  {
  }

  function Wrap(o: Members): Input { Parsed(JObject(o)) }

  /** The procedure returns what the published rule order says, for every input. */
  method DecodeMessage(input: Input, sha: Bytes -> string) returns (r: Result)
    ensures r == Decode(input, sha)
  {
    if input.NotJson? {
      assert Bad(input, sha)(0);
      FirstIs(0, Bad(input, sha));
      return Err(Error(InvalidJson, None));
    }
    if !input.value.JObject? {
      assert !Bad(input, sha)(0) && Bad(input, sha)(1);
      FirstIs(1, Bad(input, sha));
      return Err(Error(NotAnObject, None));
    }
    r := DecodeObject(input.value.members, sha);
  }

  method DecodeObject(raw: Members, sha: Bytes -> string) returns (r: Result)
    ensures r == Decode(Wrap(raw), sha)
  {
    hide ClaimRef.Parse, Base64.Decode, Base64.Encode, TextsOf, HeadersOf, VerificationOf, Encoded;
    var problem := CheckScalars(raw, sha);
    if problem.Some? {
      return Err(problem.value);
    }
    problem := CheckNullable(raw, sha);
    if problem.Some? {
      return Err(problem.value);
    }
    var headers: map<Key, string>;
    problem, headers := CheckHeaders(raw, sha);
    if problem.Some? {
      return Err(problem.value);
    }
    if Sha256 in raw && !(raw[Sha256].JString? && IsHex64(raw[Sha256].s)) {
      Decides(18, raw, sha);
      return Err(Error(InvalidField, Some(Sha256)));
    }
    Passes(18, raw, sha);
    var verification: Option<Verification>;
    problem, verification := DecodeVerification(raw, sha);
    if problem.Some? {
      return Err(problem.value);
    }
    var body: Option<Bytes>;
    var encodedBody: Option<string>;
    var claimRef: Option<ClaimRef.Ref>;
    problem, body, encodedBody, claimRef := CheckBody(raw, sha);
    if problem.Some? {
      return Err(problem.value);
    }
    var tenantId := Optional(raw, TenantId);
    if tenantId.Some? && claimRef.Some? && claimRef.value.tenant != tenantId.value {
      Decides(27, raw, sha);
      return Err(Error(TenantMismatch, None));
    }
    Passes(27, raw, sha);
    FirstIs(28, Bad(Wrap(raw), sha));
    r := Ok(Message(
      raw[V].n.Floor, raw[Id].s, raw[SourceId].s, raw[ReceivedAt].n.Floor, raw[Size].n.Floor,
      TextsOf(raw), encodedBody, if claimRef.None? then None else Some(raw[Claim].s), Optional(raw, Sha256),
      headers, verification, body));
  }

  /** `v`, `id`, `source_id`, `received_at` and `size`. */
  method CheckScalars(raw: Members, sha: Bytes -> string) returns (problem: Option<Error>)
    ensures problem.Some? ==> Decode(Wrap(raw), sha) == Err(problem.value)
    ensures problem.None? ==> Clean(7, Bad(Wrap(raw), sha))
    ensures problem.None? ==> ValidVersion(raw) && IsText(raw, Id) && IsText(raw, SourceId)
    ensures problem.None? ==> ReceivedAt in raw && IsInteger(raw[ReceivedAt]) && ValidSize(raw)
  {
    ObjectPasses(raw, sha);
    if !ValidVersion(raw) {
      Decides(2, raw, sha);
      return Some(Error(UnsupportedVersion, None));
    }
    Passes(2, raw, sha);
    if !IsText(raw, Id) || raw[Id].s == "" {
      Decides(3, raw, sha);
      return Some(Error(InvalidField, Some(Id)));
    }
    Passes(3, raw, sha);
    if !IsText(raw, SourceId) {
      Decides(4, raw, sha);
      return Some(Error(InvalidField, Some(SourceId)));
    }
    Passes(4, raw, sha);
    if ReceivedAt !in raw || !IsInteger(raw[ReceivedAt]) {
      Decides(5, raw, sha);
      return Some(Error(InvalidField, Some(ReceivedAt)));
    }
    Passes(5, raw, sha);
    if !ValidSize(raw) {
      Decides(6, raw, sha);
      return Some(Error(InvalidField, Some(Size)));
    }
    Passes(6, raw, sha);
    return None;
  }

  method CheckNullable(raw: Members, sha: Bytes -> string) returns (problem: Option<Error>)
    requires Clean(7, Bad(Wrap(raw), sha))
    ensures problem.Some? ==> Decode(Wrap(raw), sha) == Err(problem.value)
    ensures problem.None? ==> Clean(17, Bad(Wrap(raw), sha))
    ensures problem.None? ==> forall key :: IsNullable(key) ==> IsNullableText(raw, key)
  {
    for i := 0 to |NULLABLE|
      invariant Clean(7 + i, Bad(Wrap(raw), sha))
      invariant forall j :: 0 <= j < i ==> IsNullableText(raw, NULLABLE[j])
    {
      var key := NULLABLE[i];
      if key in raw && raw[key] != JNull && !raw[key].JString? {
        Decides(7 + i, raw, sha);
        return Some(Error(InvalidField, Some(key)));
      }
      Passes(7 + i, raw, sha);
    }
    NullableListed();
    return None;
  }

  method CheckHeaders(raw: Members, sha: Bytes -> string)
    returns (problem: Option<Error>, headers: map<Key, string>)
    requires Clean(17, Bad(Wrap(raw), sha))
    ensures problem.Some? ==> Decode(Wrap(raw), sha) == Err(problem.value)
    ensures problem.None? ==> Clean(18, Bad(Wrap(raw), sha)) && headers == HeadersOf(raw)
  {
    headers := map[];
    if Headers in raw {
      var value := raw[Headers];
      if !value.JObject? {
        Decides(17, raw, sha);
        return Some(Error(InvalidField, Some(Headers))), headers;
      }
      var allText: bool;
      allText, headers := CopyTexts(value.members);
      if !allText {
        Decides(17, raw, sha);
        return Some(Error(InvalidField, Some(Headers))), headers;
      }
    }
    Passes(17, raw, sha);
    problem := None;
  }

  /** Copies an object of strings; `ok` is false when some value is not a string. */
  method CopyTexts(m: Members) returns (ok: bool, copy: map<Key, string>)
    ensures ok <==> AllText(m)
    ensures ok ==> copy.Keys == m.Keys && forall h :: h in m ==> m[h] == JString(copy[h])
  {
    copy := map[];
    var names := m.Keys;
    while names != {}
      invariant names <= m.Keys
      invariant copy.Keys == m.Keys - names
      invariant forall h :: h in copy ==> m[h] == JString(copy[h])
      decreases |names|
    {
      var h :| h in names;
      if !m[h].JString? {
        return false, copy;
      }
      copy := copy[h := m[h].s];
      names := names - {h};
    }
    ok := true;
  }

  method DecodeVerification(raw: Members, sha: Bytes -> string)
    returns (problem: Option<Error>, verification: Option<Verification>)
    requires Clean(19, Bad(Wrap(raw), sha))
    ensures problem.Some? ==> Decode(Wrap(raw), sha) == Err(problem.value)
    ensures problem.None? ==> Clean(20, Bad(Wrap(raw), sha)) && verification == VerificationOf(raw)
  {
    if !Present(raw, VerificationKey) {
      Passes(19, raw, sha);
      return None, None;
    }
    var value := raw[VerificationKey];
    if !value.JObject?
      || Status !in value.members || !value.members[Status].JString? || value.members[Status].s == ""
      || Flagged !in value.members || !value.members[Flagged].JBool?
    {
      Decides(19, raw, sha);
      return Some(Error(InvalidField, Some(VerificationKey))), None;
    }
    Passes(19, raw, sha);
    return None, Some(Verification(value.members[Status].s, value.members[Flagged].b));
  }

  /**
   * Exactly one of `body_base64` and `claim`. The inline branch runs size and
   * digest checks that the published list puts after every claim check.
   */
  method CheckBody(raw: Members, sha: Bytes -> string)
    returns (problem: Option<Error>, body: Option<Bytes>, encodedBody: Option<string>, claimRef: Option<ClaimRef.Ref>)
    requires Clean(20, Bad(Wrap(raw), sha)) && ValidSize(raw)
    ensures problem.Some? ==> Decode(Wrap(raw), sha) == Err(problem.value)
    ensures problem.None? ==> Clean(27, Bad(Wrap(raw), sha))
    ensures problem.None? ==> body == InlineBody(raw) && encodedBody == Encoded(body)
    ensures problem.None? ==> claimRef == ClaimOf(raw) && (claimRef.None? ==> !IsText(raw, Claim))
  {
    body, encodedBody, claimRef := None, None, None;
    var hasBody := Present(raw, BodyBase64);
    var hasClaim := Present(raw, Claim);
    if hasBody && hasClaim {
      Decides(20, raw, sha);
      return Some(Error(AmbiguousBody, None)), body, encodedBody, claimRef;
    }
    Passes(20, raw, sha);
    if !hasBody && !hasClaim {
      Decides(21, raw, sha);
      return Some(Error(MissingBody, None)), body, encodedBody, claimRef;
    }
    Passes(21, raw, sha);
    if hasBody {
      problem, body, encodedBody := CheckInline(raw, sha);
    } else {
      problem, claimRef := CheckClaim(raw, sha);
    }
  }

  method CheckInline(raw: Members, sha: Bytes -> string)
    returns (problem: Option<Error>, body: Option<Bytes>, encodedBody: Option<string>)
    requires Clean(22, Bad(Wrap(raw), sha)) && ValidSize(raw)
    requires Present(raw, BodyBase64) && !Present(raw, Claim)
    ensures problem.Some? ==> Decode(Wrap(raw), sha) == Err(problem.value)
    ensures problem.None? ==> Clean(27, Bad(Wrap(raw), sha))
    ensures problem.None? ==> body == InlineBody(raw) && encodedBody == Encoded(body)
  {
    body, encodedBody := None, None;
    if !raw[BodyBase64].JString? {
      Decides(22, raw, sha);
      return Some(Error(InvalidBodyBase64, None)), body, encodedBody;
    }
    body := Base64.Decode(raw[BodyBase64].s, false);
    if body.None? {
      Decides(22, raw, sha);
      return Some(Error(InvalidBodyBase64, None)), body, encodedBody;
    }
    Passes(22, raw, sha);
    Passes(23, raw, sha);
    Passes(24, raw, sha);
    encodedBody := Some(Base64.Encode(body.value));
    if |body.value| as real != raw[Size].n {
      Decides(25, raw, sha);
      return Some(Error(SizeMismatch, None)), body, encodedBody;
    }
    Passes(25, raw, sha);
    if IsText(raw, Sha256) && sha(body.value) != raw[Sha256].s {
      Decides(26, raw, sha);
      return Some(Error(Integrity, None)), body, encodedBody;
    }
    Passes(26, raw, sha);
    problem := None;
  }

  method CheckClaim(raw: Members, sha: Bytes -> string)
    returns (problem: Option<Error>, claimRef: Option<ClaimRef.Ref>)
    requires Clean(22, Bad(Wrap(raw), sha))
    requires !Present(raw, BodyBase64) && Present(raw, Claim)
    ensures problem.Some? ==> Decode(Wrap(raw), sha) == Err(problem.value)
    ensures problem.None? ==> Clean(27, Bad(Wrap(raw), sha)) && claimRef.Some? && claimRef == ClaimOf(raw)
  {
    hide ClaimRef.Parse;
    Passes(22, raw, sha);
    claimRef := None;
    if !raw[Claim].JString? {
      Decides(23, raw, sha);
      return Some(Error(InvalidField, Some(Claim))), claimRef;
    }
    claimRef := ClaimRef.Parse(raw[Claim].s);
    if claimRef.None? {
      Decides(23, raw, sha);
      return Some(Error(InvalidField, Some(Claim))), claimRef;
    }
    Passes(23, raw, sha);
    if Sha256 !in raw {
      Decides(24, raw, sha);
      return Some(Error(InvalidField, Some(Sha256))), claimRef;
    }
    Passes(24, raw, sha);
    Passes(25, raw, sha);
    Passes(26, raw, sha);
    problem := None;
  }

  // ---------------------------------------------------------------------
  // Stability
  // ---------------------------------------------------------------------

  /** No rule of an object is violated, rule by rule. */
  predicate Acceptable(o: Members, sha: Bytes -> string) {
    forall k: nat :: 2 <= k < RULES ==> !Violates(k, o, sha)
  }

  lemma DecodeIs(o: Members, sha: Bytes -> string)
    ensures Acceptable(o, sha) ==> Decode(Wrap(o), sha) == Ok(MessageOf(o))
    ensures Decode(Wrap(o), sha).Ok? ==> Acceptable(o, sha)
  {
    var bad := Bad(Wrap(o), sha);
    ObjectPasses(o, sha);
    assert forall k: nat :: 2 <= k < RULES ==> bad(k) == Violates(k, o, sha);
    if Acceptable(o, sha) {
      FirstIs(RULES, bad);
    }
  }

  /** Every key the decoder looks up. */
  predicate IsKnown(key: Key) { !key.Other? && !key.Status? && !key.Flagged? }

  /**
   * Objects that agree on the known keys decode alike, success or error: so
   * adding, changing or removing unknown keys changes nothing.
   */
  lemma UnknownKeysIgnored(o: Members, p: Members, sha: Bytes -> string)
    requires forall key :: IsKnown(key) ==> AgreeOn(o, p, key)
    ensures Decode(Wrap(o), sha) == Decode(Wrap(p), sha)
  {
    assert AgreeOn(o, p, V);
    SameDecision(o, p, sha);
    SameMessage(o, p);
  }

  lemma {:induction false} SameFirst(bad: nat -> bool, bad': nat -> bool, from: nat)
    requires from <= RULES
    requires forall k: nat :: from <= k < RULES ==> bad(k) == bad'(k)
    ensures FirstFrom(from, bad) == FirstFrom(from, bad')
    decreases RULES - from
  {
    if from < RULES && !bad(from) {
      SameFirst(bad, bad', from + 1);
    }
  }

  ghost predicate AgreeOn(o: Members, p: Members, key: Key) {
    (key in o <==> key in p) && (key in o ==> o[key] == p[key])
  }

  /** The two objects agree on every known key but perhaps `v`. */
  ghost predicate AgreeButV(o: Members, p: Members) {
    forall key :: IsKnown(key) && key != V ==> AgreeOn(o, p, key)
  }

  lemma SameReads(o: Members, p: Members, key: Key)
    requires AgreeOn(o, p, key)
    ensures IsText(o, key) == IsText(p, key) && Present(o, key) == Present(p, key)
    ensures Optional(o, key) == Optional(p, key)
    ensures Required(o, key) == Required(p, key)
    ensures Whole(o, key) == Whole(p, key)
  {
  }

  lemma SameBodies(o: Members, p: Members)
    requires AgreeButV(o, p)
    ensures InlineBody(o) == InlineBody(p) && ClaimOf(o) == ClaimOf(p)
  {
    assert AgreeOn(o, p, BodyBase64) && AgreeOn(o, p, Claim);
  }

  lemma SameFieldRule(k: nat, o: Members, p: Members, sha: Bytes -> string)
    requires 3 <= k < 20 && AgreeButV(o, p)
    ensures Violates(k, o, sha) == Violates(k, p, sha)
  {
    assert AgreeOn(o, p, Id) && AgreeOn(o, p, SourceId) && AgreeOn(o, p, ReceivedAt) && AgreeOn(o, p, Size);
    assert AgreeOn(o, p, Headers) && AgreeOn(o, p, Sha256) && AgreeOn(o, p, VerificationKey);
    if 7 <= k < 17 {
      NullableListed();
      SameReads(o, p, NULLABLE[k - 7]);
    }
  }

  lemma SameBodyRule(k: nat, o: Members, p: Members, sha: Bytes -> string)
    requires 20 <= k < RULES && AgreeButV(o, p)
    ensures Violates(k, o, sha) == Violates(k, p, sha)
  {
    hide ClaimRef.Parse, Base64.Decode;
    SameBodies(o, p);
    assert AgreeOn(o, p, Size) && AgreeOn(o, p, Sha256);
    SameReads(o, p, BodyBase64);
    SameReads(o, p, Claim);
    SameReads(o, p, TenantId);
    SameReads(o, p, Sha256);
  }

  lemma SameRule(k: nat, o: Members, p: Members, sha: Bytes -> string)
    requires 2 <= k < RULES && AgreeButV(o, p)
    requires k == 2 ==> ValidVersion(o) == ValidVersion(p)
    ensures Violates(k, o, sha) == Violates(k, p, sha)
  {
    if 3 <= k < 20 {
      SameFieldRule(k, o, p, sha);
    } else if 20 <= k {
      SameBodyRule(k, o, p, sha);
    }
  }

  lemma SameDecision(o: Members, p: Members, sha: Bytes -> string)
    requires AgreeButV(o, p) && ValidVersion(o) == ValidVersion(p)
    ensures FirstFrom(0, Bad(Wrap(o), sha)) == FirstFrom(0, Bad(Wrap(p), sha))
  {
    forall k: nat | k < RULES
      ensures Bad(Wrap(o), sha)(k) == Bad(Wrap(p), sha)(k)
    {
      if 2 <= k {
        SameRule(k, o, p, sha);
      }
    }
    SameFirst(Bad(Wrap(o), sha), Bad(Wrap(p), sha), 0);
  }

  lemma SameMaps(o: Members, p: Members)
    requires AgreeButV(o, p)
    ensures HeadersOf(o) == HeadersOf(p) && VerificationOf(o) == VerificationOf(p)
  {
    assert AgreeOn(o, p, Headers) && AgreeOn(o, p, VerificationKey);
  }

  lemma SameTexts(o: Members, p: Members)
    requires AgreeButV(o, p)
    ensures TextsOf(o) == TextsOf(p)
  {
    assert forall key :: IsNullable(key) ==> AgreeOn(o, p, key);
  }

  lemma SameFields(o: Members, p: Members)
    requires AgreeButV(o, p)
    ensures Required(o, Id) == Required(p, Id) && Required(o, SourceId) == Required(p, SourceId)
    ensures Whole(o, ReceivedAt) == Whole(p, ReceivedAt) && Whole(o, Size) == Whole(p, Size)
    ensures Optional(o, Claim) == Optional(p, Claim) && Optional(o, Sha256) == Optional(p, Sha256)
  {
    hide Optional, Required, Whole, AgreeOn;
    SameReads(o, p, Id);
    SameReads(o, p, SourceId);
    SameReads(o, p, ReceivedAt);
    SameReads(o, p, Size);
    SameReads(o, p, Claim);
    SameReads(o, p, Sha256);
  }

  lemma SameMessage(o: Members, p: Members)
    requires AgreeButV(o, p)
    ensures MessageOf(p) == MessageOf(o).(v := Whole(p, V))
  {
    hide Encoded, InlineBody, ClaimOf, Optional, Required, Whole, HeadersOf, VerificationOf, TextsOf, AgreeButV;
    SameBodies(o, p);
    SameMaps(o, p);
    SameTexts(o, p);
    SameFields(o, p);
  }

  /** Moving a message between the supported versions changes `v` and nothing else. */
  lemma VersionOnlyChangesV(o: Members, n: int, sha: Bytes -> string)
    requires ValidVersion(o) && IsSupported(n)
    ensures Decode(Wrap(o[V := JNumber(n as real)]), sha) ==
            match Decode(Wrap(o), sha)
            case Ok(m) => Ok(m.(v := n))
            case Err(e) => Err(e)
  {
    var p := o[V := JNumber(n as real)];
    assert (n as real).Floor == n;
    SameDecision(o, p, sha);
    SameMessage(o, p);
  }

  /** A message's member for a key, `None` when the message holds null there. */
  function Member(m: Message, key: Key): Option<Json> {
    match key
    case V => Some(JNumber(m.v as real))
    case Id => Some(JString(m.id))
    case SourceId => Some(JString(m.sourceId))
    case ReceivedAt => Some(JNumber(m.receivedAt as real))
    case Size => Some(JNumber(m.size as real))
    case BodyBase64 => TextMember(m.bodyBase64)
    case Claim => TextMember(m.claim)
    case Sha256 => TextMember(m.sha256)
    case Headers => Some(JObject(map h | h in m.headers :: JString(m.headers[h])))
    case VerificationKey => VerificationMember(m.verification)
    case _ => TextMember(m.Text(key))
  }

  function TextMember(s: Option<string>): Option<Json> {
    if s.Some? then Some(JString(s.value)) else None
  }

  function VerificationMember(v: Option<Verification>): Option<Json> {
    if v.None? then None
    else Some(JObject(map[Status := JString(v.value.status), Flagged := JBool(v.value.flagged)]))
  }

  /**
   * What every decoded message is: the decoder's image, described without the
   * decoder.
   */
  predicate Canonical(m: Message, sha: Bytes -> string) {
    && IsSupported(m.v) && m.id != "" && m.size >= 0
    && (forall key :: key in m.texts ==> IsNullable(key))
    && (m.sha256.Some? ==> IsHex64(m.sha256.value))
    && (m.verification.Some? ==> m.verification.value.status != "")
    && (if m.body.Some? then CanonicalInline(m, sha) else CanonicalClaim(m))
  }

  predicate CanonicalInline(m: Message, sha: Bytes -> string)
    requires m.body.Some?
  {
    && m.claim.None? && m.bodyBase64 == Some(Base64.Encode(m.body.value))
    && m.size == |m.body.value|
    && (m.sha256.Some? ==> m.sha256.value == sha(m.body.value))
  }

  predicate CanonicalClaim(m: Message) {
    && m.bodyBase64.None? && m.claim.Some? && m.sha256.Some?
    && ClaimRef.Parse(m.claim.value).Some?
    && (TenantId in m.texts ==> m.texts[TenantId] == ClaimRef.Parse(m.claim.value).value.tenant)
  }

  lemma DecodedIsCanonical(o: Members, sha: Bytes -> string)
    requires Acceptable(o, sha)
    ensures Canonical(MessageOf(o), sha)
  {
    hide ClaimRef.Parse, Base64.Decode, Base64.Encode, IsHex64;
    assert !Violates(2, o, sha) && !Violates(3, o, sha) && !Violates(6, o, sha);
    assert !Violates(18, o, sha) && !Violates(20, o, sha) && !Violates(21, o, sha);
    assert !Violates(22, o, sha) && !Violates(23, o, sha) && !Violates(24, o, sha);
    assert !Violates(25, o, sha) && !Violates(26, o, sha) && !Violates(27, o, sha);
    assert InlineBody(o).Some? <==> Present(o, BodyBase64);
  }

  /** `o` writes `m`: every member of `m` is there, and where `m` has null `o` has `null` or no key. */
  ghost predicate Writes(o: Members, m: Message) {
    forall key :: IsKnown(key) ==> WritesKey(o, m, key)
  }

  ghost predicate WritesKey(o: Members, m: Message, key: Key) {
    if Member(m, key).Some? then key in o && o[key] == Member(m, key).value else !Present(o, key)
  }

  lemma WrittenScalars(o: Members, m: Message, sha: Bytes -> string)
    requires Canonical(m, sha) && Writes(o, m)
    ensures ValidVersion(o) && IsText(o, Id) && o[Id].s != "" && IsText(o, SourceId)
    ensures ReceivedAt in o && IsInteger(o[ReceivedAt]) && ValidSize(o)
  {
    hide CanonicalInline, CanonicalClaim, IsHex64;
    assert WritesKey(o, m, V) && WritesKey(o, m, Id) && WritesKey(o, m, SourceId) && WritesKey(o, m, ReceivedAt);
    assert WritesKey(o, m, Size);
  }

  lemma WrittenObjects(o: Members, m: Message, sha: Bytes -> string)
    requires Canonical(m, sha) && Writes(o, m)
    ensures ValidHeaders(o) && ValidVerification(o)
  {
    hide CanonicalInline, CanonicalClaim, IsHex64;
    assert WritesKey(o, m, Headers) && WritesKey(o, m, VerificationKey);
  }

  lemma WrittenFields(k: nat, o: Members, m: Message, sha: Bytes -> string)
    requires Canonical(m, sha) && Writes(o, m) && (2 <= k < 18 || k == 19)
    ensures !Violates(k, o, sha)
  {
    hide Canonical, ValidVersion, ValidSize, ValidHeaders, ValidVerification, IsNullableText, Writes;
    if 7 <= k < 17 {
      NullableListed();
      WrittenNullable(o, m, NULLABLE[k - 7]);
    } else {
      WrittenScalars(o, m, sha);
      WrittenObjects(o, m, sha);
    }
  }

  lemma WrittenNullable(o: Members, m: Message, key: Key)
    requires Writes(o, m) && IsNullable(key)
    ensures IsNullableText(o, key)
  {
    assert WritesKey(o, m, key);
  }

  lemma WrittenBodies(o: Members, m: Message, sha: Bytes -> string)
    requires Canonical(m, sha) && Writes(o, m)
    ensures InlineBody(o) == m.body && Encoded(InlineBody(o)) == m.bodyBase64
    ensures ClaimOf(o) == if m.claim.Some? then ClaimRef.Parse(m.claim.value) else None
  {
    hide ClaimRef.Parse, Base64.Decode, Base64.Encode, IsHex64;
    assert WritesKey(o, m, BodyBase64) && WritesKey(o, m, Claim);
    if m.body.Some? {
      Base64.DecodeEncode(m.body.value, false);
    }
  }

  lemma WrittenShape(o: Members, m: Message)
    requires Writes(o, m)
    ensures Present(o, BodyBase64) <==> m.bodyBase64.Some?
    ensures Present(o, Claim) <==> m.claim.Some?
    ensures m.sha256.Some? ==> Sha256 in o && o[Sha256] == JString(m.sha256.value)
    ensures Size in o && o[Size] == JNumber(m.size as real)
    ensures IsText(o, TenantId) ==> TenantId in m.texts && o[TenantId].s == m.texts[TenantId]
  {
    assert WritesKey(o, m, BodyBase64) && WritesKey(o, m, Claim) && WritesKey(o, m, Sha256);
    assert WritesKey(o, m, Size) && WritesKey(o, m, TenantId);
  }

  lemma WrittenBodyRules(k: nat, o: Members, m: Message, sha: Bytes -> string)
    requires Canonical(m, sha) && Writes(o, m) && (Sha256 in o ==> m.sha256.Some?)
    requires k == 18 || 20 <= k < RULES
    ensures !Violates(k, o, sha)
  {
    WrittenBodies(o, m, sha);
    WrittenShape(o, m);
    hide ClaimRef.Parse, Base64.Decode, Base64.Encode, Encoded, InlineBody, ClaimOf, IsHex64, Writes, Present;
  }

  lemma WrittenTexts(o: Members, m: Message)
    requires Writes(o, m) && forall key :: key in m.texts ==> IsNullable(key)
    ensures TextsOf(o) == m.texts
  {
    assert forall key :: IsNullable(key) ==> WritesKey(o, m, key);
  }

  lemma WrittenStrings(o: Members, m: Message)
    requires Writes(o, m)
    ensures Required(o, Id) == m.id && Required(o, SourceId) == m.sourceId
    ensures Optional(o, Claim) == m.claim && Optional(o, Sha256) == m.sha256
  {
    assert WritesKey(o, m, Id) && WritesKey(o, m, SourceId) && WritesKey(o, m, Claim) && WritesKey(o, m, Sha256);
  }

  lemma WrittenMaps(o: Members, m: Message)
    requires Writes(o, m) && (m.verification.Some? ==> m.verification.value.status != "")
    ensures HeadersOf(o) == m.headers && VerificationOf(o) == m.verification
    ensures Whole(o, V) == m.v && Whole(o, ReceivedAt) == m.receivedAt && Whole(o, Size) == m.size
  {
    assert WritesKey(o, m, Headers) && WritesKey(o, m, VerificationKey);
    assert WritesKey(o, m, V) && WritesKey(o, m, ReceivedAt) && WritesKey(o, m, Size);
  }

  lemma WrittenMessage(o: Members, m: Message, sha: Bytes -> string)
    requires Canonical(m, sha) && Writes(o, m)
    ensures MessageOf(o) == m
  {
    WrittenBodies(o, m, sha);
    WrittenMaps(o, m);
    WrittenTexts(o, m);
    WrittenStrings(o, m);
    hide Canonical, CanonicalInline, CanonicalClaim, Writes, Member, Encoded;
    hide InlineBody, ClaimOf, HeadersOf, VerificationOf, Whole, Optional, Required, TextsOf;
  }

  /**
   * Decoding is stable. Any object that writes a decoded message decodes back
   * to that message, unless it spells a null digest out: `sha256: null`, which
   * `JSON.stringify` of a decoded message writes, is refused.
   */
  lemma WrittenDecodes(o: Members, m: Message, sha: Bytes -> string)
    requires Canonical(m, sha) && Writes(o, m)
    ensures Decode(Wrap(o), sha) ==
            if m.sha256.None? && Sha256 in o then Err(Error(InvalidField, Some(Sha256))) else Ok(m)
  {
    forall k: nat | 2 <= k < 18 || k == 19
      ensures !Violates(k, o, sha)
    {
      WrittenFields(k, o, m, sha);
    }
    if m.sha256.None? && Sha256 in o {
      var bad := Bad(Wrap(o), sha);
      ObjectPasses(o, sha);
      assert Clean(18, bad) by {
        assert forall k: nat :: 2 <= k < 18 ==> bad(k) == Violates(k, o, sha);
      }
      assert WritesKey(o, m, Sha256);
      Decides(18, o, sha);
    } else {
      forall k: nat | 2 <= k < RULES
        ensures !Violates(k, o, sha)
      {
        if k == 18 || 20 <= k {
          WrittenBodyRules(k, o, m, sha);
        }
      }
      DecodeIs(o, sha);
      WrittenMessage(o, m, sha);
    }
  }

  const KNOWN: set<Key> := {
    V, Id, SourceId, TenantId, ReceivedAt, ContentType, Size, BodyBase64, Claim, Sha256, DedupeKey, ReplayId,
    IdempotencyKey, Headers, VerificationKey, Traceparent, Tracestate, Instance, Region, EventType}

  /** The wire object of a message, null members left out. */
  function Render(m: Message): Members {
    map key | key in KNOWN && Member(m, key).Some? :: Member(m, key).value
  }

  lemma RenderWrites(m: Message)
    ensures Writes(Render(m), m) && (Sha256 in Render(m) <==> m.sha256.Some?)
  {
  }

  /** The decoder's image is exactly the canonical messages, and rendering picks a text for each. */
  lemma DecodeRender(input: Input, m: Message, sha: Bytes -> string)
    ensures Decode(input, sha) == Ok(m) ==> Canonical(m, sha)
    ensures Canonical(m, sha) <==> Decode(Wrap(Render(m)), sha) == Ok(m)
  {
    if Decode(input, sha) == Ok(m) {
      assert input == Wrap(input.value.members);
      DecodeIs(input.value.members, sha);
      DecodedIsCanonical(input.value.members, sha);
    }
    if Canonical(m, sha) {
      RenderWrites(m);
      WrittenDecodes(Render(m), m, sha);
    } else if Decode(Wrap(Render(m)), sha) == Ok(m) {
      DecodeIs(Render(m), sha);
      DecodedIsCanonical(Render(m), sha);
    }
  }
}
