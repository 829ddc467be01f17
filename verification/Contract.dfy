/**
 * What the decoder does, said on the JSON: which objects it accepts as which
 * message, and which error it gives for which of the others.
 */
module Contract {
  import opened Text
  import opened Json
  import opened Message
  import Base64
  import ClaimRef

  // ---------------------------------------------------------------------
  // What is accepted, said on the JSON
  // ---------------------------------------------------------------------

  /** A member that is the text `s`, or for no text is `null` or not there. */
  predicate TextOrNull(o: Members, key: Key, s: Option<string>) {
    if s.Some? then Get(o, key) == Some(JString(s.value)) else Get(o, key) == None || Get(o, key) == Some(JNull)
  }

  predicate SpellsScalars(o: Members, m: Message) {
    && (m.v == 1 || m.v == 2) && Get(o, V) == Some(JNumber(m.v as real))
    && m.id != "" && Get(o, Id) == Some(JString(m.id))
    && Get(o, SourceId) == Some(JString(m.sourceId))
    && Get(o, ReceivedAt) == Some(JNumber(m.receivedAt as real))
    && m.size >= 0 && Get(o, Size) == Some(JNumber(m.size as real))
  }

  /** The ten members that are a text or null. */
  predicate IsOptionalText(key: Key) {
    key in {TenantId, ContentType, DedupeKey, ReplayId, IdempotencyKey,
            Traceparent, Tracestate, Instance, Region, EventType}
  }

  ghost predicate SpellsTexts(o: Members, m: Message) {
    && (forall key :: key in m.texts ==> IsOptionalText(key))
    && (forall key :: IsOptionalText(key) ==> TextOrNull(o, key, m.Text(key)))
  }

  /** Headers may be left out when there are none. */
  predicate SpellsHeaders(o: Members, m: Message) {
    match Get(o, Headers)
    case None => m.headers == map[]
    case Some(JObject(h)) => h.Keys == m.headers.Keys && forall name :: name in h ==> h[name] == JString(m.headers[name])
    case _ => false
  }

  /** A digest cannot be spelled `null`. */
  predicate SpellsDigest(o: Members, m: Message) {
    match m.sha256
    case None => Get(o, Sha256) == None
    case Some(d) =>
      && Get(o, Sha256) == Some(JString(d))
      && |d| == 64 && forall k :: 0 <= k < 64 ==> '0' <= d[k] <= '9' || 'a' <= d[k] <= 'f'
  }

  /** A verification may have further members. */
  predicate SpellsVerification(o: Members, m: Message) {
    match m.verification
    case None => TextOrNull(o, VerificationKey, None)
    case Some(v) =>
      match Get(o, VerificationKey)
      case Some(JObject(p)) =>
        v.status != "" && Get(p, Status) == Some(JString(v.status)) && Get(p, Flagged) == Some(JBool(v.flagged))
      case _ => false
  }

  /** Exactly one of a body, in any base64 text of it, and a claim of the message's own tenant. */
  ghost predicate SpellsBody(o: Members, m: Message, sha: Bytes -> string) {
    match m.body
    case Some(b) =>
      && m.claim == None && TextOrNull(o, Claim, None)
      && m.bodyBase64 == Some(Base64.Encode(b)) && BodyBase64 in o && o[BodyBase64].JString?
      && Base64.Decode(o[BodyBase64].s, false) == Some(b)
      && m.size == |b| && (m.sha256.Some? ==> m.sha256 == Some(sha(b)))
    case None =>
      && m.bodyBase64 == None && TextOrNull(o, BodyBase64, None)
      && m.claim.Some? && Get(o, Claim) == Some(JString(m.claim.value))
      && m.sha256.Some? && ClaimRef.Parse(m.claim.value).Some?
      && (TenantId in m.texts ==> m.texts[TenantId] == ClaimRef.Parse(m.claim.value).value.tenant)
  }

  /** The object spells the message, member by member. */
  ghost predicate Spells(o: Members, m: Message, sha: Bytes -> string) {
    && SpellsScalars(o, m) && SpellsTexts(o, m) && SpellsHeaders(o, m) && SpellsDigest(o, m)
    && SpellsVerification(o, m) && SpellsBody(o, m, sha)
  }

  lemma ScalarsSpelled(o: Members, m: Message, sha: Bytes -> string)
    ensures SpellsScalars(o, m) <==>
            && (forall k: nat :: 2 <= k < 7 ==> !Violates(k, o, sha))
            && m.v == Whole(o, V) && m.id == Required(o, Id) && m.sourceId == Required(o, SourceId)
            && m.receivedAt == Whole(o, ReceivedAt) && m.size == Whole(o, Size)
  {
    assert (forall k: nat :: 2 <= k < 7 ==> !Violates(k, o, sha)) <==>
           !Violates(2, o, sha) && !Violates(3, o, sha) && !Violates(4, o, sha) && !Violates(5, o, sha) && !Violates(6, o, sha);
  }

  lemma NullableRules(o: Members, sha: Bytes -> string)
    ensures (forall k: nat :: 7 <= k < 17 ==> !Violates(k, o, sha)) <==> forall key :: IsNullable(key) ==> IsNullableText(o, key)
  {
    NullableListed();
    hide IsNullableText, IsNullable;
    assert forall k: nat :: 7 <= k < 17 ==> (Violates(k, o, sha) <==> !IsNullableText(o, NULLABLE[k - 7]));
    if (forall k: nat :: 7 <= k < 17 ==> !Violates(k, o, sha)) {
      forall key | IsNullable(key)
        ensures IsNullableText(o, key)
      {
        var i :| 0 <= i < |NULLABLE| && NULLABLE[i] == key;
        assert !Violates(i + 7, o, sha);
      }
    }
  }

  lemma OptionalIsNullable(key: Key)
    ensures IsOptionalText(key) <==> IsNullable(key)
  {
  }

  lemma TextsSpelled(o: Members, m: Message, sha: Bytes -> string)
    ensures SpellsTexts(o, m) <==> (forall k: nat :: 7 <= k < 17 ==> !Violates(k, o, sha)) && m.texts == TextsOf(o)
  {
    NullableRules(o, sha);
    hide Violates, IsOptionalText, IsNullable;
    forall key
      ensures IsOptionalText(key) <==> IsNullable(key)
    {
      OptionalIsNullable(key);
    }
    if SpellsTexts(o, m) {
      assert forall key :: IsNullable(key) ==> TextOrNull(o, key, m.Text(key));
      assert forall key :: key in m.texts <==> key in TextsOf(o);
      assert m.texts == TextsOf(o);
    } else if m.texts == TextsOf(o) {
      var key :| IsNullable(key) && !TextOrNull(o, key, m.Text(key));
      assert !IsNullableText(o, key);
    }
  }

  lemma HeadersSpelled(o: Members, m: Message, sha: Bytes -> string)
    ensures SpellsHeaders(o, m) <==> !Violates(17, o, sha) && m.headers == HeadersOf(o)
  {
    if SpellsHeaders(o, m) {
      assert m.headers == HeadersOf(o);
    }
    assert !Violates(17, o, sha) && Headers in o ==> o[Headers].members.Keys == HeadersOf(o).Keys;
  }

  lemma DigestSpelled(o: Members, m: Message, sha: Bytes -> string)
    ensures SpellsDigest(o, m) <==> !Violates(18, o, sha) && m.sha256 == Optional(o, Sha256)
  {
    if Sha256 in o && o[Sha256].JString? {
      HexIsHex(o[Sha256].s);
    }
    hide IsHex64;
  }

  lemma VerificationSpelled(o: Members, m: Message, sha: Bytes -> string)
    ensures SpellsVerification(o, m) <==> !Violates(19, o, sha) && m.verification == VerificationOf(o)
  {
  }

  /** The body rules, put together. */
  predicate BodyRules(o: Members, sha: Bytes -> string) {
    if Present(o, BodyBase64) then
      && !Present(o, Claim) && InlineBody(o).Some?
      && Get(o, Size) == Some(JNumber(|InlineBody(o).value| as real))
      && (IsText(o, Sha256) ==> o[Sha256].s == sha(InlineBody(o).value))
    else
      && Present(o, Claim) && ClaimOf(o).Some? && Sha256 in o
      && (IsText(o, TenantId) ==> o[TenantId].s == ClaimOf(o).value.tenant)
  }

  lemma BodyRulesAre(o: Members, sha: Bytes -> string)
    ensures (forall k: nat :: 20 <= k < RULES ==> !Violates(k, o, sha)) <==> BodyRules(o, sha)
  {
    hide ClaimRef.Parse, Base64.Decode;
    assert (forall k: nat :: 20 <= k < RULES ==> !Violates(k, o, sha)) <==>
           && !Violates(20, o, sha) && !Violates(21, o, sha) && !Violates(22, o, sha) && !Violates(23, o, sha)
           && !Violates(24, o, sha) && !Violates(25, o, sha) && !Violates(26, o, sha) && !Violates(27, o, sha);
  }

  ghost predicate BodyAgrees(o: Members, m: Message) {
    m.bodyBase64 == Encoded(InlineBody(o)) && m.body == InlineBody(o) && m.claim == Optional(o, Claim)
  }

  lemma InlineSpelled(o: Members, m: Message, sha: Bytes -> string)
    requires SpellsScalars(o, m) && SpellsDigest(o, m) && Present(o, BodyBase64)
    ensures SpellsBody(o, m, sha) <==> BodyRules(o, sha) && BodyAgrees(o, m)
  {
    hide ClaimRef.Parse, Base64.Decode, Base64.Encode;
  }

  lemma ClaimSpelled(o: Members, m: Message, sha: Bytes -> string)
    requires SpellsDigest(o, m) && TextOrNull(o, TenantId, m.Text(TenantId)) && !Present(o, BodyBase64)
    ensures SpellsBody(o, m, sha) <==> BodyRules(o, sha) && BodyAgrees(o, m)
  {
    hide ClaimRef.Parse, Base64.Decode, Base64.Encode;
  }

  lemma BodySpelled(o: Members, m: Message, sha: Bytes -> string)
    requires SpellsScalars(o, m) && SpellsTexts(o, m) && SpellsDigest(o, m)
    ensures SpellsBody(o, m, sha) <==> (forall k: nat :: 20 <= k < RULES ==> !Violates(k, o, sha)) && BodyAgrees(o, m)
  {
    hide Violates, SpellsBody, BodyRules, BodyAgrees, SpellsScalars, SpellsDigest;
    BodyRulesAre(o, sha);
    assert TextOrNull(o, TenantId, m.Text(TenantId));
    if Present(o, BodyBase64) {
      InlineSpelled(o, m, sha);
    } else {
      ClaimSpelled(o, m, sha);
    }
  }

  /** The decoder accepts an object as a message exactly when the object spells it. */
  lemma AcceptedExactly(o: Members, m: Message, sha: Bytes -> string)
    ensures Decode(Wrap(o), sha) == Ok(m) <==> Spells(o, m, sha)
  {
    hide Decode, Violates, SpellsScalars, SpellsTexts, SpellsHeaders, SpellsDigest, SpellsVerification, SpellsBody;
    hide Whole, Required, TextsOf, HeadersOf, Optional, VerificationOf, Encoded, InlineBody;
    DecodeIs(o, sha);
    ScalarsSpelled(o, m, sha);
    TextsSpelled(o, m, sha);
    HeadersSpelled(o, m, sha);
    DigestSpelled(o, m, sha);
    VerificationSpelled(o, m, sha);
    if SpellsScalars(o, m) && SpellsTexts(o, m) && SpellsDigest(o, m) {
      BodySpelled(o, m, sha);
    }
  }

  // ---------------------------------------------------------------------
  // What is refused and how, said on the JSON
  // ---------------------------------------------------------------------

  predicate GoodVersion(o: Members) { Get(o, V) == Some(JNumber(1.0)) || Get(o, V) == Some(JNumber(2.0)) }

  predicate IsString(j: Option<Json>) { j.Some? && j.value.JString? }

  predicate IsWhole(j: Option<Json>) { j.Some? && j.value.JNumber? && j.value.n == j.value.n.Floor as real }

  predicate IsAbsent(j: Option<Json>) { j == None || j == Some(JNull) }

  predicate GoodId(o: Members) { IsString(Get(o, Id)) && Get(o, Id) != Some(JString("")) }

  predicate GoodSize(o: Members) { IsWhole(Get(o, Size)) && o[Size].n >= 0.0 }

  predicate GoodText(o: Members, key: Key) { IsAbsent(Get(o, key)) || IsString(Get(o, key)) }

  predicate GoodHeaders(o: Members) {
    match Get(o, Headers)
    case None => true
    case Some(JObject(h)) => forall name :: name in h ==> h[name].JString?
    case _ => false
  }

  predicate GoodDigest(o: Members) {
    match Get(o, Sha256)
    case None => true
    case Some(JString(d)) => |d| == 64 && forall k :: 0 <= k < 64 ==> '0' <= d[k] <= '9' || 'a' <= d[k] <= 'f'
    case _ => false
  }

  predicate GoodVerification(o: Members) {
    match Get(o, VerificationKey)
    case None => true
    case Some(JNull) => true
    case Some(JObject(p)) =>
      && IsString(Get(p, Status)) && Get(p, Status) != Some(JString(""))
      && (Get(p, Flagged) == Some(JBool(true)) || Get(p, Flagged) == Some(JBool(false)))
    case _ => false
  }

  /** `v`, `id`, `source_id`, `received_at` and `size` are good up to the `n`-th. */
  predicate GoodScalars(o: Members, n: nat) {
    && (n >= 1 ==> GoodVersion(o))
    && (n >= 2 ==> GoodId(o))
    && (n >= 3 ==> IsString(Get(o, SourceId)))
    && (n >= 4 ==> IsWhole(Get(o, ReceivedAt)))
    && (n >= 5 ==> GoodSize(o))
  }

  const TEXT_ORDER: seq<Key> := [
    TenantId, ContentType, DedupeKey, ReplayId, IdempotencyKey, Traceparent, Tracestate, Instance, Region, EventType]

  predicate GoodTexts(o: Members, n: nat)
    requires n <= 10
  {
    forall i :: 0 <= i < n ==> GoodText(o, TEXT_ORDER[i])
  }

  predicate GoodFields(o: Members) {
    GoodScalars(o, 5) && GoodTexts(o, 10) && GoodHeaders(o) && GoodDigest(o) && GoodVerification(o)
  }

  function BodyText(o: Members): Option<Bytes> {
    match Get(o, BodyBase64)
    case Some(JString(t)) => Base64.Decode(t, false)
    case _ => None
  }

  function ClaimText(o: Members): Option<ClaimRef.Ref> {
    match Get(o, Claim)
    case Some(JString(t)) => ClaimRef.Parse(t)
    case _ => None
  }

  /** A body and no claim; a claim and no body. */
  predicate Inline(o: Members) { GoodFields(o) && !IsAbsent(Get(o, BodyBase64)) && IsAbsent(Get(o, Claim)) }

  predicate Claimed(o: Members) { GoodFields(o) && IsAbsent(Get(o, BodyBase64)) && !IsAbsent(Get(o, Claim)) }

  /** For each error, the objects it is given for. */
  ghost predicate Refuses(o: Members, e: Error, sha: Bytes -> string) {
    match e.code
    case InvalidJson => false
    case NotAnObject => false
    case UnsupportedVersion => e.field == None && !GoodVersion(o)
    case InvalidField => e.field.Some? && RefusesField(o, e.field.value)
    case AmbiguousBody =>
      e.field == None && GoodFields(o) && !IsAbsent(Get(o, BodyBase64)) && !IsAbsent(Get(o, Claim))
    case MissingBody =>
      e.field == None && GoodFields(o) && IsAbsent(Get(o, BodyBase64)) && IsAbsent(Get(o, Claim))
    case InvalidBodyBase64 => e.field == None && Inline(o) && BodyText(o) == None
    case SizeMismatch =>
      e.field == None && Inline(o) && BodyText(o).Some? && o[Size] != JNumber(|BodyText(o).value| as real)
    case Integrity =>
      && e.field == None && Inline(o) && BodyText(o).Some? && o[Size] == JNumber(|BodyText(o).value| as real)
      && Sha256 in o && o[Sha256] != JString(sha(BodyText(o).value))
    case TenantMismatch =>
      && e.field == None && Claimed(o) && ClaimText(o).Some? && Sha256 in o
      && IsString(Get(o, TenantId)) && o[TenantId] != JString(ClaimText(o).value.tenant)
  }

  ghost predicate RefusesField(o: Members, key: Key) {
    match key
    case Id => GoodScalars(o, 1) && !GoodId(o)
    case SourceId => GoodScalars(o, 2) && !IsString(Get(o, SourceId))
    case ReceivedAt => GoodScalars(o, 3) && !IsWhole(Get(o, ReceivedAt))
    case Size => GoodScalars(o, 4) && !GoodSize(o)
    case Headers => GoodScalars(o, 5) && GoodTexts(o, 10) && !GoodHeaders(o)
    case Sha256 =>
      || (GoodScalars(o, 5) && GoodTexts(o, 10) && GoodHeaders(o) && !GoodDigest(o))
      || (Claimed(o) && ClaimText(o).Some? && Sha256 !in o)
    case VerificationKey => GoodScalars(o, 5) && GoodTexts(o, 10) && GoodHeaders(o) && GoodDigest(o) && !GoodVerification(o)
    case Claim => Claimed(o) && ClaimText(o) == None
    case _ => GoodScalars(o, 5) && exists i :: RefusesText(o, key, i)
  }

  ghost predicate RefusesText(o: Members, key: Key, i: nat) {
    i < 10 && TEXT_ORDER[i] == key && GoodTexts(o, i) && !GoodText(o, key)
  }

  /** Rule by rule, what the numbered rules say is what these predicates say. */
  lemma ScalarRules(o: Members, sha: Bytes -> string)
    ensures Violates(2, o, sha) <==> !GoodVersion(o)
    ensures Violates(3, o, sha) <==> !GoodId(o)
    ensures Violates(4, o, sha) <==> !IsString(Get(o, SourceId))
    ensures Violates(5, o, sha) <==> !IsWhole(Get(o, ReceivedAt))
    ensures Violates(6, o, sha) <==> !GoodSize(o)
  {
  }

  lemma TextRule(i: nat, o: Members, sha: Bytes -> string)
    requires i < 10
    ensures Violates(7 + i, o, sha) <==> !GoodText(o, TEXT_ORDER[i])
    ensures ErrorAt(7 + i) == Error(InvalidField, Some(TEXT_ORDER[i]))
  {
    assert TEXT_ORDER[i] == NULLABLE[i];
  }

  lemma HexIsHex(d: string)
    ensures IsHex64(d) <==> |d| == 64 && forall k :: 0 <= k < 64 ==> '0' <= d[k] <= '9' || 'a' <= d[k] <= 'f'
  {
    assert forall k :: 0 <= k < |d| ==> d[k] in d;
    assert forall c :: c in d ==> exists k :: 0 <= k < |d| && d[k] == c;
  }

  lemma ObjectRules(o: Members, sha: Bytes -> string)
    ensures Violates(17, o, sha) <==> !GoodHeaders(o)
    ensures Violates(18, o, sha) <==> !GoodDigest(o)
    ensures Violates(19, o, sha) <==> !GoodVerification(o)
  {
    if Sha256 in o && o[Sha256].JString? {
      HexIsHex(o[Sha256].s);
    }
    hide IsHex64;
  }

  lemma TextRules(o: Members, n: nat, sha: Bytes -> string)
    requires n <= 10
    ensures GoodTexts(o, n) <==> forall k: nat :: 7 <= k < 7 + n ==> !Violates(k, o, sha)
  {
    hide Violates, GoodText;
    forall i: nat | i < 10
      ensures Violates(7 + i, o, sha) <==> !GoodText(o, TEXT_ORDER[i])
    {
      TextRule(i, o, sha);
    }
    assert forall k: nat :: 7 <= k < 7 + n ==> (Violates(k, o, sha) <==> !GoodText(o, TEXT_ORDER[k - 7]));
    forall i | 0 <= i < n && forall k: nat :: 7 <= k < 7 + n ==> !Violates(k, o, sha)
      ensures GoodText(o, TEXT_ORDER[i])
    {
      assert !Violates(7 + i, o, sha);
    }
  }

  lemma FieldRules(o: Members, sha: Bytes -> string)
    ensures GoodFields(o) <==> forall k: nat :: 2 <= k < 20 ==> !Violates(k, o, sha)
  {
    ScalarRules(o, sha);
    TextRules(o, 10, sha);
    ObjectRules(o, sha);
    hide Violates, GoodVersion, GoodId, GoodSize, GoodTexts, GoodHeaders, GoodDigest, GoodVerification;
    assert (forall k: nat :: 2 <= k < 20 ==> !Violates(k, o, sha)) <==>
           && !Violates(2, o, sha) && !Violates(3, o, sha) && !Violates(4, o, sha) && !Violates(5, o, sha) && !Violates(6, o, sha)
           && (forall k: nat :: 7 <= k < 17 ==> !Violates(k, o, sha))
           && !Violates(17, o, sha) && !Violates(18, o, sha) && !Violates(19, o, sha);
  }

  /** The first violated rule decides. */
  lemma FirstBad(k: nat, o: Members, sha: Bytes -> string)
    requires 2 <= k < RULES && Violates(k, o, sha) && forall j: nat :: 2 <= j < k ==> !Violates(j, o, sha)
    ensures Decode(Wrap(o), sha) == Err(ErrorAt(k))
  {
    ObjectPasses(o, sha);
    var bad := Bad(Wrap(o), sha);
    assert forall j: nat :: 2 <= j < k ==> bad(j) == Violates(j, o, sha);
    assert Clean(k, bad);
    Decides(k, o, sha);
  }

  lemma ScalarRefused(o: Members, key: Key, sha: Bytes -> string)
    requires key in {Id, SourceId, ReceivedAt, Size} && RefusesField(o, key)
    ensures Decode(Wrap(o), sha) == Err(Error(InvalidField, Some(key)))
  {
    ScalarRules(o, sha);
    hide Violates, GoodVersion, GoodId, GoodSize, IsString, IsWhole, Decode;
    match key
    case Id => FirstBad(3, o, sha);
    case SourceId => FirstBad(4, o, sha);
    case ReceivedAt => FirstBad(5, o, sha);
    case Size => FirstBad(6, o, sha);
  }

  lemma ScalarsClean(o: Members, sha: Bytes -> string)
    requires GoodScalars(o, 5)
    ensures forall k: nat :: 2 <= k < 7 ==> !Violates(k, o, sha)
  {
    ScalarRules(o, sha);
    hide Violates, GoodVersion, GoodId, GoodSize, IsString, IsWhole;
  }

  lemma TextRefused(o: Members, key: Key, i: nat, sha: Bytes -> string)
    requires GoodScalars(o, 5) && RefusesText(o, key, i)
    ensures Decode(Wrap(o), sha) == Err(Error(InvalidField, Some(key)))
  {
    ScalarsClean(o, sha);
    TextRules(o, i, sha);
    TextRule(i, o, sha);
    hide Violates, GoodText, GoodTexts, GoodScalars, Decode;
    FirstBad(7 + i, o, sha);
  }

  lemma ObjectRefused(o: Members, key: Key, sha: Bytes -> string)
    requires key in {Headers, VerificationKey} || (key == Sha256 && !GoodDigest(o))
    requires RefusesField(o, key)
    ensures Decode(Wrap(o), sha) == Err(Error(InvalidField, Some(key)))
  {
    ScalarsClean(o, sha);
    TextRules(o, 10, sha);
    ObjectRules(o, sha);
    hide Violates, GoodScalars, GoodTexts, GoodHeaders, GoodDigest, GoodVerification, Decode;
    match key
    case Headers => FirstBad(17, o, sha);
    case Sha256 => FirstBad(18, o, sha);
    case VerificationKey => FirstBad(19, o, sha);
  }

  lemma FieldRefused(o: Members, key: Key, sha: Bytes -> string)
    requires RefusesField(o, key) && !GoodFields(o)
    ensures Decode(Wrap(o), sha) == Err(Error(InvalidField, Some(key)))
  {
    hide GoodScalars, GoodTexts, GoodHeaders, GoodDigest, GoodVerification, Decode;
    match key
    case Id | SourceId | ReceivedAt | Size => ScalarRefused(o, key, sha);
    case Headers | VerificationKey | Sha256 => ObjectRefused(o, key, sha);
    case Claim =>
    case _ =>
      var i: nat :| RefusesText(o, key, i);
      TextRefused(o, key, i, sha);
  }

  /** The body rules on their own, for an object whose fields are good. */
  lemma BodyViolations(o: Members, sha: Bytes -> string)
    ensures Violates(20, o, sha) <==> !IsAbsent(Get(o, BodyBase64)) && !IsAbsent(Get(o, Claim))
    ensures Violates(21, o, sha) <==> IsAbsent(Get(o, BodyBase64)) && IsAbsent(Get(o, Claim))
    ensures Violates(22, o, sha) <==> !IsAbsent(Get(o, BodyBase64)) && BodyText(o).None?
    ensures Violates(23, o, sha) <==> !IsAbsent(Get(o, Claim)) && ClaimText(o).None?
    ensures Violates(24, o, sha) <==> !IsAbsent(Get(o, Claim)) && Sha256 !in o
    ensures Violates(25, o, sha) <==> BodyText(o).Some? && Get(o, Size) != Some(JNumber(|BodyText(o).value| as real))
    ensures Violates(26, o, sha) <==> BodyText(o).Some? && IsString(Get(o, Sha256)) && o[Sha256] != JString(sha(BodyText(o).value))
    ensures Violates(27, o, sha) <==> ClaimText(o).Some? && IsString(Get(o, TenantId)) && o[TenantId] != JString(ClaimText(o).value.tenant)
    ensures BodyText(o).Some? ==> !IsAbsent(Get(o, BodyBase64))
    ensures ClaimText(o).Some? ==> !IsAbsent(Get(o, Claim))
  {
    hide ClaimRef.Parse, Base64.Decode;
  }

  /** Where the fields are good, a digest is text and the size is there. */
  lemma GoodReads(o: Members)
    requires GoodFields(o)
    ensures Sha256 in o <==> IsString(Get(o, Sha256))
    ensures Size in o
  {
  }

  lemma BodyRefused(o: Members, e: Error, sha: Bytes -> string)
    requires Refuses(o, e, sha) && GoodFields(o) && e.code != InvalidField
    ensures Decode(Wrap(o), sha) == Err(e)
  {
    hide Violates, GoodFields, GoodVersion, Decode, BodyText, ClaimText, IsAbsent, IsString;
    FieldRules(o, sha);
    BodyViolations(o, sha);
    GoodReads(o);
    VersionIsGood(o);
    var k := match e.code
             case AmbiguousBody => 20
             case MissingBody => 21
             case InvalidBodyBase64 => 22
             case SizeMismatch => 25
             case Integrity => 26
             case _ => 27;
    FirstBad(k, o, sha);
  }

  lemma VersionIsGood(o: Members)
    requires GoodFields(o)
    ensures GoodVersion(o)
  {
  }

  lemma ClaimRefused(o: Members, key: Key, sha: Bytes -> string)
    requires Claimed(o) && (if key == Claim then ClaimText(o) == None else key == Sha256 && ClaimText(o).Some? && Sha256 !in o)
    ensures Decode(Wrap(o), sha) == Err(Error(InvalidField, Some(key)))
  {
    FieldRules(o, sha);
    BodyViolations(o, sha);
    hide Violates, GoodFields, Decode, BodyText, ClaimText, IsAbsent, IsString;
    FirstBad(if key == Claim then 23 else 24, o, sha);
  }

  lemma RefusalIsGiven(o: Members, e: Error, sha: Bytes -> string)
    requires Refuses(o, e, sha)
    ensures Decode(Wrap(o), sha) == Err(e)
  {
    hide GoodFields, Decode, BodyText, ClaimText, GoodVersion, GoodScalars, GoodTexts;
    if e.code == UnsupportedVersion {
      ScalarRules(o, sha);
      FirstBad(2, o, sha);
    } else if e.code != InvalidField {
      BodyRefused(o, e, sha);
    } else if GoodFields(o) {
      NoFieldRefused(o, e.field.value);
      ClaimRefused(o, e.field.value, sha);
    } else {
      FieldRefused(o, e.field.value, sha);
    }
  }

  lemma NoFieldRefused(o: Members, key: Key)
    requires GoodFields(o) && RefusesField(o, key)
    ensures Claimed(o) && (if key == Claim then ClaimText(o) == None else key == Sha256 && ClaimText(o).Some? && Sha256 !in o)
  {
    hide BodyText, ClaimText, GoodVersion, GoodId, GoodSize, GoodText, GoodHeaders, GoodDigest, GoodVerification, IsString, IsWhole;
  }

  /** An object that is not accepted is refused with some error. */
  lemma SomeRefusal(o: Members, sha: Bytes -> string) returns (e: Error)
    requires !Acceptable(o, sha)
    ensures Refuses(o, e, sha)
  {
    hide Violates, GoodFields, GoodVersion, BodyText, ClaimText, IsAbsent, IsString;
    if !GoodFields(o) {
      hide RefusesField;
      e := SomeFieldRefusal(o);
    } else {
      FieldRules(o, sha);
      e := SomeBodyRefusal(o, sha);
    }
  }

  lemma SomeBodyRefusal(o: Members, sha: Bytes -> string) returns (e: Error)
    requires GoodFields(o) && exists k: nat :: 20 <= k < RULES && Violates(k, o, sha)
    ensures Refuses(o, e, sha)
  {
    hide Violates, GoodFields, GoodVersion, BodyText, ClaimText, IsAbsent, IsString, GoodScalars, GoodTexts;
    BodyViolations(o, sha);
    GoodReads(o);
    var k: nat :| 20 <= k < RULES && Violates(k, o, sha);
    assert k in {20, 21, 22, 23, 24, 25, 26, 27};
    var body, claim := Get(o, BodyBase64), Get(o, Claim);
    if IsAbsent(body) == IsAbsent(claim) {
      e := Error(if IsAbsent(body) then MissingBody else AmbiguousBody, None);
    } else if IsAbsent(claim) {
      e := Error(if BodyText(o) == None then InvalidBodyBase64
                 else if o[Size] != JNumber(|BodyText(o).value| as real) then SizeMismatch else Integrity, None);
    } else if ClaimText(o) == None || Sha256 !in o {
      e := Error(InvalidField, Some(if ClaimText(o) == None then Claim else Sha256));
    } else {
      e := Error(TenantMismatch, None);
    }
  }

  lemma SomeFieldRefusal(o: Members) returns (e: Error)
    requires !GoodFields(o)
    ensures e.code in {UnsupportedVersion, InvalidField}
    ensures if e.code == UnsupportedVersion then e.field == None && !GoodVersion(o) else e.field.Some? && RefusesField(o, e.field.value)
  {
    hide GoodVersion, GoodId, GoodSize, GoodText, GoodHeaders, GoodDigest, GoodVerification, IsString, IsWhole;
    if !GoodVersion(o) {
      e := Error(UnsupportedVersion, None);
    } else if !GoodScalars(o, 5) {
      e := Error(InvalidField, Some(
        if !GoodId(o) then Id else if !IsString(Get(o, SourceId)) then SourceId
        else if !IsWhole(Get(o, ReceivedAt)) then ReceivedAt else Size));
    } else if !GoodTexts(o, 10) {
      var i := FirstBadText(o);
      e := Error(InvalidField, Some(TEXT_ORDER[i]));
      OrderIsTexts(i);
      assert RefusesText(o, TEXT_ORDER[i], i);
    } else {
      e := Error(InvalidField, Some(if !GoodHeaders(o) then Headers else if !GoodDigest(o) then Sha256 else VerificationKey));
    }
  }

  lemma OrderIsTexts(i: nat)
    requires i < 10
    ensures IsNullable(TEXT_ORDER[i])
  {
    NullableListed();
    assert TEXT_ORDER[i] == NULLABLE[i];
  }

  lemma FirstBadText(o: Members) returns (i: nat)
    requires !GoodTexts(o, 10)
    ensures i < 10 && GoodTexts(o, i) && !GoodText(o, TEXT_ORDER[i])
  {
    i := 0;
    while GoodText(o, TEXT_ORDER[i])
      invariant i < 10 && GoodTexts(o, i)
      decreases 10 - i
    {
      i := i + 1;
    }
  }

  /**
   * For every input and every error: the decoder gives that error exactly for
   * the inputs it is meant for. Which fault wins when there are several is part
   * of it.
   */
  lemma RefusedExactly(input: Input, e: Error, sha: Bytes -> string)
    ensures Decode(input, sha) == Err(e) <==>
            match input
            case NotJson => e == Error(InvalidJson, None)
            case Parsed(JObject(o)) => Refuses(o, e, sha)
            case Parsed(_) => e == Error(NotAnObject, None)
  {
    if input.NotJson? {
      assert Bad(input, sha)(0);
      FirstIs(0, Bad(input, sha));
    } else if !input.value.JObject? {
      assert !Bad(input, sha)(0) && Bad(input, sha)(1);
      FirstIs(1, Bad(input, sha));
    } else {
      var o := input.value.members;
      assert input == Wrap(o);
      hide Refuses, Decode;
      DecodeIs(o, sha);
      if Refuses(o, e, sha) {
        RefusalIsGiven(o, e, sha);
      }
      if !Acceptable(o, sha) {
        var e' := SomeRefusal(o, sha);
        RefusalIsGiven(o, e', sha);
      }
    }
  }
}
