/**
 * Standard Webhooks verification. Go encodes the expected digest and compares
 * text; Rust decodes each candidate strictly and compares bytes. HMAC-SHA256
 * is the parameter `mac`. A Go string is a sequence of bytes, written here as
 * characters.
 */
module Signature {
  import opened Text
  import Base64

  type Mac = (Bytes, Bytes) -> Bytes

  /** One delivery: the three headers, where present, and the raw body. */
  datatype Delivery = Delivery(id: Option<string>, timestamp: Option<string>, signature: Option<string>, body: Bytes)

  datatype Problem =
    | InvalidSecret | MissingId | MissingTimestamp | MissingSignature | InvalidTimestamp | OutOfTolerance | NoMatch

  datatype Verdict = Verified(id: string, timestamp: int) | Rejected(problem: Problem)

  const TWO63: int := 0x8000_0000_0000_0000
  const TWO64: int := 0x1_0000_0000_0000_0000

  predicate IsInt64(x: int) { -TWO63 <= x < TWO63 }

  const DOT: byte := 46

  /** `<id>.<timestamp>.<body>` */
  function SignedContent(id: string, timestamp: string, body: Bytes): Bytes {
    Octets(id) + [DOT] + (Octets(timestamp) + [DOT] + body)
  }

  // ---------------------------------------------------------------------
  // Timestamps
  // ---------------------------------------------------------------------

  predicate AllDigits(s: string) { forall k :: 0 <= k < |s| ==> IsDigit(s[k]) }

  function TrimLeft(s: string): string { if s != "" && IsDigit(s[0]) then TrimLeft(s[1..]) else s }

  function TrimRight(s: string): string
  {
    if s != "" && IsDigit(s[|s| - 1]) then TrimRight(s[..|s| - 1]) else s
  }

  /** `strings.Trim(s, "0123456789")` */
  function Trim(s: string): string { TrimRight(TrimLeft(s)) }

  /** Trimming digits from both ends leaves nothing exactly when every character is a digit. */
  lemma TrimIsEmpty(s: string)
    ensures Trim(s) == "" <==> AllDigits(s)
  {
    TrimLeftStops(s);
    TrimRightStops(TrimLeft(s));
  }

  lemma {:induction false} TrimLeftStops(s: string)
    ensures TrimLeft(s) == "" <==> AllDigits(s)
    ensures TrimLeft(s) != "" ==> !IsDigit(TrimLeft(s)[0])
  {
    if s != "" && IsDigit(s[0]) {
      TrimLeftStops(s[1..]);
      assert forall k :: 1 <= k < |s| ==> s[k] == s[1..][k - 1];
    }
  }

  lemma {:induction false} TrimRightStops(s: string)
    ensures TrimRight(s) == "" <==> AllDigits(s)
  {
    if s != "" && IsDigit(s[|s| - 1]) {
      TrimRightStops(s[..|s| - 1]);
      assert forall k :: 0 <= k < |s| - 1 ==> s[k] == s[..|s| - 1][k];
    }
  }

  /** The value of a decimal numeral. */
  function Value(s: string): nat
    requires AllDigits(s)
  {
    if s == "" then 0 else 10 * Value(s[..|s| - 1]) + (s[|s| - 1] as int - '0' as int)
  }

  /** Leading zeros do not count. */
  lemma {:induction false} LeadingZero(s: string)
    requires AllDigits(s)
    ensures AllDigits("0" + s) && Value("0" + s) == Value(s)
  {
    if s != "" {
      LeadingZero(s[..|s| - 1]);
      assert ("0" + s)[..|s|] == "0" + s[..|s| - 1];
    }
  }

  /** Two's complement 64-bit wrap-around. */
  function Wrap64(x: int): int { (x + TWO63) % TWO64 - TWO63 }

  /** Go's test, in int64: the difference or its negation is above the tolerance, and either can wrap. */
  predicate GoLate(now: int, timestamp: int, tolerance: int) {
    var diff := Wrap64(now - timestamp);
    diff > tolerance || Wrap64(-diff) > tolerance
  }

  function AbsDiff(a: int, b: int): nat { if a > b then a - b else b - a }

  /**
   * For any int64 clock and tolerance, the int64 test is right unless the
   * difference wraps into the tolerance: `now - timestamp` is -2^63, or adding
   * 2^64 brings it within `tolerance`. Neither can happen for `now >= 0`.
   */
  lemma GoLateExactly(now: int, timestamp: int, tolerance: int)
    requires IsInt64(now) && 0 <= timestamp < TWO63 && IsInt64(tolerance)
    ensures GoLate(now, timestamp, tolerance) == (AbsDiff(now, timestamp) > tolerance) <==>
            !(now - timestamp == -TWO63 || now - timestamp + TWO64 <= tolerance)
    ensures now >= 0 ==> GoLate(now, timestamp, tolerance) == (AbsDiff(now, timestamp) > tolerance)
  {
  }

  /** The earliest clock against the earliest timestamp: 2^63 seconds apart, and not late. */
  lemma GoLateWraps()
    ensures !GoLate(-0x8000_0000_0000_0000, 0, 300) && AbsDiff(-0x8000_0000_0000_0000, 0) > 300
    ensures IsInt64(-0x8000_0000_0000_0000) && IsInt64(0x7fff_ffff_ffff_ffff) && !IsInt64(0x8000_0000_0000_0000)
  {
  }

  // ---------------------------------------------------------------------
  // Secrets
  // ---------------------------------------------------------------------

  const PREFIX := "whsec_"
  const V1 := "v1,"

  function GoKey(secret: string): Option<Bytes> {
    if PREFIX <= secret then NonEmpty(Base64.GoDecode(secret[|PREFIX|..])) else NonEmpty(Some(Octets(secret)))
  }

  function RustKey(secret: string): Option<Bytes> {
    if PREFIX <= secret then NonEmpty(Base64.Decode(secret[|PREFIX|..], true)) else NonEmpty(Some(Octets(secret)))
  }

  function NonEmpty(key: Option<Bytes>): Option<Bytes> {
    if key.Some? && key.value == [] then None else key
  }

  /** All the keys, or nothing when there is no secret or one is invalid. */
  function KeysOf(secrets: seq<string>, key: string -> Option<Bytes>): Option<seq<Bytes>> {
    if secrets != [] && forall k :: 0 <= k < |secrets| ==> key(secrets[k]).Some? then
      Some(seq(|secrets|, k requires 0 <= k < |secrets| => Unwrap(key(secrets[k]))))
    else None
  }

  function Unwrap(key: Option<Bytes>): Bytes { if key.Some? then key.value else [] }

  method DecodeSecrets(secrets: seq<string>, key: string -> Option<Bytes>) returns (keys: Option<seq<Bytes>>)
    ensures keys == KeysOf(secrets, key)
  {
    if |secrets| == 0 {
      return None;
    }
    var found: seq<Bytes> := [];
    for k := 0 to |secrets|
      invariant |found| == k
      invariant forall j :: 0 <= j < k ==> key(secrets[j]) == Some(found[j])
    {
      var decoded := key(secrets[k]);
      if decoded.None? {
        return None;
      }
      found := found + [decoded.value];
    }
    assert KeysOf(secrets, key).Some?;
    assert found == KeysOf(secrets, key).value;
    keys := Some(found);
  }

  /** The key of a secret: the bytes written after `whsec_` in base64, or else the secret's own; never none. */
  lemma SecretKeys(key: Bytes, secret: string)
    requires !("whsec_" <= secret)
    ensures GoKey("whsec_" + Base64.Encode(key)) == (if key == [] then None else Some(key))
    ensures RustKey("whsec_" + Base64.Encode(key)) == (if key == [] then None else Some(key))
    ensures GoKey(secret) == (if secret == "" then None else Some(Octets(secret))) && RustKey(secret) == GoKey(secret)
  {
    hide Base64.Encode, Base64.Decode, Base64.DropNewlines;
    var written := "whsec_" + Base64.Encode(key);
    assert PREFIX <= written && written[|PREFIX|..] == Base64.Encode(key);
    Base64.DecodeEncode(key, true);
    Base64.StrictWithinGo(Base64.Encode(key));
  }

  /** One key per secret, in order; nothing when there is no secret or one has no key. */
  lemma KeysAre(secrets: seq<string>, key: string -> Option<Bytes>, keys: seq<Bytes>)
    ensures KeysOf(secrets, key) == Some(keys) <==>
            secrets != [] && |keys| == |secrets| && forall k :: 0 <= k < |secrets| ==> key(secrets[k]) == Some(keys[k])
  {
    if KeysOf(secrets, key).Some? && |keys| == |secrets| && forall k :: 0 <= k < |secrets| ==> key(secrets[k]) == Some(keys[k]) {
      assert KeysOf(secrets, key).value == keys;
    }
  }

  // ---------------------------------------------------------------------
  // The two verifiers
  // ---------------------------------------------------------------------

  /** What follows `v1,` in the space-separated entries that start with it, in order. */
  function Candidates(entries: seq<string>): seq<string> {
    if entries == [] then []
    else if V1 <= entries[0] then [entries[0][|V1|..]] + Candidates(entries[1..])
    else Candidates(entries[1..])
  }

  lemma {:induction false} CandidatesExactly(entries: seq<string>, c: string)
    ensures c in Candidates(entries) <==> V1 + c in entries
  {
    if entries != [] {
      CandidatesExactly(entries[1..], c);
      assert entries == [entries[0]] + entries[1..];
      if V1 <= entries[0] {
        assert entries[0] == V1 + entries[0][|V1|..];
        assert (V1 + c)[|V1|..] == c;
      }
    }
  }

  /** Some key's digest, in base64, is some candidate: Go's nested search, said outright. */
  predicate TextMatch(keys: seq<Bytes>, candidates: seq<string>, content: Bytes, mac: Mac) {
    exists key :: key in keys && Base64.Encode(mac(key, content)) in candidates
  }

  /** Some key's digest is what some candidate strictly decodes to: Rust's. */
  predicate ByteMatch(keys: seq<Bytes>, candidates: seq<string>, content: Bytes, mac: Mac) {
    exists key, c :: key in keys && c in candidates && Base64.Decode(c, true) == Some(mac(key, content))
  }

  /** Strict decoding undoes encoding exactly, so the two searches find the same. */
  lemma MatchesAgree(keys: seq<Bytes>, candidates: seq<string>, content: Bytes, mac: Mac)
    ensures TextMatch(keys, candidates, content, mac) <==> ByteMatch(keys, candidates, content, mac)
  {
    hide Base64.Encode, Base64.Decode;
    if TextMatch(keys, candidates, content, mac) {
      var key :| key in keys && Base64.Encode(mac(key, content)) in candidates;
      Base64.DecodeEncode(mac(key, content), true);
    }
    if ByteMatch(keys, candidates, content, mac) {
      var key, c :| key in keys && c in candidates && Base64.Decode(c, true) == Some(mac(key, content));
      Base64.EncodeDecode(c);
    }
  }

  /** The header checks both verifiers start with. */
  function Missing(d: Delivery): Option<Problem> {
    if d.id.None? || d.id.value == "" then Some(MissingId)
    else if d.timestamp.None? || d.timestamp.value == "" then Some(MissingTimestamp)
    else if d.signature.None? || d.signature.value == "" then Some(MissingSignature)
    else None
  }

  function GoVerify(keys: Option<seq<Bytes>>, d: Delivery, now: int, tolerance: int, mac: Mac): Verdict {
    if keys.None? then Rejected(InvalidSecret)
    else if Missing(d).Some? then Rejected(Missing(d).value)
    else if !AllDigits(d.timestamp.value) || Value(d.timestamp.value) >= TWO63 then Rejected(InvalidTimestamp)
    else if GoLate(now, Value(d.timestamp.value), tolerance) then Rejected(OutOfTolerance)
    else if TextMatch(keys.value, Candidates(Split(d.signature.value, ' ')),
                      SignedContent(d.id.value, d.timestamp.value, d.body), mac) then
      Verified(d.id.value, Value(d.timestamp.value))
    else Rejected(NoMatch)
  }

  function RustVerify(keys: Option<seq<Bytes>>, d: Delivery, now: int, tolerance: int, mac: Mac): Verdict {
    if keys.None? then Rejected(InvalidSecret)
    else if Missing(d).Some? then Rejected(Missing(d).value)
    else if !AllDigits(d.timestamp.value) || Value(d.timestamp.value) >= TWO64 then Rejected(InvalidTimestamp)
    else if AbsDiff(now, Value(d.timestamp.value)) > tolerance then Rejected(OutOfTolerance)
    else if ByteMatch(keys.value, Candidates(Split(d.signature.value, ' ')),
                      SignedContent(d.id.value, d.timestamp.value, d.body), mac) then
      Verified(d.id.value, Value(d.timestamp.value))
    else Rejected(NoMatch)
  }

  method VerifySignature(d: Delivery, secrets: seq<string>, now: int, tolerance: int, mac: Mac) returns (r: Verdict)
    requires IsInt64(now) && IsInt64(tolerance)
    ensures r == GoVerify(KeysOf(secrets, GoKey), d, now, tolerance, mac)
  {
    var keys := DecodeSecrets(secrets, GoKey);
    if keys.None? {
      return Rejected(InvalidSecret);
    }
    if Missing(d).Some? {
      return Rejected(Missing(d).value);
    }
    var rawTimestamp := d.timestamp.value;
    TrimIsEmpty(rawTimestamp);
    if Trim(rawTimestamp) != "" {
      return Rejected(InvalidTimestamp);
    }
    var timestamp := Value(rawTimestamp);
    if timestamp >= TWO63 {
      return Rejected(InvalidTimestamp);
    }
    if GoLate(now, timestamp, tolerance) {
      return Rejected(OutOfTolerance);
    }
    var signed := SignedContent(d.id.value, rawTimestamp, d.body);
    var candidates := CutEntries(Split(d.signature.value, ' '));
    var found := SearchText(keys.value, candidates, signed, mac);
    r := if found then Verified(d.id.value, timestamp) else Rejected(NoMatch);
  }

  method CutEntries(entries: seq<string>) returns (candidates: seq<string>)
    ensures candidates == Candidates(entries)
  {
    candidates := [];
    for k := 0 to |entries|
      invariant candidates + Candidates(entries[k..]) == Candidates(entries)
    {
      var entry := entries[k];
      assert entries[k..][1..] == entries[k + 1..];
      if V1 <= entry {
        candidates := candidates + [entry[|V1|..]];
      }
    }
  }

  /** For each key, the expected text once, then every candidate; the first hit ends the search. */
  method SearchText(keys: seq<Bytes>, candidates: seq<string>, content: Bytes, mac: Mac) returns (found: bool)
    ensures found <==> TextMatch(keys, candidates, content, mac)
  {
    hide Base64.Encode;
    for i := 0 to |keys|
      invariant forall k :: 0 <= k < i ==> Base64.Encode(mac(keys[k], content)) !in candidates
    {
      var expected := Base64.Encode(mac(keys[i], content));
      for j := 0 to |candidates|
        invariant expected !in candidates[..j]
      {
        if candidates[j] == expected {
          return true;
        }
      }
      assert candidates[..|candidates|] == candidates;
    }
    found := false;
  }

  /** Every candidate against every key; the digest is computed afresh for each pair. */
  method SearchBytes(keys: seq<Bytes>, candidates: seq<Bytes>, content: Bytes, mac: Mac) returns (found: bool)
    ensures found <==> exists key :: key in keys && mac(key, content) in candidates
  {
    for i := 0 to |keys|
      invariant forall k :: 0 <= k < i ==> mac(keys[k], content) !in candidates
    {
      for j := 0 to |candidates|
        invariant mac(keys[i], content) !in candidates[..j]
      {
        if mac(keys[i], content) == candidates[j] {
          return true;
        }
      }
      assert candidates[..|candidates|] == candidates;
    }
    found := false;
  }

  /** The bytes of the candidates that decode strictly, in order. */
  function Decodable(candidates: seq<string>): seq<Bytes> {
    if candidates == [] then []
    else
      var first := Base64.Decode(candidates[0], true);
      (if first.Some? then [first.value] else []) + Decodable(candidates[1..])
  }

  lemma {:induction false} DecodableExactly(candidates: seq<string>, b: Bytes)
    ensures b in Decodable(candidates) <==> exists c :: c in candidates && Base64.Decode(c, true) == Some(b)
  {
    hide Base64.Decode;
    if candidates != [] {
      var first, rest := candidates[0], candidates[1..];
      DecodableExactly(rest, b);
      assert first in candidates && forall c :: c in candidates <==> c == first || c in rest;
      assert b in Decodable(candidates) <==> Base64.Decode(first, true) == Some(b) || b in Decodable(rest);
      hide Decodable;
    }
  }

  method VerifySignatureRust(d: Delivery, secrets: seq<string>, now: int, tolerance: int, mac: Mac) returns (r: Verdict)
    requires 0 <= now < TWO64 && 0 <= tolerance < TWO64
    ensures r == RustVerify(KeysOf(secrets, RustKey), d, now, tolerance, mac)
  {
    hide Base64.Decode;
    var keys := DecodeSecrets(secrets, RustKey);
    if keys.None? {
      return Rejected(InvalidSecret);
    }
    if Missing(d).Some? {
      return Rejected(Missing(d).value);
    }
    if !AllDigits(d.timestamp.value) || Value(d.timestamp.value) >= TWO64 {
      return Rejected(InvalidTimestamp);
    }
    var timestamp := Value(d.timestamp.value);
    if AbsDiff(now, timestamp) > tolerance {
      return Rejected(OutOfTolerance);
    }
    var encoded := Candidates(Split(d.signature.value, ' '));
    var signed := SignedContent(d.id.value, d.timestamp.value, d.body);
    forall key | key in keys.value
      ensures mac(key, signed) in Decodable(encoded) <==>
              exists c :: c in encoded && Base64.Decode(c, true) == Some(mac(key, signed))
    {
      DecodableExactly(encoded, mac(key, signed));
    }
    var found := SearchBytes(keys.value, Decodable(encoded), signed, mac);
    r := if found then Verified(d.id.value, timestamp) else Rejected(NoMatch);
  }

  // ---------------------------------------------------------------------
  // The two agree
  // ---------------------------------------------------------------------

  /** A header that is there and not empty. */
  predicate Given(header: Option<string>) { header != None && header != Some("") }

  /** Some key's digest of the id, timestamp and body, joined with dots, is a `v1,` entry of the signature header. */
  ghost predicate SignedBy(keys: seq<Bytes>, id: string, timestamp: string, body: Bytes, signature: string, mac: Mac) {
    exists key :: key in keys
      && "v1," + Base64.Encode(mac(key, Octets(id) + [46] + (Octets(timestamp) + [46] + body))) in Split(signature, ' ')
  }

  lemma MatchIsSigned(keys: seq<Bytes>, id: string, timestamp: string, body: Bytes, signature: string, mac: Mac)
    ensures TextMatch(keys, Candidates(Split(signature, ' ')), SignedContent(id, timestamp, body), mac) <==>
            SignedBy(keys, id, timestamp, body, signature, mac)
  {
    hide Base64.Encode, Split, Octets, Candidates;
    var entries, content := Split(signature, ' '), SignedContent(id, timestamp, body);
    forall key
      ensures Base64.Encode(mac(key, content)) in Candidates(entries) <==> "v1," + Base64.Encode(mac(key, content)) in entries
    {
      CandidatesExactly(entries, Base64.Encode(mac(key, content)));
    }
  }

  /** What makes a delivery worth checking the signature of, up to the timestamp's own limits. */
  predicate Checkable(d: Delivery) {
    Given(d.id) && Given(d.timestamp) && Given(d.signature) && forall k :: 0 <= k < |d.timestamp.value| ==> '0' <= d.timestamp.value[k] <= '9'
  }

  /**
   * Go's verdict, outright: accepted, with the id and the timestamp's value,
   * exactly for keys and headers that are all there, a numeric timestamp below
   * 2^63 that is not late, and a signature by one of the keys.
   */
  lemma GoAcceptsExactly(keys: Option<seq<Bytes>>, d: Delivery, now: int, tolerance: int, mac: Mac, id: string, timestamp: int)
    ensures GoVerify(keys, d, now, tolerance, mac) == Verified(id, timestamp) <==>
            && keys.Some? && Checkable(d) && id == d.id.value && timestamp == Value(d.timestamp.value)
            && timestamp < 0x8000_0000_0000_0000 && !GoLate(now, timestamp, tolerance)
            && SignedBy(keys.value, id, d.timestamp.value, d.body, d.signature.value, mac)
  {
    hide GoLate, TextMatch, Candidates, SignedContent, SignedBy, Split, Value;
    if keys.Some? && Checkable(d) {
      MatchIsSigned(keys.value, d.id.value, d.timestamp.value, d.body, d.signature.value, mac);
    }
  }

  /** And refused with each problem exactly when it is the first. */
  lemma GoRefusesExactly(keys: Option<seq<Bytes>>, d: Delivery, now: int, tolerance: int, mac: Mac, problem: Problem)
    ensures GoVerify(keys, d, now, tolerance, mac) == Rejected(problem) <==>
            match problem
            case InvalidSecret => keys == None
            case MissingId => keys.Some? && !Given(d.id)
            case MissingTimestamp => keys.Some? && Given(d.id) && !Given(d.timestamp)
            case MissingSignature => keys.Some? && Given(d.id) && Given(d.timestamp) && !Given(d.signature)
            case InvalidTimestamp =>
              && keys.Some? && Given(d.id) && Given(d.timestamp) && Given(d.signature)
              && (!Checkable(d) || Value(d.timestamp.value) >= 0x8000_0000_0000_0000)
            case OutOfTolerance =>
              && keys.Some? && Checkable(d) && Value(d.timestamp.value) < 0x8000_0000_0000_0000
              && GoLate(now, Value(d.timestamp.value), tolerance)
            case NoMatch =>
              && keys.Some? && Checkable(d) && Value(d.timestamp.value) < 0x8000_0000_0000_0000
              && !GoLate(now, Value(d.timestamp.value), tolerance)
              && !SignedBy(keys.value, d.id.value, d.timestamp.value, d.body, d.signature.value, mac)
  {
    hide GoLate, TextMatch, Candidates, SignedContent, SignedBy, Split, Value;
    if keys.Some? && Checkable(d) {
      MatchIsSigned(keys.value, d.id.value, d.timestamp.value, d.body, d.signature.value, mac);
    }
  }

  /** Rust's verdict, outright: the same but for a timestamp below 2^64 and the plain distance. */
  lemma RustAcceptsExactly(keys: Option<seq<Bytes>>, d: Delivery, now: int, tolerance: int, mac: Mac, id: string, timestamp: int)
    ensures RustVerify(keys, d, now, tolerance, mac) == Verified(id, timestamp) <==>
            && keys.Some? && Checkable(d) && id == d.id.value && timestamp == Value(d.timestamp.value)
            && timestamp < 0x1_0000_0000_0000_0000 && timestamp - tolerance <= now <= timestamp + tolerance
            && SignedBy(keys.value, id, d.timestamp.value, d.body, d.signature.value, mac)
  {
    hide TextMatch, ByteMatch, Candidates, SignedContent, SignedBy, Split, Value;
    if keys.Some? && Checkable(d) {
      MatchIsSigned(keys.value, d.id.value, d.timestamp.value, d.body, d.signature.value, mac);
      MatchesAgree(keys.value, Candidates(Split(d.signature.value, ' ')),
                   SignedContent(d.id.value, d.timestamp.value, d.body), mac);
    }
  }

  lemma RustRefusesExactly(keys: Option<seq<Bytes>>, d: Delivery, now: int, tolerance: int, mac: Mac, problem: Problem)
    ensures RustVerify(keys, d, now, tolerance, mac) == Rejected(problem) <==>
            match problem
            case InvalidSecret => keys == None
            case MissingId => keys.Some? && !Given(d.id)
            case MissingTimestamp => keys.Some? && Given(d.id) && !Given(d.timestamp)
            case MissingSignature => keys.Some? && Given(d.id) && Given(d.timestamp) && !Given(d.signature)
            case InvalidTimestamp =>
              && keys.Some? && Given(d.id) && Given(d.timestamp) && Given(d.signature)
              && (!Checkable(d) || Value(d.timestamp.value) >= 0x1_0000_0000_0000_0000)
            case OutOfTolerance =>
              && keys.Some? && Checkable(d) && Value(d.timestamp.value) < 0x1_0000_0000_0000_0000
              && !(Value(d.timestamp.value) - tolerance <= now <= Value(d.timestamp.value) + tolerance)
            case NoMatch =>
              && keys.Some? && Checkable(d) && Value(d.timestamp.value) < 0x1_0000_0000_0000_0000
              && Value(d.timestamp.value) - tolerance <= now <= Value(d.timestamp.value) + tolerance
              && !SignedBy(keys.value, d.id.value, d.timestamp.value, d.body, d.signature.value, mac)
  {
    hide TextMatch, ByteMatch, Candidates, SignedContent, SignedBy, Split, Value;
    if keys.Some? && Checkable(d) {
      MatchIsSigned(keys.value, d.id.value, d.timestamp.value, d.body, d.signature.value, mac);
      MatchesAgree(keys.value, Candidates(Split(d.signature.value, ' ')),
                   SignedContent(d.id.value, d.timestamp.value, d.body), mac);
    }
  }

  /** A numeric timestamp that fits Rust's integer and not Go's. */
  predicate PastInt64(d: Delivery) {
    d.timestamp.Some? && AllDigits(d.timestamp.value) && TWO63 <= Value(d.timestamp.value) < TWO64
  }

  /**
   * With the same keys, and a clock and tolerance both take, the two verifiers
   * return the same verdict exactly unless they get as far as a timestamp past
   * int64. Go calls that invalid; to Rust it is only too far off, if it is.
   */
  lemma VerdictsAgree(keys: Option<seq<Bytes>>, d: Delivery, now: int, tolerance: int, mac: Mac)
    requires 0 <= now < TWO63 && 0 <= tolerance < TWO63
    ensures var go, rust := GoVerify(keys, d, now, tolerance, mac), RustVerify(keys, d, now, tolerance, mac);
            && (go == rust <==> !(keys.Some? && Missing(d).None? && PastInt64(d)))
            && (go != rust ==>
                  && go == Rejected(InvalidTimestamp)
                  && (rust == Rejected(OutOfTolerance) <==> Value(d.timestamp.value) > now + tolerance))
  {
    if keys.Some? && Missing(d).None? && AllDigits(d.timestamp.value) {
      if Value(d.timestamp.value) < TWO63 {
        GoLateExactly(now, Value(d.timestamp.value), tolerance);
      }
      MatchesAgree(keys.value, Candidates(Split(d.signature.value, ' ')),
                   SignedContent(d.id.value, d.timestamp.value, d.body), mac);
    }
    hide GoLate, TextMatch, ByteMatch, Candidates, SignedContent;
  }

  lemma {:induction false} NumeralIsValue(k: nat)
    ensures Numeral(k) != "" && AllDigits(Numeral(k)) && Value(Numeral(k)) == k
  {
    if k >= 10 {
      NumeralIsValue(k / 10);
      assert Numeral(k)[..|Numeral(k)| - 1] == Numeral(k / 10);
    }
  }

  /** Every timestamp past int64, by its numeral: invalid to Go, and to a Rust clock at zero as far off as it is. */
  lemma PastInt64Differs(t: nat, keys: Option<seq<Bytes>>, id: string, signature: string, body: Bytes, mac: Mac)
    requires TWO63 <= t < TWO64 && keys.Some? && id != "" && signature != ""
    ensures var d := Delivery(Some(id), Some(Numeral(t)), Some(signature), body);
            && PastInt64(d)
            && GoVerify(keys, d, 0, 300, mac) == Rejected(InvalidTimestamp)
            && RustVerify(keys, d, 0, 300, mac) == Rejected(OutOfTolerance)
  {
    NumeralIsValue(t);
    hide Value, Numeral, GoVerify, RustVerify;
    VerdictsAgree(keys, Delivery(Some(id), Some(Numeral(t)), Some(signature), body), 0, 300, mac);
  }

  /**
   * A secret the two SDKs read differently: after the prefix and without its
   * line breaks it is some base64 text, and either it has line breaks or the
   * unused bits of its last symbol are not zero.
   */
  ghost predicate LooseSecret(secret: string) {
    && PREFIX <= secret
    && var text := secret[|PREFIX|..];
       var unbroken := Base64.DropNewlines(text);
       && unbroken != "" && Base64.MatchesPattern(unbroken)
       && ('\n' in text || '\r' in text || !Base64.UnusedBitsZero(text))
  }

  lemma SecretsAgree(secret: string)
    ensures GoKey(secret) == RustKey(secret) <==> !LooseSecret(secret)
  {
    if PREFIX <= secret {
      LooseExactly(secret[|PREFIX|..]);
    }
    hide Base64.Decode, Base64.MatchesPattern, Base64.UnusedBitsZero, Base64.DropNewlines;
  }

  lemma LooseExactly(text: string)
    ensures NonEmpty(Base64.GoDecode(text)) == NonEmpty(Base64.Decode(text, true)) <==>
            !(&& Base64.DropNewlines(text) != "" && Base64.MatchesPattern(Base64.DropNewlines(text))
              && ('\n' in text || '\r' in text || !Base64.UnusedBitsZero(text)))
  {
    hide Base64.Decode, Base64.MatchesPattern, Base64.UnusedBitsZero, Base64.DropNewlines;
    var unbroken := Base64.DropNewlines(text);
    Base64.LenientIsPattern(unbroken);
    if Base64.Decode(unbroken, false).Some? {
      Base64.LenientEmpty(unbroken);
    }
    Base64.StrictWithinLenient(text);
    Base64.StrictIsPattern(text);
    if Base64.Decode(text, true).Some? {
      Base64.LenientHasNoNewline(text);
    }
    if '\n' !in text && '\r' !in text {
      Base64.DropNewlinesKeeps(text);
    }
  }

  /** One such secret: the second symbol carries four unused bits that are not zero. */
  lemma LooseSecretExists()
    ensures LooseSecret("whsec_AB==") && GoKey("whsec_AB==") == Some([0]) && RustKey("whsec_AB==") == None
  {
    var text := "AB==";
    assert "whsec_AB=="[|PREFIX|..] == text;
    assert Base64.DropNewlines(text) == text by {
      Base64.DropNewlinesKeeps(text);
    }
    assert Base64.PatternWithPad(text, 2);
  }

  /** So without a loose secret, or a timestamp past int64 that is not too far off, the whole verifiers accept alike. */
  lemma AcceptTheSame(d: Delivery, secrets: seq<string>, now: int, tolerance: int, mac: Mac, v: Verdict)
    requires 0 <= now < TWO63 && 0 <= tolerance < TWO63
    requires PastInt64(d) ==> Value(d.timestamp.value) > now + tolerance
    requires forall k :: 0 <= k < |secrets| ==> !LooseSecret(secrets[k])
    requires v.Verified?
    ensures GoVerify(KeysOf(secrets, GoKey), d, now, tolerance, mac) == v <==>
            RustVerify(KeysOf(secrets, RustKey), d, now, tolerance, mac) == v
  {
    hide GoKey, RustKey, LooseSecret, GoVerify, RustVerify, Value;
    forall k | 0 <= k < |secrets|
      ensures GoKey(secrets[k]) == RustKey(secrets[k])
    {
      SecretsAgree(secrets[k]);
    }
    var go, rust := KeysOf(secrets, GoKey), KeysOf(secrets, RustKey);
    assert go.Some? == rust.Some? && (go.Some? ==> go.value == rust.value);
    VerdictsAgree(KeysOf(secrets, GoKey), d, now, tolerance, mac);
  }

  // ---------------------------------------------------------------------
  // Order, rotation, and what a signature binds
  // ---------------------------------------------------------------------

  ghost predicate SameSet<T(!new)>(xs: seq<T>, ys: seq<T>) { forall x :: x in xs <==> x in ys }

  /** The same entries of version 1, whatever the others. */
  ghost predicate SameV1(entries: seq<string>, entries': seq<string>) {
    forall e :: V1 <= e ==> (e in entries <==> e in entries')
  }

  lemma SameCandidates(entries: seq<string>, entries': seq<string>)
    requires SameV1(entries, entries')
    ensures SameSet(Candidates(entries), Candidates(entries'))
  {
    forall c
      ensures c in Candidates(entries) <==> c in Candidates(entries')
    {
      CandidatesExactly(entries, c);
      CandidatesExactly(entries', c);
      assert V1 <= V1 + c;
    }
  }

  /**
   * The verdict depends on the set of secrets and the set of `v1,` entries:
   * not on their order or repetition, nor on entries of other versions.
   */
  lemma OrderIrrelevant(d: Delivery, signature: string, secrets: seq<string>, secrets': seq<string>,
                        now: int, tolerance: int, mac: Mac)
    requires SameSet(secrets, secrets')
    requires d.signature.Some? && d.signature.value != "" && signature != ""
    requires SameV1(Split(d.signature.value, ' '), Split(signature, ' '))
    ensures GoVerify(KeysOf(secrets, GoKey), d, now, tolerance, mac) ==
            GoVerify(KeysOf(secrets', GoKey), d.(signature := Some(signature)), now, tolerance, mac)
  {
    hide GoKey, GoLate, Candidates, SignedContent, Value, KeysOf, TextMatch, AllDigits, SameSet, SameV1, Split;
    var entries, entries' := Split(d.signature.value, ' '), Split(signature, ' ');
    SameCandidates(entries, entries');
    SameKeys(secrets, secrets', GoKey);
    var keys, keys' := KeysOf(secrets, GoKey), KeysOf(secrets', GoKey);
    if keys.Some? && d.id.Some? && d.timestamp.Some? {
      SameMatch(keys.value, keys'.value, Candidates(entries), Candidates(entries'),
                SignedContent(d.id.value, d.timestamp.value, d.body), mac);
    }
  }

  lemma SameMatch(keys: seq<Bytes>, keys': seq<Bytes>, candidates: seq<string>, candidates': seq<string>, content: Bytes, mac: Mac)
    requires SameSet(keys, keys') && SameSet(candidates, candidates')
    ensures TextMatch(keys, candidates, content, mac) == TextMatch(keys', candidates', content, mac)
  {
    hide Base64.Encode;
  }

  lemma KeysSet(secrets: seq<string>, key: string -> Option<Bytes>)
    ensures KeysOf(secrets, key).Some? ==>
              forall b :: b in KeysOf(secrets, key).value <==> exists s :: s in secrets && key(s) == Some(b)
  {
    if KeysOf(secrets, key).Some? {
      var keys := KeysOf(secrets, key).value;
      forall b
        ensures b in keys <==> exists s :: s in secrets && key(s) == Some(b)
      {
        if b in keys {
          var k :| 0 <= k < |keys| && keys[k] == b;
          assert secrets[k] in secrets && key(secrets[k]) == Some(b);
        }
        if s :| s in secrets && key(s) == Some(b) {
          var k :| 0 <= k < |secrets| && secrets[k] == s;
          assert keys[k] == b;
        }
      }
    }
  }

  lemma SameKeys(secrets: seq<string>, secrets': seq<string>, key: string -> Option<Bytes>)
    requires SameSet(secrets, secrets')
    ensures KeysOf(secrets, key).Some? <==> KeysOf(secrets', key).Some?
    ensures KeysOf(secrets, key).Some? ==> SameSet(KeysOf(secrets, key).value, KeysOf(secrets', key).value)
  {
    KeysSet(secrets, key);
    KeysSet(secrets', key);
    if secrets != [] {
      assert secrets[0] in secrets';
    }
    if secrets' != [] {
      assert secrets'[0] in secrets;
    }
    assert forall k :: 0 <= k < |secrets| ==> secrets[k] in secrets';
    assert forall k :: 0 <= k < |secrets'| ==> secrets'[k] in secrets;
  }

  /** Rotating in another valid secret never turns an acceptance into a rejection. */
  lemma RotationKeepsAcceptance(d: Delivery, secrets: seq<string>, extra: string, now: int, tolerance: int, mac: Mac)
    requires GoVerify(KeysOf(secrets, GoKey), d, now, tolerance, mac).Verified? && GoKey(extra).Some?
    ensures GoVerify(KeysOf(secrets + [extra], GoKey), d, now, tolerance, mac) ==
            GoVerify(KeysOf(secrets, GoKey), d, now, tolerance, mac)
  {
    hide GoKey, GoLate, Candidates, SignedContent, Base64.Encode, Value;
    var keys := KeysOf(secrets, GoKey).value;
    var more := KeysOf(secrets + [extra], GoKey);
    assert more.Some?;
    assert forall k :: 0 <= k < |keys| ==> more.value[k] == keys[k];
    assert forall b :: b in keys ==> b in more.value;
  }

  predicate IsOctets(s: string) { forall k :: 0 <= k < |s| ==> s[k] as int < 256 }

  lemma OctetsInjective(s: string, t: string)
    requires IsOctets(s) && IsOctets(t) && Octets(s) == Octets(t)
    ensures s == t
  {
    forall k | 0 <= k < |s|
      ensures s[k] == t[k]
    {
      assert Octets(s)[k] == s[k] as int && Octets(t)[k] == t[k] as int;
    }
  }

  lemma NoDot(s: string)
    requires IsOctets(s) && '.' !in s
    ensures DOT !in Octets(s)
  {
  }

  /** For dot-free ids and numeric timestamps the signed content determines all three parts. */
  lemma SignedContentBinds(id: string, ts: string, body: Bytes, id': string, ts': string, body': Bytes)
    requires IsOctets(id) && IsOctets(id') && '.' !in id && '.' !in id'
    requires AllDigits(ts) && AllDigits(ts')
    requires SignedContent(id, ts, body) == SignedContent(id', ts', body')
    ensures id == id' && ts == ts' && body == body'
  {
    NoDot(id);
    NoDot(id');
    NoDot(ts);
    NoDot(ts');
    SameCut(Octets(id), Octets(id'), DOT, Octets(ts) + [DOT] + body, Octets(ts') + [DOT] + body');
    SameCut(Octets(ts), Octets(ts'), DOT, body, body');
    OctetsInjective(id, id');
    OctetsInjective(ts, ts');
  }

  /** The signed content of one delivery is also that of another with an id and a numeric timestamp, neither empty. */
  ghost predicate OtherReading(id: string, ts: string, body: Bytes, id': string, ts': string, body': Bytes) {
    && IsOctets(id') && id' != "" && ts' != "" && AllDigits(ts')
    && (id', ts', body') != (id, ts, body)
    && SignedContent(id', ts', body') == SignedContent(id, ts, body)
  }

  /** Dots at `i` and `j` with nothing but digits, and at least one, between them. */
  predicate ReadsBetween(content: Bytes, i: nat, j: nat) {
    && 0 < i && i + 1 < j < |content| && content[i] == DOT && content[j] == DOT
    && forall k :: i < k < j ==> 48 <= content[k] <= 57
  }

  /** The content has such a pair of dots somewhere other than around its own timestamp. */
  ghost predicate ReadsElsewhere(id: string, ts: string, body: Bytes) {
    exists i: nat, j: nat :: i != |id| && ReadsBetween(SignedContent(id, ts, body), i, j)
  }

  /** A signature also covers another delivery exactly when the signed content reads elsewhere. */
  lemma OtherReadingExactly(id: string, ts: string, body: Bytes)
    requires IsOctets(id) && AllDigits(ts)
    ensures (exists id', ts', body' :: OtherReading(id, ts, body, id', ts', body')) <==> ReadsElsewhere(id, ts, body)
  {
    if id', ts', body' :| OtherReading(id, ts, body, id', ts', body') {
      OtherReadsElsewhere(id, ts, body, id', ts', body');
    }
    if i: nat, j: nat :| i != |id| && ReadsBetween(SignedContent(id, ts, body), i, j) {
      var id', ts', body' := CutOut(SignedContent(id, ts, body), i, j);
      assert OtherReading(id, ts, body, id', ts', body');
    }
  }

  /** The parts of a content stand where their lengths put them. */
  lemma PartsAt(id: string, ts: string, body: Bytes)
    ensures var content := SignedContent(id, ts, body);
            && |content| == |id| + 1 + |ts| + 1 + |body|
            && content[..|id|] == Octets(id) && content[|id|] == DOT
            && content[|id| + 1..] == Octets(ts) + [DOT] + body
            && content[|id| + 1 + |ts|] == DOT
            && forall k :: |id| < k <= |id| + |ts| ==> content[k] == Octets(ts)[k - |id| - 1]
  {
    var content := SignedContent(id, ts, body);
    assert content[|id| + 1..] == Octets(ts) + [DOT] + body;
  }

  lemma OtherReadsElsewhere(id: string, ts: string, body: Bytes, id': string, ts': string, body': Bytes)
    requires IsOctets(id) && AllDigits(ts) && OtherReading(id, ts, body, id', ts', body')
    ensures ReadsElsewhere(id, ts, body)
  {
    PartsAt(id, ts, body);
    PartsAt(id', ts', body');
    hide SignedContent;
    if |id| == |id'| {
      OctetsInjective(id, id');
      NoDot(ts);
      NoDot(ts');
      SameCut(Octets(ts), Octets(ts'), DOT, body, body');
      OctetsInjective(ts, ts');
    }
    assert ReadsBetween(SignedContent(id, ts, body), |id'|, |id'| + 1 + |ts'|);
  }

  /** The text with these octets. */
  function TextOf(b: Bytes): (s: string)
    ensures IsOctets(s) && |s| == |b| && Octets(s) == b
  {
    var s := seq(|b|, k requires 0 <= k < |b| => b[k] as char);
    assert Octets(s) == b;
    s
  }

  lemma CutOut(content: Bytes, i: nat, j: nat) returns (id: string, ts: string, body: Bytes)
    requires ReadsBetween(content, i, j)
    ensures IsOctets(id) && |id| == i && ts != "" && AllDigits(ts) && SignedContent(id, ts, body) == content
  {
    id, ts, body := TextOf(content[..i]), TextOf(content[i + 1..j]), content[j + 1..];
    forall k | 0 <= k < |ts|
      ensures IsDigit(ts[k])
    {
      assert Octets(ts)[k] == content[i + 1 + k];
    }
    assert content == content[..i] + [DOT] + (content[i + 1..j] + [DOT] + content[j + 1..]);
  }

  /**
   * A sender of dot-free ids whose signature covers two deliveries: the body
   * has a dot, digits and a dot in it. While both timestamps are in tolerance
   * the verifier accepts both or neither.
   */
  lemma OneSignatureTwoDeliveries(keys: Option<seq<Bytes>>, signature: string, mac: Mac)
    requires signature != ""
    ensures var sent := Delivery(Some("a"), Some("5"), Some(signature), Octets("b.7.c"));
            var other := Delivery(Some("a.5.b"), Some("7"), Some(signature), Octets("c"));
            GoVerify(keys, sent, 6, 300, mac).Verified? <==> GoVerify(keys, other, 6, 300, mac).Verified?
  {
    DottedContent();
    assert Value("5") == 5 && Value("7") == 7;
    hide SignedContent, TextMatch, Candidates, Split, Octets, Value;
  }

  lemma DottedContent()
    ensures SignedContent("a", "5", Octets("b.7.c")) == SignedContent("a.5.b", "7", Octets("c"))
  {
  }
}
