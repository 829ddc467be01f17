/**
 * Claim-check refs: `urn:ankusa:claim:v1:<tenant>:<claim_id>` and the signed
 * `urn:ankusa:claim:v2:<tenant>:<claim_id>:<exp>:<signature>`.
 *
 * `Parse` is the Rust SDK's hand-written parser; `Matches` is the pair of
 * regular expressions of the TypeScript SDK, stated as a grammar.
 */
module ClaimRef {
  import opened Text

  const PREFIX := "urn:ankusa:claim:v1:"
  const PREFIX_V2 := "urn:ankusa:claim:v2:"

  datatype Proof = Proof(exp: string, sig: string)

  datatype Ref = Ref(tenant: string, claimId: string, proof: Option<Proof>)

  // The parser's character tests.

  predicate IsSafe(c: char) { IsAlnum(c) || c == '_' || c == '-' }

  predicate IsTenant(s: string) {
    s != "" && |s| <= 64 && forall c :: c in s ==> IsSafe(c)
  }

  predicate IsExp(s: string) {
    s != "" && |s| <= 12 && s[0] != '0' && forall c :: c in s ==> IsDigit(c)
  }

  predicate IsSignature(s: string) {
    |s| == 43 && forall c :: c in s ==> IsSafe(c)
  }

  predicate IsCrockford(c: char) {
    IsDigit(c) || 'A' <= c <= 'H' || c == 'J' || c == 'K' || c == 'M' || c == 'N' || 'P' <= c <= 'T' || 'V' <= c <= 'Z'
  }

  predicate IsUlid(s: string) {
    |s| == 26 && '0' <= s[0] <= '7' && forall c :: c in s[1..] ==> IsCrockford(c)
  }

  function Parse(s: string): Option<Ref> {
    if PREFIX_V2 <= s then ParseSigned(s[|PREFIX_V2|..])
    else if PREFIX <= s then ParsePlain(s[|PREFIX|..])
    else None
  }

  function ParsePlain(rest: string): Option<Ref> {
    var cut := SplitOnce(rest, ':');
    if cut.None? then None else Checked(cut.value.0, cut.value.1, None)
  }

  function ParseSigned(rest: string): Option<Ref> {
    var cut := SplitOnce(rest, ':');
    if cut.None? then None else
    var cut2 := SplitOnce(cut.value.1, ':');
    if cut2.None? then None else
    var cut3 := SplitOnce(cut2.value.1, ':');
    if cut3.None? then None else
    var (exp, sig) := cut3.value;
    if !IsExp(exp) || !IsSignature(sig) then None
    else Checked(cut.value.0, cut2.value.0, Some(Proof(exp, sig)))
  }

  function Checked(tenant: string, claimId: string, proof: Option<Proof>): Option<Ref> {
    if !IsTenant(tenant) || !IsUlid(claimId) then None else Some(Ref(tenant, claimId, proof))
  }

  /** The gateway path of a ref. */
  function Path(r: Ref): string { "/v1/claims/" + r.tenant + "/" + r.claimId + Query(r.proof) }

  function Query(proof: Option<Proof>): string {
    if proof.None? then "" else "?exp=" + proof.value.exp + "&sig=" + proof.value.sig
  }

  // The grammar.

  ghost predicate GrammarSafe(s: string, lo: nat, hi: nat) {
    lo <= |s| <= hi && forall k :: 0 <= k < |s| ==> IsAlnum(s[k]) || s[k] in "_-"
  }

  ghost predicate GrammarUlid(s: string) {
    |s| == 26 && s[0] in "01234567" && forall k :: 1 <= k < 26 ==> s[k] in "0123456789ABCDEFGHJKMNPQRSTVWXYZ"
  }

  ghost predicate GrammarExp(s: string) {
    1 <= |s| <= 12 && '1' <= s[0] <= '9' && forall k :: 1 <= k < |s| ==> IsDigit(s[k])
  }

  ghost predicate GrammarParts(r: Ref) {
    && GrammarSafe(r.tenant, 1, 64)
    && GrammarUlid(r.claimId)
    && (r.proof.Some? ==> GrammarExp(r.proof.value.exp) && GrammarSafe(r.proof.value.sig, 43, 43))
  }

  /** The text a ref is written as. */
  function Print(r: Ref): string {
    match r.proof
    case None => PREFIX + (r.tenant + [':'] + r.claimId)
    case Some(p) => PREFIX_V2 + (r.tenant + [':'] + (r.claimId + [':'] + (p.exp + [':'] + p.sig)))
  }

  /** `s` is the text of the ref `r`, read off the two regular expressions. */
  ghost predicate Matches(s: string, r: Ref) { GrammarParts(r) && s == Print(r) }

  predicate ValidParts(r: Ref) {
    && IsTenant(r.tenant)
    && IsUlid(r.claimId)
    && (r.proof.Some? ==> IsExp(r.proof.value.exp) && IsSignature(r.proof.value.sig))
  }

  lemma UlidIsGrammar(s: string)
    ensures IsUlid(s) <==> GrammarUlid(s)
  {
    if |s| == 26 {
      assert forall k :: 1 <= k < 26 ==> s[k] == s[1..][k - 1];
      assert forall c :: IsCrockford(c) <==> c in "0123456789ABCDEFGHJKMNPQRSTVWXYZ";
    }
  }

  lemma ExpIsGrammar(s: string)
    ensures IsExp(s) <==> GrammarExp(s)
  {
    if GrammarExp(s) {
      assert forall k :: 0 <= k < |s| ==> IsDigit(s[k]);
    }
    if IsExp(s) {
      assert s[0] in s;
    }
  }

  lemma SafeIsGrammar(s: string, lo: nat, hi: nat)
    ensures lo <= |s| <= hi && (forall c :: c in s ==> IsSafe(c)) <==> GrammarSafe(s, lo, hi)
  {
    assert forall c :: IsSafe(c) <==> IsAlnum(c) || c in "_-";
    if forall c :: c in s ==> IsSafe(c) {
      assert forall k :: 0 <= k < |s| ==> s[k] in s;
    }
  }

  lemma PartsAreGrammar(r: Ref)
    ensures ValidParts(r) <==> GrammarParts(r)
  {
    SafeIsGrammar(r.tenant, 1, 64);
    UlidIsGrammar(r.claimId);
    if r.proof.Some? {
      ExpIsGrammar(r.proof.value.exp);
      SafeIsGrammar(r.proof.value.sig, 43, 43);
    }
  }

  lemma SafeHasNoPunctuation(s: string)
    requires forall c :: c in s ==> IsSafe(c)
    ensures ':' !in s && '/' !in s && '?' !in s
  {
  }

  lemma UlidHasNoColon(s: string)
    requires IsUlid(s)
    ensures ':' !in s
  {
    assert s == [s[0]] + s[1..];
  }

  lemma StripPrefixes(rest: string)
    ensures !(PREFIX_V2 <= PREFIX + rest)
    ensures PREFIX <= PREFIX + rest && (PREFIX + rest)[|PREFIX|..] == rest
    ensures PREFIX_V2 <= PREFIX_V2 + rest && (PREFIX_V2 + rest)[|PREFIX_V2|..] == rest
  {
    assert (PREFIX + rest)[18] == '1' && PREFIX_V2[18] == '2';
  }

  lemma PlainReads(rest: string, r: Ref)
    ensures ParsePlain(rest) == Some(r) <==> r.proof.None? && ValidParts(r) && rest == r.tenant + [':'] + r.claimId
  {
    if r.proof.None? && ValidParts(r) && rest == r.tenant + [':'] + r.claimId {
      SafeHasNoPunctuation(r.tenant);
      SplitOnceOf(r.tenant, ':', r.claimId);
    }
  }

  lemma SignedReads(rest: string, r: Ref)
    requires r.proof.Some?
    ensures ParseSigned(rest) == Some(r) <==>
            ValidParts(r) &&
            rest == r.tenant + [':'] + (r.claimId + [':'] + (r.proof.value.exp + [':'] + r.proof.value.sig))
  {
    var p := r.proof.value;
    var tail3 := p.exp + [':'] + p.sig;
    var tail2 := r.claimId + [':'] + tail3;
    if ValidParts(r) && rest == r.tenant + [':'] + tail2 {
      SafeHasNoPunctuation(r.tenant);
      UlidHasNoColon(r.claimId);
      SplitOnceOf(r.tenant, ':', tail2);
      SplitOnceOf(r.claimId, ':', tail3);
      SplitOnceOf(p.exp, ':', p.sig);
    }
  }

  /**
   * Parsing succeeds with `r` exactly when the grammar reads `r`: the parser
   * accepts exactly the grammar's strings, the decomposition is unique, and
   * printing the parts gives the ref back.
   */
  lemma ParseIsGrammar(s: string, r: Ref)
    ensures Parse(s) == Some(r) <==> Matches(s, r)
  {
    PartsAreGrammar(r);
    if PREFIX_V2 <= s {
      var rest := s[|PREFIX_V2|..];
      assert s == PREFIX_V2 + rest;
      if r.proof.Some? {
        SignedReads(rest, r);
        StripPrefixes(r.tenant + [':'] + (r.claimId + [':'] + (r.proof.value.exp + [':'] + r.proof.value.sig)));
      } else {
        StripPrefixes(r.tenant + [':'] + r.claimId);
      }
    } else if PREFIX <= s {
      var rest := s[|PREFIX|..];
      assert s == PREFIX + rest;
      PlainReads(rest, r);
      if r.proof.None? {
        StripPrefixes(r.tenant + [':'] + r.claimId);
      }
    }
  }

  /** Refs that ask the gateway for the same path are the same ref. */
  lemma PathIsInjective(s: string, t: string)
    requires Parse(s).Some? && Parse(t).Some?
    requires Path(Parse(s).value) == Path(Parse(t).value)
    ensures s == t
  {
    var x, y := Parse(s).value, Parse(t).value;
    ParseIsGrammar(s, x);
    ParseIsGrammar(t, y);
    PartsAreGrammar(x);
    PartsAreGrammar(y);
    SamePathSameRef(x, y);
  }

  lemma PathTail(r: Ref)
    ensures Path(r)[11..] == r.tenant + ['/'] + (r.claimId + Query(r.proof))
  {
  }

  lemma SamePathSameRef(x: Ref, y: Ref)
    requires ValidParts(x) && ValidParts(y) && Path(x) == Path(y)
    ensures x == y
  {
    PathTail(x);
    PathTail(y);
    SafeHasNoPunctuation(x.tenant);
    SafeHasNoPunctuation(y.tenant);
    var u, v := x.claimId + Query(x.proof), y.claimId + Query(y.proof);
    SameCut(x.tenant, y.tenant, '/', u, v);
    assert x.claimId == u[..26] && y.claimId == v[..26];
    assert Query(x.proof) == u[26..] && Query(y.proof) == v[26..];
    SameQuerySameProof(x.proof, y.proof);
  }

  lemma SameQuerySameProof(p: Option<Proof>, q: Option<Proof>)
    requires p.Some? ==> IsExp(p.value.exp)
    requires q.Some? ==> IsExp(q.value.exp)
    requires Query(p) == Query(q)
    ensures p == q
  {
    if p.Some? && q.Some? {
      QueryTail(p);
      QueryTail(q);
      SameCut(p.value.exp, q.value.exp, '&', "sig=" + p.value.sig, "sig=" + q.value.sig);
      assert p.value.sig == ("sig=" + p.value.sig)[4..];
      assert q.value.sig == ("sig=" + q.value.sig)[4..];
    }
  }

  lemma QueryTail(p: Option<Proof>)
    requires p.Some?
    ensures Query(p)[5..] == p.value.exp + ['&'] + ("sig=" + p.value.sig)
  {
  }

  /** The refs, spelled out: exactly these texts parse, each to its own parts. */
  lemma RefsAre(s: string, r: Ref)
    ensures Parse(s) == Some(r) <==>
            && GrammarParts(r)
            && s == match r.proof
                    case None => "urn:ankusa:claim:v1:" + r.tenant + ":" + r.claimId
                    case Some(p) => "urn:ankusa:claim:v2:" + r.tenant + ":" + r.claimId + ":" + p.exp + ":" + p.sig
  {
    ParseIsGrammar(s, r);
    PrintIs(r);
    hide Parse, Print, GrammarParts;
  }

  lemma PrintIs(r: Ref)
    ensures Print(r) == match r.proof
                        case None => "urn:ankusa:claim:v1:" + r.tenant + ":" + r.claimId
                        case Some(p) => "urn:ankusa:claim:v2:" + r.tenant + ":" + r.claimId + ":" + p.exp + ":" + p.sig
  {
    if r.proof.Some? {
      Colons(PREFIX_V2, r.tenant, r.claimId, r.proof.value.exp, r.proof.value.sig);
    } else {
      assert PREFIX + (r.tenant + [':'] + r.claimId) == PREFIX + r.tenant + ":" + r.claimId;
    }
  }

  lemma Colons(prefix: string, a: string, b: string, c: string, d: string)
    ensures prefix + (a + [':'] + (b + [':'] + (c + [':'] + d))) == prefix + a + ":" + b + ":" + c + ":" + d
  {
    assert c + [':'] + d == c + ":" + d;
    assert b + [':'] + (c + [':'] + d) == b + ":" + c + ":" + d;
    assert a + [':'] + (b + [':'] + (c + [':'] + d)) == a + ":" + b + ":" + c + ":" + d;
  }

  /** The gateway paths, spelled out. */
  lemma PathsAre(tenant: string, claimId: string, exp: string, sig: string)
    ensures Path(Ref(tenant, claimId, None)) == "/v1/claims/" + tenant + "/" + claimId
    ensures Path(Ref(tenant, claimId, Some(Proof(exp, sig)))) ==
            "/v1/claims/" + tenant + "/" + claimId + "?exp=" + exp + "&sig=" + sig
  {
    assert "?exp=" + exp + "&sig=" + sig == Query(Some(Proof(exp, sig)));
  }
}
