/** Redeeming a claim-check ref: one request, one classification, one digest check. */
module ClaimCheck {
  import opened Text
  import ClaimRef
  import Message

  /**
   * What the gateway, or the network in front of it, answers. `renders` says
   * whether an error body can be written into an error's text: one nested too
   * deep cannot, and throws on the way.
   */
  datatype Reply = Unreachable | Response(status: int, body: Bytes, renders: bool)

  /** `Unrendered` is that throw; the others are the client's own errors. */
  datatype Failure =
    | InvalidClaimRef | ClaimNotFound | ClaimRejected(status: int) | ClaimIntegrity | ClaimCheckUnavailable | Unrendered
  {
    predicate Retryable() { ClaimCheckUnavailable? }

    /** The client's own, and not retryable: what the workers dead-letter. */
    predicate Permanent() { !ClaimCheckUnavailable? && !Unrendered? }

    /** Its text quotes the answer or the network's error; the other texts are fixed but for a checked ref. */
    predicate Quotes() { ClaimRejected? || ClaimCheckUnavailable? }
  }

  datatype Redeemed = Body(bytes: Bytes) | Failed(failure: Failure)

  /** The arguments a request is made for: a ref of the grammar and 64 lowercase hex characters. */
  predicate Requestable(claim: string, digest: string) {
    ClaimRef.Parse(claim).Some? && Message.IsHex64(digest)
  }

  /**
   * Statuses that mean "come back": throttled, timed out, or not from the
   * gateway's own contract. Every 4xx but 408 and 429 is final.
   */
  predicate ComeBack(status: int) {
    status == 408 || status == 429 || (status != 200 && !(400 <= status < 500))
  }

  /** No retry can help: nothing to ask for, refused for good, or the wrong bytes. */
  predicate Final(claim: string, digest: string, reply: Reply, sha: Bytes -> string) {
    || !Requestable(claim, digest)
    || (reply.Response? && reply.status == 404)
    || (reply.Response? && 400 <= reply.status < 500 && !ComeBack(reply.status) && reply.renders)
    || (reply.Response? && reply.status == 200 && sha(reply.body) != digest)
  }

  /** The gateway hands back the bytes asked for. */
  predicate Delivers(claim: string, digest: string, reply: Reply, sha: Bytes -> string) {
    Requestable(claim, digest) && reply.Response? && reply.status == 200 && sha(reply.body) == digest
  }

  /** An error about this answer quotes it. */
  predicate Quoted(reply: Reply) {
    reply.Unreachable? || (reply.status != 200 && reply.status != 404 && reply.renders)
  }

  /** One redeem: the checks before the request, the status chain, then the digest. */
  function Redeem(claim: string, digest: string, reply: Reply, sha: Bytes -> string): Redeemed {
    if ClaimRef.Parse(claim).None? then Failed(InvalidClaimRef)
    else if !Message.IsHex64(digest) then Failed(InvalidClaimRef)
    else
      var fetched := Classify(reply);
      if fetched.Failed? then fetched
      else if sha(fetched.bytes) != digest then Failed(ClaimIntegrity)
      else fetched
  }

  function Classify(reply: Reply): Redeemed {
    if reply.Unreachable? then Failed(ClaimCheckUnavailable)
    else if reply.status == 404 then Failed(ClaimNotFound)
    else if reply.status == 408 || reply.status == 429 then Failed(Rendering(reply, ClaimCheckUnavailable))
    else if 400 <= reply.status < 500 then Failed(Rendering(reply, ClaimRejected(reply.status)))
    else if reply.status != 200 then Failed(Rendering(reply, ClaimCheckUnavailable))
    else Body(reply.body)
  }

  function Rendering(reply: Reply, failure: Failure): Failure
    requires reply.Response?
  {
    if reply.renders then failure else Unrendered
  }

  /**
   * The bytes handed back are exactly those of a 200 whose digest is the one
   * asked for. A failure is retryable exactly when a request was made and the
   * network failed or a rendered status says to come back; final exactly when
   * no retry can help; and neither for an answer whose body does not render.
   */
  lemma RedeemOutcome(claim: string, digest: string, reply: Reply, sha: Bytes -> string)
    ensures var r := Redeem(claim, digest, reply, sha);
            && (r.Body? <==> Delivers(claim, digest, reply, sha))
            && (r.Body? ==> r.bytes == reply.body)
    ensures var r := Redeem(claim, digest, reply, sha);
            r.Failed? && r.failure.Retryable() <==>
              Requestable(claim, digest) && (reply.Unreachable? || (ComeBack(reply.status) && reply.renders))
    ensures var r := Redeem(claim, digest, reply, sha);
            r.Failed? && r.failure.Permanent() <==> Final(claim, digest, reply, sha)
    ensures var r := Redeem(claim, digest, reply, sha);
            r.Failed? && r.failure.Quotes() <==> Requestable(claim, digest) && Quoted(reply)
  {
    hide ClaimRef.Parse, Message.IsHex64;
  }

  // ---------------------------------------------------------------------
  // Resolving a body
  // ---------------------------------------------------------------------

  /** Where a body comes from; an unresolvable one throws some other error whatever the gateway says. */
  datatype Source = Unresolvable | Inline | ByClaim(claim: string, digest: string)

  /** How resolving ends: a body, an error no retry helps, or any other; and whether its text quotes the answer. */
  datatype Resolution = Resolved | Permanent(quotes: bool) | Transient(quotes: bool)

  function ResolveBody(source: Source, reply: Reply, sha: Bytes -> string): Resolution {
    match source
    case Unresolvable => Transient(false)
    case Inline => Resolved
    case ByClaim(claim, digest) =>
      var r := Redeem(claim, digest, reply, sha);
      if r.Body? then Resolved
      else if r.failure.Permanent() then Permanent(r.failure.Quotes())
      else Transient(r.failure.Quotes())
  }

  lemma ResolveOutcome(source: Source, reply: Reply, sha: Bytes -> string)
    ensures var r := ResolveBody(source, reply, sha);
            && (r.Permanent? <==> source.ByClaim? && Final(source.claim, source.digest, reply, sha))
            && (r.Resolved? <==> source.Inline? || (source.ByClaim? && Delivers(source.claim, source.digest, reply, sha)))
            && (!r.Resolved? ==> (r.quotes <==> source.ByClaim? && Requestable(source.claim, source.digest) && Quoted(reply)))
  {
    hide Redeem, Final, Requestable, Delivers, Quoted;
    if source.ByClaim? {
      RedeemOutcome(source.claim, source.digest, reply, sha);
    }
  }

  /** No reply both delivers a claim's bytes and ends it. */
  lemma FinalOrDelivered(source: Source, reply: Reply, sha: Bytes -> string)
    ensures source.ByClaim? && Delivers(source.claim, source.digest, reply, sha) ==> !Final(source.claim, source.digest, reply, sha)
  {
    hide Requestable;
  }

  /** A reply on which every body that can be resolved at all leaves the workers' hands. */
  const GONE := Response(404, [], true)

  /** Which error each outcome of a redeem is. */
  lemma ErrorsAre(claim: string, digest: string, reply: Reply, sha: Bytes -> string)
    ensures var r := Redeem(claim, digest, reply, sha);
            && (r == Failed(InvalidClaimRef) <==> !Requestable(claim, digest))
            && (Requestable(claim, digest) ==>
                  && (reply == Unreachable ==> r == Failed(ClaimCheckUnavailable))
                  && (reply.Response? ==>
                        && (reply.status == 404 <==> r == Failed(ClaimNotFound))
                        && (reply.status == 200 && sha(reply.body) != digest <==> r == Failed(ClaimIntegrity))
                        && (reply.status != 404 && reply.status != 200 && !reply.renders <==> r == Failed(Unrendered))
                        && (forall n :: r == Failed(ClaimRejected(n)) <==>
                              n == reply.status && 400 <= n <= 499 && n !in {404, 408, 429} && reply.renders)))
  {
    hide ClaimRef.Parse, Message.IsHex64;
  }
}
