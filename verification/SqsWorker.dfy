/**
 * The two FIFO workers: what each reads out of a message body, and the batch
 * loop they share, as a run of the machine in `Fifo`.
 */
module SqsWorker {
  import opened Text
  import opened Json
  import opened Fifo
  import opened JavaScript
  import ClaimCheck
  import ClaimRef
  import Keys
  import Message

  // ---------------------------------------------------------------------
  // The TypeScript worker's `parse`, `resolveBody` and `handleHook`
  // ---------------------------------------------------------------------

  const SUPPORTED := Some(JNumber(1.0))

  function SourceOf(o: Members, rt: Runtime): ClaimCheck.Source {
    if Truthy(Get(o, Claim)) && Truthy(Get(o, Sha256)) then
      match RedeemArguments(o[Claim], o[Sha256], rt)
      case None => ClaimCheck.Unresolvable
      case Some((claim, digest)) => ClaimCheck.ByClaim(claim, digest)
    else if Bufferable(Get(o, BodyBase64), rt) then ClaimCheck.Inline
    else ClaimCheck.Unresolvable
  }

  /** The members the handler prints. */
  predicate Printable(o: Members, rt: Runtime) {
    Prints(Get(o, Id), rt) && Prints(Get(o, SourceId), rt) && Prints(Get(o, TenantId), rt) && Prints(Get(o, Size), rt)
  }

  /**
   * `null` throws on the look at its version, and every other value but an
   * object has none. The error for an unsupported version prints it.
   */
  function Parse(input: Input, rt: Runtime): Reading {
    if input.NotJson? then Unreadable(true)
    else if input.value.JNull? then Explodes
    else if !input.value.JObject? then Unreadable(true)
    else
      var o := input.value.members;
      if Get(o, V) != SUPPORTED then (if Prints(Get(o, V), rt) then Unreadable(true) else Explodes)
      else if Truthy(Get(o, Claim)) && !Truthy(Get(o, Sha256)) then Unreadable(true)
      else Hook(Get(o, Id), SourceOf(o, rt), Handling(!Printable(o, rt), false, false))
  }

  /** The claim throws on its way to the gateway. */
  predicate ClaimThrows(claim: Json, digest: Json, rt: Runtime) {
    !Coercible(claim, rt.stack) || (ClaimRef.Parse(RefText(claim)).Some? && !Coercible(digest, rt.stack))
  }

  /**
   * The bodies a worker of this kind can only back off, given whether it knows
   * their id: `null`; an unsupported version that does not convert to text;
   * and, for an unknown id, a claim that throws on its way to the gateway, or
   * no claim and an inline body no buffer is made of or a printed member that
   * does not convert to text.
   */
  predicate Poison(input: Input, known: bool, rt: Runtime) {
    input.Parsed? &&
    match input.value
    case JNull => true
    case JObject(o) =>
      if Get(o, V) != SUPPORTED then V in o && !Coercible(o[V], rt.stack)
      else if known then false
      else if Truthy(Get(o, Claim)) then Truthy(Get(o, Sha256)) && ClaimThrows(o[Claim], o[Sha256], rt)
      else
        || !Bufferable(Get(o, BodyBase64), rt)
        || (exists key :: key in {Id, SourceId, TenantId, Size} && key in o && !Coercible(o[key], rt.stack))
    case _ => false
  }

  /** The id of an object body is among these ids. */
  predicate KnownBody(ids: set<DedupeId>, i: nat, input: Input) {
    input.Parsed? && input.value.JObject? && Known(ids, Identity(i, Get(input.value.members, Id)))
  }

  /** An id that is an object or an array is never known; any other is, by its value. */
  lemma KnownExactly(ids: set<DedupeId>, i: nat, input: Input)
    ensures KnownBody(ids, i, input) <==>
            && input.Parsed? && input.value.JObject?
            && var id := Get(input.value.members, Id);
               !(id.Some? && id.value.JObject?) && !(id.Some? && id.value.JArray?) && ByValue(id) in ids
  {
  }

  lemma PoisonIsStuck(group: string, input: Input, known: bool, rt: Runtime)
    ensures Stuck(QueueMessage(group, Parse(input, rt)), known) <==> Poison(input, known, rt)
  {
    hide Coercible, Bufferable, RefText, ClaimRef.Parse, Truthy;
    if input.Parsed? && input.value.JObject? {
      PrintableMembers(input.value.members, rt);
    }
    hide Printable, Prints;
  }

  /** Poison is the exact condition: the first message of a group can be settled by an idle worker unless it is poison to it. */
  lemma PoisonExactly(s: State, w: nat, i: nat, input: Input, rt: Runtime, sha: Bytes -> string)
    requires Inv(s) && w < |s.workers| && Idle(s.workers[w]) && i in s.live
    requires forall j: nat :: j in s.live && SameGroup(s, j, i) ==> i <= j
    requires s.log[i].reading == Parse(input, rt)
    ensures Enabled(s, Receive(w, [i])) && InHand(Next(s, Receive(w, [i]), sha), w)
    ensures (exists reply :: i !in Pass(Next(s, Receive(w, [i]), sha), w, reply, true, sha).live) <==>
            !Poison(input, KnownBody(s.workers[w].processed, i, input), rt)
  {
    PoisonToWorker(s.log[i], s.workers[w].processed, i, input, rt);
    hide Parse, Poison, Pass, Stuck, Inv;
    var prints := (reply: ClaimCheck.Reply) => true;
    FirstOfGroupSettles(s, w, i, prints, sha);
    assert forall reply :: Pass(Next(s, Receive(w, [i]), sha), w, reply, prints(reply), sha)
                           == Pass(Next(s, Receive(w, [i]), sha), w, reply, true, sha);
  }

  /**
   * The bodies that end on the dead-letter queue: text that is not JSON; a
   * value that is neither `null` nor an object; a version other than 1 that
   * prints; a claim with no digest; and, for an unknown id, a claim with a
   * final outcome.
   */
  predicate DeadLettersBody(input: Input, known: bool, reply: ClaimCheck.Reply, rt: Runtime, sha: Bytes -> string) {
    match input
    case NotJson => true
    case Parsed(JNull) => false
    case Parsed(JObject(o)) =>
      if Get(o, V) != Some(JNumber(1.0)) then V in o ==> Coercible(o[V], rt.stack)
      else
        && Truthy(Get(o, Claim))
        && (!Truthy(Get(o, Sha256)) || (!known && FinalFor(o[Claim], o[Sha256], reply, rt, sha)))
    case Parsed(_) => true
  }

  /** A version 1 object that is not refused out of hand. */
  predicate IsHook(input: Input) {
    && input.Parsed? && input.value.JObject?
    && var o := input.value.members;
       Get(o, V) == Some(JNumber(1.0)) && (Truthy(Get(o, Claim)) ==> Truthy(Get(o, Sha256)))
  }

  /** The hooks that are handled: an unknown id, printable members, and a body in hand. */
  predicate HandlesBody(input: Input, known: bool, reply: ClaimCheck.Reply, rt: Runtime, sha: Bytes -> string) {
    && IsHook(input) && !known
    && var o := input.value.members;
       && (forall key :: key in {Id, SourceId, TenantId, Size} && key in o ==> Coercible(o[key], rt.stack))
       && (if Truthy(Get(o, Claim)) then DeliversFor(o[Claim], o[Sha256], reply, rt, sha) else Bufferable(Get(o, BodyBase64), rt))
  }

  /**
   * By which exit a body leaves, gateway reply by gateway reply, for an idle
   * TypeScript worker and the first message of a group: the dead-letter queue,
   * the handler and a delete, a delete alone for an id it knows, or not at all.
   */
  lemma BodyExits(s: State, w: nat, i: nat, input: Input, reply: ClaimCheck.Reply, rt: Runtime, sha: Bytes -> string)
    requires Inv(s) && w < |s.workers| && Idle(s.workers[w]) && i in s.live
    requires forall j: nat :: j in s.live && SameGroup(s, j, i) ==> i <= j
    requires s.log[i].reading == Parse(input, rt)
    ensures Enabled(s, Receive(w, [i])) && InHand(Next(s, Receive(w, [i]), sha), w)
    ensures var t := Pass(Next(s, Receive(w, [i]), sha), w, reply, true, sha);
            var known := KnownBody(s.workers[w].processed, i, input);
            var dead, handled := DeadLettersBody(input, known, reply, rt, sha), HandlesBody(input, known, reply, rt, sha);
            && t.dlq == (if dead then s.dlq + [i] else s.dlq)
            && t.handled == (if handled then s.handled + {Identity(i, Get(input.value.members, Id))} else s.handled)
            && t.live == (if dead || handled || (IsHook(input) && known) then s.live - {i} else s.live)
  {
    ExitsOfParse(s.log[i], s.workers[w].processed, i, input, reply, rt, sha);
    hide Parse, Pass, Inv, SettledBy, DeadLettersIt, HandlesIt, DeadLettersBody, HandlesBody, IsHook;
    FirstOfGroupEffect(s, w, i, reply, true, sha);
  }

  lemma ExitsOfParse(m: QueueMessage, ids: set<DedupeId>, i: nat, input: Input, reply: ClaimCheck.Reply, rt: Runtime,
                     sha: Bytes -> string)
    requires m.reading == Parse(input, rt)
    ensures var known := m.reading.Hook? && Known(ids, Identity(i, m.reading.id));
            var known' := KnownBody(ids, i, input);
            && (DeadLettersIt(m, known, reply, true, sha) <==> DeadLettersBody(input, known', reply, rt, sha))
            && (HandlesIt(m, known, reply, sha) <==> HandlesBody(input, known', reply, rt, sha))
            && (SettledBy(m, known, reply, true, sha) <==>
                  || DeadLettersBody(input, known', reply, rt, sha) || HandlesBody(input, known', reply, rt, sha)
                  || (IsHook(input) && known'))
            && (IsHook(input) ==> m.reading.Hook? && m.reading.id == Get(input.value.members, Id))
  {
    hide Coercible, Bufferable, RedeemArguments, Truthy, ClaimCheck.Final, ClaimCheck.Delivers, ClaimCheck.Requestable, ClaimCheck.Quoted;
    if input.Parsed? && input.value.JObject? {
      PrintableMembers(input.value.members, rt);
      if m.reading.Hook? {
        ClaimCheck.FinalOrDelivered(m.reading.source, reply, sha);
      }
    }
    hide Printable, Prints;
  }

  lemma PrintableMembers(o: Members, rt: Runtime)
    ensures Printable(o, rt) <==> forall key :: key in {Id, SourceId, TenantId, Size} && key in o ==> Coercible(o[key], rt.stack)
    ensures Prints(Get(o, V), rt) <==> (V in o ==> Coercible(o[V], rt.stack))
  {
    assert forall key :: key in {Id, SourceId, TenantId, Size} ==> (Prints(Get(o, key), rt) <==> key !in o || Coercible(o[key], rt.stack));
  }

  /** A body that is not read as a hook is stuck or not whoever reads it. */
  lemma PoisonToWorker(m: QueueMessage, ids: set<DedupeId>, i: nat, input: Input, rt: Runtime)
    requires m.reading == Parse(input, rt)
    ensures var known := m.reading.Hook? && Known(ids, Identity(i, m.reading.id));
            Stuck(m, known) <==> Poison(input, KnownBody(ids, i, input), rt)
  {
    PoisonIsStuck(m.group, input, KnownBody(ids, i, input), rt);
    assert m == QueueMessage(m.group, Parse(input, rt));
    hide Poison, SourceOf, Printable, Truthy, Prints;
  }

  /**
   * A message that is poison to a worker knowing every id handled so far was
   * never removed or dead-lettered by a worker, in any run without a redrive
   * of it, and holds up its group.
   */
  lemma PoisonBlocks(n: nat, actions: seq<Action>, sha: Bytes -> string, i: nat, input: Input, rt: Runtime, a: Action)
    requires Run(n, actions, sha).Some? && Redrive(i) !in actions
    requires var s := Run(n, actions, sha).value;
             && i < |s.log| && s.log[i].reading == Parse(input, rt)
             && Poison(input, KnownBody(s.handled, i, input), rt)
    requires var s := Run(n, actions, sha).value; Enabled(s, a) && Touched(s, a).Some?
    ensures var s := Run(n, actions, sha).value;
            i in s.live && !(i < Touched(s, a).value && SameGroup(s, i, Touched(s, a).value))
  {
    var s := Run(n, actions, sha).value;
    PoisonToWorker(s.log[i], s.handled, i, input, rt);
    assert Held(s, i) by {
      hide Poison, SourceOf, Printable, Truthy, Prints, Run;
    }
    hide Run, Parse, Poison, Touched, Enabled, Held;
    HeldBlocksGroup(n, actions, sha, i);
  }

  /** A value that does not convert to text. */
  const HIDDEN := JObject(map[TO_STRING := JNumber(0.0)])

  /** One body of each kind, and an odd one that is not poison. */
  lemma SomePoison(known: bool, rt: Runtime)
    ensures Poison(Parsed(JNull), known, rt)
    ensures Poison(Parsed(JObject(map[V := HIDDEN])), known, rt)
    ensures Poison(Parsed(JObject(map[V := JNumber(1.0), Id := HIDDEN])), false, rt)
    ensures Poison(Parsed(JObject(map[V := JNumber(1.0), BodyBase64 := JNumber(7.0)])), false, rt)
    ensures !Poison(Parsed(JObject(map[V := JNumber(1.0), BodyBase64 := JObject(map[LENGTH := JNumber(0.0)])])), false, rt)
  {
    var o := map[V := JNumber(1.0), Id := HIDDEN];
    assert Id in {Id, SourceId, TenantId, Size} && Id in o && !Coercible(o[Id], rt.stack);
  }

  /** So a body of `null` blocks its group in every run without a redrive of it. */
  lemma NullBlocks(n: nat, actions: seq<Action>, sha: Bytes -> string, i: nat, rt: Runtime, a: Action)
    requires Run(n, actions, sha).Some? && Redrive(i) !in actions
    requires var s := Run(n, actions, sha).value; i < |s.log| && s.log[i].reading == Parse(Parsed(JNull), rt)
    requires var s := Run(n, actions, sha).value; Enabled(s, a) && Touched(s, a).Some?
    ensures var s := Run(n, actions, sha).value;
            i in s.live && !(i < Touched(s, a).value && SameGroup(s, i, Touched(s, a).value))
  {
    PoisonBlocks(n, actions, sha, i, Parsed(JNull), rt, a);
  }

  // ---------------------------------------------------------------------
  // The Python worker's `process`
  // ---------------------------------------------------------------------

  /** What the decoder does: lets some other exception through, refuses with a reason, or returns a message. */
  datatype Decoding = Escapes | Refused(reason: string) | Decoded(message: Message.Message)

  /**
   * Standard output: the text its encoding takes; what is shown of a body, the
   * first 200 bytes of it decoded with replacements; and the text of the error
   * a reply of the gateway's leads to.
   */
  datatype Output = Output(prints: string -> bool, shown: Bytes -> string, failure: ClaimCheck.Reply -> string)

  function KeyOf(m: Message.Message): string { Keys.IdempotencyKeyOf(m, false) }

  predicate OnClaim(m: Message.Message) { m.claim.Some? && m.claim.value != "" }

  function BodyOf(m: Message.Message): Bytes { if m.body.Some? then m.body.value else [] }

  /**
   * Decoding first, then the key; a claim is redeemed, anything else is inline.
   * A refusal is printed before it is dead-lettered. A known key is printed
   * with the source; after a hook's key is remembered, its id, source and body
   * are.
   */
  function Process(d: Decoding, out: Output): Reading {
    match d
    case Escapes => Explodes
    case Refused(reason) => Unreadable(out.prints(reason))
    case Decoded(m) =>
      Hook(Some(JString(KeyOf(m))),
           if OnClaim(m) then ClaimCheck.ByClaim(m.claim.value, if m.sha256.Some? then m.sha256.value else "")
           else ClaimCheck.Inline,
           Handling(false,
                    !(out.prints(m.id) && out.prints(m.sourceId) && (OnClaim(m) || out.prints(out.shown(BodyOf(m))))),
                    !(out.prints(KeyOf(m)) && out.prints(m.sourceId))))
  }

  /** Whether what is printed once the gateway has answered can be. */
  function PrintsOf(out: Output): ClaimCheck.Reply -> bool {
    (reply: ClaimCheck.Reply) =>
      if reply.Response? && reply.status == 200 then out.prints(out.shown(reply.body)) else out.prints(out.failure(reply))
  }

  /**
   * The bodies the Python worker can only back off or die of, given whether it
   * knows their key: one its decoder raises something else on, one refused with
   * a reason that cannot be printed, a known key that cannot be printed with
   * its source, and an inline hook of which the id, the source or the start of
   * the body cannot.
   */
  predicate Unprocessable(d: Decoding, known: bool, out: Output) {
    match d
    case Escapes => true
    case Refused(reason) => !out.prints(reason)
    case Decoded(m) =>
      if known then !out.prints(KeyOf(m)) || !out.prints(m.sourceId)
      else !OnClaim(m) && !(out.prints(m.id) && out.prints(m.sourceId) && out.prints(out.shown(BodyOf(m))))
  }

  predicate KnownKey(ids: set<DedupeId>, d: Decoding) {
    d.Decoded? && ByValue(Some(JString(KeyOf(d.message)))) in ids
  }

  /** An idle Python worker can settle the first message of a group exactly when it is processable, on any output. */
  lemma UnprocessableExactly(s: State, w: nat, i: nat, d: Decoding, out: Output, sha: Bytes -> string)
    requires Inv(s) && w < |s.workers| && Idle(s.workers[w]) && i in s.live
    requires forall j: nat :: j in s.live && SameGroup(s, j, i) ==> i <= j
    requires s.log[i].reading == Process(d, out)
    ensures Enabled(s, Receive(w, [i])) && InHand(Next(s, Receive(w, [i]), sha), w)
    ensures (exists reply :: i !in Pass(Next(s, Receive(w, [i]), sha), w, reply, PrintsOf(out)(reply), sha).live) <==>
            !Unprocessable(d, KnownKey(s.workers[w].processed, d), out)
  {
    assert i < |s.log|;
    assert Stuck(s.log[i], KnownTo(s, w, i)) <==> Unprocessable(d, KnownKey(s.workers[w].processed, d), out) by {
      hide Inv, Keys.IdempotencyKeyOf, PrintsOf;
    }
    hide Pass, Inv, PrintsOf, Stuck, Unprocessable, Process;
    FirstOfGroupSettles(s, w, i, PrintsOf(out), sha);
  }

  function ClaimText(m: Message.Message): string { if m.claim.Some? then m.claim.value else "" }

  function DigestText(m: Message.Message): string { if m.sha256.Some? then m.sha256.value else "" }

  /** The message has a claim, and the gateway's answer for it and its digest is final and can be reported. */
  predicate FinalClaim(m: Message.Message, reply: ClaimCheck.Reply, out: Output, sha: Bytes -> string) {
    && ClaimText(m) != "" && ClaimCheck.Final(ClaimText(m), DigestText(m), reply, sha)
    && (ClaimCheck.Requestable(ClaimText(m), DigestText(m)) && ClaimCheck.Quoted(reply) ==> out.prints(out.failure(reply)))
  }

  predicate BodyInHand(m: Message.Message, reply: ClaimCheck.Reply, sha: Bytes -> string) {
    ClaimText(m) != "" ==> ClaimCheck.Delivers(ClaimText(m), DigestText(m), reply, sha)
  }

  /** The id, the source and the start of the body in hand print. */
  predicate HookPrints(m: Message.Message, reply: ClaimCheck.Reply, out: Output) {
    && out.prints(m.id) && out.prints(m.sourceId)
    && out.prints(out.shown(if ClaimText(m) != "" && reply.Response? then reply.body else if m.body.Some? then m.body.value else []))
  }

  /**
   * By which exit a decoding leaves, for an idle Python worker and the first
   * message of a group. The id handled is the idempotency key without the
   * replay suffix.
   */
  lemma DecodingExits(s: State, w: nat, i: nat, d: Decoding, reply: ClaimCheck.Reply, out: Output, sha: Bytes -> string)
    requires Inv(s) && w < |s.workers| && Idle(s.workers[w]) && i in s.live
    requires forall j: nat :: j in s.live && SameGroup(s, j, i) ==> i <= j
    requires s.log[i].reading == Process(d, out)
    ensures Enabled(s, Receive(w, [i])) && InHand(Next(s, Receive(w, [i]), sha), w)
    ensures var t := Pass(Next(s, Receive(w, [i]), sha), w, reply, PrintsOf(out)(reply), sha);
            && (d.Escapes? ==> t.dlq == s.dlq && t.handled == s.handled && t.live == s.live)
            && (d.Refused? ==>
                  && t.handled == s.handled
                  && t.dlq == (if out.prints(d.reason) then s.dlq + [i] else s.dlq)
                  && t.live == (if out.prints(d.reason) then s.live - {i} else s.live))
    ensures var t := Pass(Next(s, Receive(w, [i]), sha), w, reply, PrintsOf(out)(reply), sha);
            d.Decoded? ==>
              var m := d.message;
              var key := Keys.IdempotencyKeyOf(m, false);
              var known := ByValue(Some(JString(key))) in s.workers[w].processed;
              var dead, handled := !known && FinalClaim(m, reply, out, sha), !known && BodyInHand(m, reply, sha);
              && t.dlq == (if dead then s.dlq + [i] else s.dlq)
              && t.handled == (if handled then s.handled + {ByValue(Some(JString(key)))} else s.handled)
              && t.live == (if dead || (handled && HookPrints(m, reply, out)) || (known && out.prints(key) && out.prints(m.sourceId))
                            then s.live - {i} else s.live)
  {
    FirstOfGroupEffect(s, w, i, reply, PrintsOf(out)(reply), sha);
    if d.Decoded? {
      ExitsOfProcess(s.log[i], KnownTo(s, w, i), d.message, reply, out, sha);
    }
    hide Pass, Inv, Keys.IdempotencyKeyOf, PrintsOf, ClaimCheck.Final, ClaimCheck.Delivers, ClaimCheck.Requestable, ClaimCheck.Quoted;
    hide FinalClaim, BodyInHand, HookPrints;
  }

  lemma ExitsOfProcess(q: QueueMessage, known: bool, m: Message.Message, reply: ClaimCheck.Reply, out: Output, sha: Bytes -> string)
    requires q.reading == Process(Decoded(m), out)
    ensures var prints := PrintsOf(out)(reply);
            var dead, handled := !known && FinalClaim(m, reply, out, sha), !known && BodyInHand(m, reply, sha);
            && (DeadLettersIt(q, known, reply, prints, sha) <==> dead)
            && (HandlesIt(q, known, reply, sha) <==> handled)
            && (SettledBy(q, known, reply, prints, sha) <==>
                  || dead || (handled && HookPrints(m, reply, out))
                  || (known && out.prints(Keys.IdempotencyKeyOf(m, false)) && out.prints(m.sourceId)))
  {
    hide Keys.IdempotencyKeyOf, ClaimCheck.Requestable;
  }

  /**
   * An inline hook whose source cannot be printed is handled, then backed off
   * for good: it never leaves the queue in a run without a redrive of it.
   */
  lemma UnprintableSourceBlocks(n: nat, actions: seq<Action>, sha: Bytes -> string, i: nat, m: Message.Message,
                                out: Output, a: Action)
    requires Run(n, actions, sha).Some? && Redrive(i) !in actions && !OnClaim(m) && !out.prints(m.sourceId)
    requires var s := Run(n, actions, sha).value;
             i < |s.log| && s.log[i].reading == Process(Decoded(m), out)
    requires var s := Run(n, actions, sha).value; Enabled(s, a) && Touched(s, a).Some?
    ensures var s := Run(n, actions, sha).value;
            i in s.live && !(i < Touched(s, a).value && SameGroup(s, i, Touched(s, a).value))
  {
    hide Run, Touched, Enabled, Keys.IdempotencyKeyOf;
    HeldBlocksGroup(n, actions, sha, i);
  }

  // ---------------------------------------------------------------------
  // The batch loop
  // ---------------------------------------------------------------------

  /** `Uncaught` is an exception out of the catch clause's own print: the process is gone. */
  datatype Caught = Nothing | PermanentError | OtherError | Uncaught

  /**
   * One worker process, `me` of the `n` that share the queue. `log`, `live`,
   * `dlq` and `handled` are the outside world; `processed` is the process's
   * own. `state` and `trace` are the machine of `Fifo` run alongside.
   */
  class BatchWorker {
    const me: nat
    const n: nat
    const sha: Bytes -> string
    var log: seq<QueueMessage>
    var live: set<nat>
    var dlq: seq<nat>
    var handled: set<DedupeId>
    var processed: set<DedupeId>
    ghost var state: State
    ghost var trace: seq<Action>

    ghost predicate Valid()
      reads this
    {
      && Run(n, trace, sha) == Some(state)
      && me < |state.workers|
      && log == state.log && live == state.live && dlq == state.dlq && handled == state.handled
      && processed == Self().processed
    }

    /** This process as the machine sees it. */
    ghost function Self(): Worker
      requires me < |state.workers|
      reads this
    {
      state.workers[me]
    }

    constructor (me: nat, n: nat, sha: Bytes -> string)
      requires me < n
      ensures Valid() && Idle(Self()) && this.me == me && this.n == n && this.sha == sha && processed == {}
    {
      this.me, this.n, this.sha := me, n, sha;
      log, live, dlq, handled, processed := [], {}, [], {}, {};
      state, trace := Initial(n), [];
    }

    /** Runs the machine one step along. */
    ghost method Record(a: Action)
      requires Run(n, trace, sha) == Some(state) && Enabled(state, a)
      modifies this`state, this`trace
      ensures trace == old(trace) + [a] && state == Next(old(state), a, sha)
      ensures Run(n, trace, sha) == Some(state) && |state.workers| == |old(state).workers|
    {
      trace := trace + [a];
      assert trace[..|trace| - 1] == old(trace);
      state := Next(state, a, sha);
    }

    /** While this process awaits, the queue and the other processes do as they like. */
    method Await()
      requires Valid()
      modifies this
      ensures Valid() && Self() == old(Self()) && processed == old(processed)
      ensures old(trace) <= trace && old(log) <= log
    {
    }

    /** The request settles one way or another, and the process cannot choose which. */
    method Request() returns (ack: Ack)
      requires Valid()
      modifies this
      ensures Valid() && Self() == old(Self()) && processed == old(processed)
      ensures old(trace) <= trace && old(log) <= log
    {
      Await();
      ack := *;
    }

    /** `ChangeMessageVisibility`; a failure escapes the loop and ends the process. */
    method BackOffMessage() returns (ok: bool)
      requires Valid() && Busy(state, me, BackingOff)
      modifies this
      ensures Valid() && old(trace) <= trace && old(log) <= log
      ensures ok ==> Self() == Finish(old(Self()), BackedOff) && processed == old(processed)
      ensures !ok ==> Self() == Started && processed == {}
    {
      var ack := Request();
      Record(BackOff(me, ack));
      ok := ack.Done?;
      if !ok {
        processed := {};
      }
    }

    /** `DeleteMessage` for the message in hand. */
    method RemoveMessage(i: nat) returns (ok: bool)
      requires Valid() && Busy(state, me, Removing) && Current(state, me) == i
      modifies this
      ensures Valid() && old(trace) <= trace && old(log) <= log && processed == old(processed)
      ensures Self() == if ok then Finish(old(Self()), Removed) else Block(old(Self()), old(log[i].group))
    {
      var ack := Request();
      Record(Remove(me, ack));
      if !ack.Refused? {
        live := live - {i};
      }
      ok := ack.Done?;
    }

    /** Send, then delete; either failing ends the process. */
    method DeadLetter(i: nat) returns (ok: bool)
      requires Valid() && Busy(state, me, Sending) && Current(state, me) == i
      modifies this
      ensures Valid() && old(trace) <= trace && old(log) <= log
      ensures ok ==> Self() == Finish(old(Self()), DeadLettered) && processed == old(processed)
      ensures !ok ==> Self() == Started && processed == {}
    {
      hide Run;
      var ack := Request();
      Record(Send(me, ack));
      if !ack.Refused? {
        dlq := dlq + [i];
      }
      if !ack.Done? {
        processed := {};
        return false;
      }
      ok := RemoveSent(i);
    }

    method RemoveSent(i: nat) returns (ok: bool)
      requires Valid() && Busy(state, me, RemovingDead) && Current(state, me) == i
      modifies this
      ensures Valid() && old(trace) <= trace && old(log) <= log
      ensures ok ==> Self() == Finish(old(Self()), DeadLettered) && processed == old(processed)
      ensures !ok ==> Self() == Started && processed == {}
    {
      var ack := Request();
      Record(RemoveDead(me, ack));
      if !ack.Refused? {
        live := live - {i};
      }
      ok := ack.Done?;
      if !ok {
        processed := {};
      }
    }

    /**
     * The body of the `try`: read, skip what is processed, resolve, handle,
     * remember, delete; and the print a catch clause starts with.
     */
    method TryMessage(i: nat) returns (caught: Caught)
      requires Valid() && Busy(state, me, Head) && Current(state, me) == i
      requires log[i].group !in Self().blocked
      modifies this
      ensures Valid() && old(trace) <= trace && old(log) <= log
      ensures caught.Uncaught? ==> Self() == Started && processed == {}
      ensures !caught.Uncaught? ==> Self().batch == old(Self().batch) && old(processed) <= processed
      ensures caught.Nothing? ==> Self().point.Head? && Self().fates == old(Self().fates) + [Removed]
      ensures caught.PermanentError? ==> Self().point.Sending? && Self().fates == old(Self().fates)
      ensures caught.Nothing? || caught.PermanentError? ==> Self().blocked == old(Self().blocked)
      ensures caught.OtherError? ==> Self().point.BackingOff? && Self().fates == old(Self().fates)
      ensures caught.OtherError? ==> Self().blocked == old(Self().blocked) + {old(log[i].group)}
    {
      hide Run, ClaimCheck.ResolveBody;
      Record(Look(me));
      var reading := log[i].reading;
      if reading.Unreadable? {
        caught := Report(PermanentError, reading.reported);
        return;
      }
      if reading.Explodes? {
        return OtherError;
      }
      if Known(processed, Identity(i, reading.id)) {
        if reading.handling.failsAgain {
          return OtherError;
        }
      } else {
        caught := ResolveAndHandle(i);
        if !caught.Nothing? {
          return;
        }
      }
      var ok := RemoveMessage(i);
      caught := if ok then Nothing else OtherError;
    }

    /** Resolve the body, hand it to the handler and remember the id. */
    method ResolveAndHandle(i: nat) returns (caught: Caught)
      requires Valid() && Busy(state, me, Resolving) && Current(state, me) == i && log[i].reading.Hook?
      modifies this
      ensures Valid() && old(trace) <= trace && old(log) <= log
      ensures caught.Uncaught? ==> Self() == Started && processed == {}
      ensures !caught.Uncaught? ==>
                && Self().batch == old(Self().batch) && Self().fates == old(Self().fates) && old(processed) <= processed
                && Self().blocked == old(Self().blocked) + (if caught.OtherError? then {old(log[i].group)} else {})
      ensures caught.Nothing? ==> Busy(state, me, Removing) && Current(state, me) == i && Identity(i, log[i].reading.id) in processed
      ensures caught.PermanentError? ==> Self().point.Sending?
      ensures caught.OtherError? ==> Self().point.BackingOff?
    {
      hide Run, ClaimCheck.ResolveBody;
      Await();
      var reading := log[i].reading;
      var reply: ClaimCheck.Reply, prints: bool := *, *;
      var resolution := ClaimCheck.ResolveBody(reading.source, reply, sha);
      Record(Resolve(me, reply, prints));
      if !resolution.Resolved? {
        caught := Report(if resolution.Permanent? then PermanentError else OtherError, !resolution.quotes || prints);
        return;
      }
      if reading.handling.failsBefore {
        return OtherError;
      }
      var id := Identity(i, reading.id);
      handled := handled + {id};
      processed := processed + {id};
      caught := if FailsAfter(reading, prints) then OtherError else Nothing;
    }

    /** The print at the start of a catch clause; one that throws takes the process and its memory with it. */
    method Report(caught: Caught, prints: bool) returns (r: Caught)
      modifies this`processed
      ensures r == if prints then caught else Uncaught
      ensures processed == if prints then old(processed) else {}
    {
      r := caught;
      if !prints {
        processed := {};
        r := Uncaught;
      }
    }

    /**
     * One batch. Unless the process dies, every message gets exactly one fate,
     * in each group the settled ones come first, and a fate tells the truth:
     * a removed message is off the queue with its id processed, a
     * dead-lettered one is off the queue and on the dead-letter queue.
     */
    method ProcessBatch(messages: seq<nat>) returns (died: bool, fates: seq<Fate>)
      requires Valid() && Idle(Self()) && FifoBatch(state, messages)
      modifies this
      ensures Valid() && old(trace) <= trace && old(log) <= log
      ensures died ==> Self() == Started
      ensures !died ==> Idle(Self()) && |fates| == |messages| && old(processed) <= processed
      ensures !died ==> InLog(state, Self()) && Self().batch == messages && Self().fates == fates
      ensures !died ==> SettledFirst(state, Self()) && FatesTrue(state, Self())
    {
      hide Run, FifoBatch, SettledFirst, FatesTrue;
      BatchInLog(n, trace, sha, messages);
      Record(Receive(me, messages));
      var blocked: set<string> := {};
      fates := [];
      for k := 0 to |messages|
        invariant Valid() && old(trace) <= trace && old(log) <= log && old(processed) <= processed
        invariant Self().batch == messages && Self().fates == fates && |fates| == k
        invariant Self().point.Head? && Self().blocked == blocked
        invariant forall j :: 0 <= j < |messages| ==> messages[j] < |log|
      {
        var i := messages[k];
        var group := log[i].group;
        var ok: bool;
        if group in blocked {
          Record(Look(me));
          ok := BackOffMessage();
          fates := fates + [BackedOff];
        } else {
          var caught := TryMessage(i);
          match caught
          case Uncaught =>
            return true, fates;
          case Nothing =>
            ok := true;
            fates := fates + [Removed];
          case PermanentError =>
            ok := DeadLetter(i);
            fates := fates + [DeadLettered];
          case OtherError =>
            blocked := blocked + {group};
            ok := BackOffMessage();
            fates := fates + [BackedOff];
        }
        if !ok {
          return true, fates;
        }
      }
      died := false;
      SettledPrefix(n, trace, sha, me);
    }
  }
}
