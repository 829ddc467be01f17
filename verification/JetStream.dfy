/**
 * Replicas of a JetStream work-queue consumer. A message leaves the stream by
 * an ack or a term; acks, terms and naks are sent without waiting, so they can
 * be lost. Each replica keeps a bounded memory of the keys it announced. Any
 * message ever published can be delivered to any replica at any time, again
 * and again, and a replica can die at any await.
 */
module JetStream {
  import opened Text
  import ClaimCheck
  import Json
  import Keys
  import Message

  const DEDUPE_CAP := 20000

  /** What decoding a message gives the consumer: an invalid message, or a hook's key and body source. */
  datatype Reading = Invalid | Hook(key: string, source: ClaimCheck.Source)

  function Read(input: Json.Input, sha: Bytes -> string): Reading {
    match Message.Decode(input, sha)
    case Err(_) => Invalid
    case Ok(m) =>
      if m.body.Some? then Hook(Keys.IdempotencyKeyOf(m, false), ClaimCheck.Inline)
      else if m.claim.None? || m.sha256.None? then Invalid
      else Hook(Keys.IdempotencyKeyOf(m, false), ClaimCheck.ByClaim(m.claim.value, m.sha256.value))
  }

  /** The consumer's guard against a claim with no digest never fires: reading fails exactly when decoding does. */
  lemma ReadInvalidExactly(input: Json.Input, sha: Bytes -> string)
    ensures Read(input, sha).Invalid? <==> Message.Decode(input, sha).Err?
  {
    hide Message.Decode, Keys.IdempotencyKeyOf;
    if Message.Decode(input, sha).Ok? {
      Message.DecodeRender(input, Message.Decode(input, sha).message, sha);
    }
  }

  // ---------------------------------------------------------------------
  // The dedupe memory
  // ---------------------------------------------------------------------

  /** A JavaScript set as its keys in insertion order: add, then evict the oldest past the cap. */
  function Remember(seen: seq<string>, key: string): seq<string> {
    var added := if key in seen then seen else seen + [key];
    if |added| > DEDUPE_CAP then added[1..] else added
  }

  lemma RememberedIsSeen(seen: seq<string>, key: string)
    requires key !in seen
    ensures key in Remember(seen, key)
  {
    var added := seen + [key];
    assert added[|added| - 1] == key && (|added| > 1 ==> added[1..][|added| - 2] == key);
  }

  function Last(keys: seq<string>, n: nat): seq<string> {
    if |keys| <= n then keys else keys[|keys| - n..]
  }

  /** Equal keys are more than a full memory apart. */
  ghost predicate Spaced(keys: seq<string>) {
    forall p, q :: 0 <= p < q < |keys| && keys[p] == keys[q] ==> q - p > DEDUPE_CAP
  }

  /** Remembering a key outside the window slides the window by one and keeps repeats apart. */
  lemma RememberSlides(remembered: seq<string>, key: string)
    requires Spaced(remembered) && key !in Last(remembered, DEDUPE_CAP)
    ensures Remember(Last(remembered, DEDUPE_CAP), key) == Last(remembered + [key], DEDUPE_CAP)
    ensures Spaced(remembered + [key])
  {
  }

  // ---------------------------------------------------------------------
  // The machine
  // ---------------------------------------------------------------------

  datatype Point = Waiting | Resolving | Announcing(duplicate: bool) | Publishing

  /** A replica process; `remembered` is every key it remembered since it started, in order. */
  datatype Replica = Replica(seen: seq<string>, remembered: seq<string>, inHand: nat, point: Point)

  const Started := Replica([], [], 0, Waiting)

  datatype State = State(log: seq<Reading>, live: set<nat>, dlq: seq<nat>, ledger: set<string>, replicas: seq<Replica>)

  datatype Ack = Done | ReplyLost | Refused

  datatype Action =
    | Publish(r: Reading)
    | Crash(p: nat)
    | Deliver(p: nat, i: nat)
    | Resolve(p: nat, reply: ClaimCheck.Reply)
    | Announce(p: nat, ack: Ack, acked: bool)
    | PublishDead(p: nat, ack: Ack, termed: bool)

  predicate At(s: State, p: nat, point: Point) {
    p < |s.replicas| && s.replicas[p].point == point && s.replicas[p].inHand < |s.log|
  }

  predicate AtHook(s: State, p: nat, point: Point) {
    At(s, p, point) && s.log[s.replicas[p].inHand].Hook?
  }

  predicate Enabled(s: State, a: Action) {
    match a
    case Publish(_) => true
    case Crash(p) => p < |s.replicas|
    case Deliver(p, i) => p < |s.replicas| && s.replicas[p].point.Waiting? && i < |s.log|
    case Resolve(p, _) => AtHook(s, p, Resolving)
    case Announce(p, _, _) => AtHook(s, p, Announcing(true)) || AtHook(s, p, Announcing(false))
    case PublishDead(p, _, _) => At(s, p, Publishing)
  }

  /** Decode, then look the key up: the code from delivery to the first await. */
  function Take(x: Replica, i: nat, m: Reading): Replica {
    x.(inHand := i,
       point := match m
                case Invalid => Publishing
                case Hook(key, _) => if key in x.seen then Announcing(true) else Resolving)
  }

  function Settle(live: set<nat>, i: nat, arrives: bool): set<nat> { if arrives then live - {i} else live }

  function Next(s: State, a: Action, sha: Bytes -> string): State
    requires Enabled(s, a)
  {
    match a
    case Publish(r) => s.(log := s.log + [r], live := s.live + {|s.log|})
    case Crash(p) => s.(replicas := s.replicas[p := Started])
    case Deliver(p, i) => s.(replicas := s.replicas[p := Take(s.replicas[p], i, s.log[i])])
    case Resolve(p, reply) =>
      var x := s.replicas[p];
      var r := ClaimCheck.ResolveBody(s.log[x.inHand].source, reply, sha);
      s.(replicas := s.replicas[p := x.(point :=
           match r case Resolved => Announcing(false) case Permanent(_) => Publishing case Transient(_) => Waiting)])
    case Announce(p, ack, acked) =>
      var x := s.replicas[p];
      var key := s.log[x.inHand].key;
      var y := x.(point := Waiting);
      s.(ledger := if ack.Refused? then s.ledger else s.ledger + {key},
         live := Settle(s.live, x.inHand, ack.Done? && acked),
         replicas := s.replicas[p := if !ack.Done? || x.point.duplicate then y
                                     else y.(seen := Remember(x.seen, key), remembered := x.remembered + [key])])
    case PublishDead(p, ack, termed) =>
      var x := s.replicas[p];
      s.(dlq := if ack.Refused? then s.dlq else s.dlq + [x.inHand],
         live := Settle(s.live, x.inHand, ack.Done? && termed),
         replicas := s.replicas[p := x.(point := Waiting)])
  }

  // ---------------------------------------------------------------------
  // What every step keeps
  // ---------------------------------------------------------------------

  ghost predicate ReplicaInv(s: State, x: Replica) {
    && x.seen == Last(x.remembered, DEDUPE_CAP)
    && Spaced(x.remembered)
    && (forall key :: key in x.remembered ==> key in s.ledger)
    && (!x.point.Waiting? ==> x.inHand < |s.log|)
    && (x.point == Resolving || x.point == Announcing(false) ==>
          s.log[x.inHand].Hook? && s.log[x.inHand].key !in x.seen)
    && (x.point == Announcing(true) ==> s.log[x.inHand].Hook? && s.log[x.inHand].key in x.seen)
    && (x.point.Publishing? ==> s.log[x.inHand].Invalid? || s.log[x.inHand].source.ByClaim?)
  }

  /** In the stream, in the dead-letter stream, or counted by the ledger. */
  ghost predicate Accounted(s: State, i: nat)
    requires i < |s.log|
  {
    i in s.live || i in s.dlq || (s.log[i].Hook? && s.log[i].key in s.ledger)
  }

  ghost predicate Inv(s: State) {
    && (forall i :: i in s.live ==> i < |s.log|)
    && (forall i: nat :: i < |s.log| ==> Accounted(s, i))
    && (forall p: nat :: p < |s.replicas| ==> ReplicaInv(s, s.replicas[p]))
  }

  ghost predicate Later(s: State, t: State) {
    s.log <= t.log && s.ledger <= t.ledger && forall i :: i in s.dlq ==> i in t.dlq
  }

  lemma ReplicaFrame(s: State, t: State, x: Replica)
    requires ReplicaInv(s, x) && Later(s, t)
    ensures ReplicaInv(t, x)
  {
  }

  lemma MovedKeeps(s: State, t: State, p: nat)
    requires Inv(s) && Later(s, t) && |s.log| == |t.log| && t.live <= s.live && p < |s.replicas|
    requires |t.replicas| == |s.replicas| && t.replicas == s.replicas[p := t.replicas[p]]
    requires ReplicaInv(t, t.replicas[p])
    requires forall i: nat :: i in s.live && i !in t.live ==> i < |t.log| && Accounted(t, i)
    ensures Inv(t)
  {
    forall q: nat | q < |t.replicas|
      ensures ReplicaInv(t, t.replicas[q])
    {
      if q != p {
        ReplicaFrame(s, t, s.replicas[q]);
      }
    }
    forall i: nat | i < |t.log|
      ensures Accounted(t, i)
    {
      assert Accounted(s, i);
    }
  }

  lemma AnnounceKeeps(s: State, p: nat, ack: Ack, acked: bool, sha: Bytes -> string)
    requires Inv(s) && Enabled(s, Announce(p, ack, acked))
    ensures Inv(Next(s, Announce(p, ack, acked), sha))
  {
    var t := Next(s, Announce(p, ack, acked), sha);
    var x := s.replicas[p];
    var key := s.log[x.inHand].key;
    assert ReplicaInv(s, x);
    ReplicaFrame(s, t, x);
    if !x.point.duplicate {
      RememberSlides(x.remembered, key);
    }
    MovedKeeps(s, t, p);
  }

  lemma StepKeeps(s: State, a: Action, sha: Bytes -> string)
    requires Inv(s) && Enabled(s, a)
    ensures Inv(Next(s, a, sha))
  {
    var t := Next(s, a, sha);
    match a
    case Publish(r) =>
      forall q: nat | q < |t.replicas|
        ensures ReplicaInv(t, t.replicas[q])
      {
        ReplicaFrame(s, t, s.replicas[q]);
      }
      forall i: nat | i < |t.log|
        ensures Accounted(t, i)
      {
        assert i < |s.log| ==> Accounted(s, i);
      }
    case Crash(p) => MovedKeeps(s, t, p);
    case Deliver(p, i) =>
      assert ReplicaInv(s, s.replicas[p]);
      MovedKeeps(s, t, p);
    case Resolve(p, reply) =>
      assert ReplicaInv(s, s.replicas[p]);
      ClaimCheck.ResolveOutcome(s.log[s.replicas[p].inHand].source, reply, sha);
      hide ClaimCheck.ResolveBody;
      MovedKeeps(s, t, p);
    case Announce(p, ack, acked) => AnnounceKeeps(s, p, ack, acked, sha);
    case PublishDead(p, _, _) =>
      assert ReplicaInv(s, s.replicas[p]);
      ReplicaFrame(s, t, t.replicas[p]);
      MovedKeeps(s, t, p);
  }

  // ---------------------------------------------------------------------
  // Every run
  // ---------------------------------------------------------------------

  function Initial(n: nat): State { State([], {}, [], {}, seq(n, i => Started)) }

  /** The state after a run from `n` freshly started replicas; `None` when some action was not possible. */
  function Run(n: nat, actions: seq<Action>, sha: Bytes -> string): Option<State> {
    if actions == [] then Some(Initial(n))
    else
      var before := Run(n, actions[..|actions| - 1], sha);
      var a := actions[|actions| - 1];
      if before.Some? && Enabled(before.value, a) then Some(Next(before.value, a, sha)) else None
  }

  lemma {:induction false} RunKeeps(n: nat, actions: seq<Action>, sha: Bytes -> string)
    requires Run(n, actions, sha).Some?
    ensures Inv(Run(n, actions, sha).value)
    decreases |actions|
  {
    if actions != [] {
      var earlier := actions[..|actions| - 1];
      RunKeeps(n, earlier, sha);
      StepKeeps(Run(n, earlier, sha).value, actions[|actions| - 1], sha);
    } else {
      assert forall p: nat :: p < n ==> ReplicaInv(Initial(n), Initial(n).replicas[p]);
    }
  }

  /** Each published message is in the stream, in the dead-letter stream, or has its key in the ledger. */
  lemma {:induction false} NothingLost(n: nat, actions: seq<Action>, sha: Bytes -> string, i: nat)
    requires Run(n, actions, sha).Some? && i < |Run(n, actions, sha).value.log|
    ensures var s := Run(n, actions, sha).value;
            i in s.live || i in s.dlq || (s.log[i].Hook? && s.log[i].key in s.ledger)
  {
    RunKeeps(n, actions, sha);
    assert Accounted(Run(n, actions, sha).value, i);
  }

  // ---------------------------------------------------------------------
  // What happened earlier in the run
  // ---------------------------------------------------------------------

  /** The state in which the run took its `k`-th action. */
  ghost function Before(n: nat, actions: seq<Action>, sha: Bytes -> string, k: nat): State
    requires k < |actions| && Happened(n, actions, sha, k)
  {
    Run(n, actions[..k], sha).value
  }

  ghost predicate Happened(n: nat, actions: seq<Action>, sha: Bytes -> string, k: nat) {
    k < |actions| && Run(n, actions[..k], sha).Some? && Enabled(Run(n, actions[..k], sha).value, actions[k])
  }

  /** At `k`, a replica got hold of the body of a hook with this key. */
  ghost predicate ResolvedAt(n: nat, actions: seq<Action>, sha: Bytes -> string, k: nat, key: string) {
    && Happened(n, actions, sha, k) && actions[k].Resolve?
    && var s := Before(n, actions, sha, k);
       var m := s.log[s.replicas[actions[k].p].inHand];
       m.key == key && ClaimCheck.ResolveBody(m.source, actions[k].reply, sha).Resolved?
  }

  /** At `k`, a replica found `i` invalid, or got a final outcome for its claim. */
  ghost predicate CondemnedAt(n: nat, actions: seq<Action>, sha: Bytes -> string, k: nat, i: nat) {
    && Happened(n, actions, sha, k)
    && var s, a := Before(n, actions, sha, k), actions[k];
       || (a.Deliver? && a.i == i && s.log[i].Invalid?)
       || (a.Resolve? && s.replicas[a.p].inHand == i
           && var source := s.log[i].source;
              source.ByClaim? && ClaimCheck.Final(source.claim, source.digest, a.reply, sha))
  }

  /**
   * At `k`, a replica holding `i` got the ledger's reply for its key and its
   * ack arrived, or the dead-letter stream's reply for `i` and its term arrived.
   */
  ghost predicate SettledAt(n: nat, actions: seq<Action>, sha: Bytes -> string, k: nat, i: nat) {
    && Happened(n, actions, sha, k)
    && var s, a := Before(n, actions, sha, k), actions[k];
       || (a.Announce? && a.ack.Done? && a.acked && s.replicas[a.p].inHand == i)
       || (a.PublishDead? && a.ack.Done? && a.termed && s.replicas[a.p].inHand == i)
  }

  ghost predicate WasResolved(n: nat, actions: seq<Action>, sha: Bytes -> string, key: string) {
    exists k :: ResolvedAt(n, actions, sha, k, key)
  }

  ghost predicate WasCondemned(n: nat, actions: seq<Action>, sha: Bytes -> string, i: nat) {
    exists k :: CondemnedAt(n, actions, sha, k, i)
  }

  ghost predicate WasSettled(n: nat, actions: seq<Action>, sha: Bytes -> string, i: nat) {
    exists k :: SettledAt(n, actions, sha, k, i)
  }

  /** Whatever happened in the earlier part of a run happened in the run. */
  lemma HappenedStays(n: nat, actions: seq<Action>, sha: Bytes -> string, k: nat)
    requires actions != [] && Happened(n, actions[..|actions| - 1], sha, k)
    ensures Happened(n, actions, sha, k) && actions[k] == actions[..|actions| - 1][k]
    ensures Before(n, actions, sha, k) == Before(n, actions[..|actions| - 1], sha, k)
  {
    assert actions[..|actions| - 1][..k] == actions[..k];
  }

  lemma HistoryStays(n: nat, actions: seq<Action>, sha: Bytes -> string)
    requires actions != []
    ensures var earlier := actions[..|actions| - 1];
            && (forall key :: WasResolved(n, earlier, sha, key) ==> WasResolved(n, actions, sha, key))
            && (forall i: nat :: WasCondemned(n, earlier, sha, i) ==> WasCondemned(n, actions, sha, i))
            && (forall i: nat :: WasSettled(n, earlier, sha, i) ==> WasSettled(n, actions, sha, i))
  {
    var earlier := actions[..|actions| - 1];
    forall k: nat | Happened(n, earlier, sha, k)
      ensures Happened(n, actions, sha, k) && actions[k] == earlier[k]
      ensures Before(n, actions, sha, k) == Before(n, earlier, sha, k)
    {
      HappenedStays(n, actions, sha, k);
    }
    hide Run, Happened, Before, ClaimCheck.ResolveBody, ClaimCheck.Final;
    assert forall k: nat, key :: ResolvedAt(n, earlier, sha, k, key) ==> ResolvedAt(n, actions, sha, k, key);
    assert forall k: nat, i: nat :: CondemnedAt(n, earlier, sha, k, i) ==> CondemnedAt(n, actions, sha, k, i);
    assert forall k: nat, i: nat :: SettledAt(n, earlier, sha, k, i) ==> SettledAt(n, actions, sha, k, i);
  }

  /**
   * Nothing is counted as consumed unheard: for each key in the ledger, or
   * about to be announced as new, some replica got hold of a body under it.
   */
  lemma {:induction false} LedgerIsEarned(n: nat, actions: seq<Action>, sha: Bytes -> string)
    requires Run(n, actions, sha).Some?
    ensures var s := Run(n, actions, sha).value;
            && (forall key :: key in s.ledger ==> WasResolved(n, actions, sha, key))
            && (forall p: nat :: p < |s.replicas| && s.replicas[p].point == Announcing(false) ==>
                  AtHook(s, p, Announcing(false)) && WasResolved(n, actions, sha, s.log[s.replicas[p].inHand].key))
    decreases |actions|
  {
    if actions != [] {
      var earlier, a := actions[..|actions| - 1], actions[|actions| - 1];
      LedgerIsEarned(n, earlier, sha);
      RunKeeps(n, earlier, sha);
      HistoryStays(n, actions, sha);
      var s := Run(n, earlier, sha).value;
      if a.Resolve? && ClaimCheck.ResolveBody(s.log[s.replicas[a.p].inHand].source, a.reply, sha).Resolved? {
        assert ResolvedAt(n, actions, sha, |actions| - 1, s.log[s.replicas[a.p].inHand].key);
      }
      hide ClaimCheck.ResolveBody, WasResolved;
      if a.Announce? {
        assert ReplicaInv(s, s.replicas[a.p]);
      }
    }
  }

  /** Only an invalid message, or one whose claim had a final outcome, is put in the dead-letter stream. */
  lemma {:induction false} DeadLettersAreCondemned(n: nat, actions: seq<Action>, sha: Bytes -> string)
    requires Run(n, actions, sha).Some?
    ensures var s := Run(n, actions, sha).value;
            && (forall i :: i in s.dlq ==> WasCondemned(n, actions, sha, i))
            && (forall p: nat :: p < |s.replicas| && s.replicas[p].point.Publishing? ==>
                  WasCondemned(n, actions, sha, s.replicas[p].inHand))
    decreases |actions|
  {
    if actions != [] {
      var earlier, a := actions[..|actions| - 1], actions[|actions| - 1];
      DeadLettersAreCondemned(n, earlier, sha);
      HistoryStays(n, actions, sha);
      var s := Run(n, earlier, sha).value;
      if a.Deliver? && s.log[a.i].Invalid? {
        assert CondemnedAt(n, actions, sha, |actions| - 1, a.i);
      }
      if a.Resolve? && ClaimCheck.ResolveBody(s.log[s.replicas[a.p].inHand].source, a.reply, sha).Permanent? {
        FinalCondemns(n, actions, sha);
      }
      hide ClaimCheck.ResolveBody, WasCondemned;
    }
  }

  lemma FinalCondemns(n: nat, actions: seq<Action>, sha: Bytes -> string)
    requires actions != [] && Happened(n, actions, sha, |actions| - 1) && actions[|actions| - 1].Resolve?
    requires var s, a := Before(n, actions, sha, |actions| - 1), actions[|actions| - 1];
             ClaimCheck.ResolveBody(s.log[s.replicas[a.p].inHand].source, a.reply, sha).Permanent?
    ensures var s, a := Before(n, actions, sha, |actions| - 1), actions[|actions| - 1];
            CondemnedAt(n, actions, sha, |actions| - 1, s.replicas[a.p].inHand)
  {
    hide ClaimCheck.ResolveBody, ClaimCheck.Final, Run;
    var s, a := Before(n, actions, sha, |actions| - 1), actions[|actions| - 1];
    ClaimCheck.ResolveOutcome(s.log[s.replicas[a.p].inHand].source, a.reply, sha);
  }

  /**
   * Every message no longer in the stream was settled earlier in the run: an
   * ack after the ledger replied for its key, or a term after the dead-letter
   * stream took it. So some body was got hold of under its key, or the message
   * was condemned.
   */
  lemma {:induction false} LeavesOnlySettled(n: nat, actions: seq<Action>, sha: Bytes -> string, i: nat)
    requires Run(n, actions, sha).Some?
    requires i < |Run(n, actions, sha).value.log| && i !in Run(n, actions, sha).value.live
    ensures WasSettled(n, actions, sha, i)
    ensures var s := Run(n, actions, sha).value;
            || (s.log[i].Hook? && s.log[i].key in s.ledger && WasResolved(n, actions, sha, s.log[i].key))
            || (i in s.dlq && WasCondemned(n, actions, sha, i))
  {
    GoneIsSettled(n, actions, sha, i);
    NothingLost(n, actions, sha, i);
    LedgerIsEarned(n, actions, sha);
    DeadLettersAreCondemned(n, actions, sha);
  }

  lemma {:induction false} GoneIsSettled(n: nat, actions: seq<Action>, sha: Bytes -> string, i: nat)
    requires Run(n, actions, sha).Some?
    requires i < |Run(n, actions, sha).value.log| && i !in Run(n, actions, sha).value.live
    ensures WasSettled(n, actions, sha, i)
    decreases |actions|
  {
    assert actions != [];
    var earlier, a := actions[..|actions| - 1], actions[|actions| - 1];
    var s := Run(n, earlier, sha).value;
    if i < |s.log| && i !in s.live {
      GoneIsSettled(n, earlier, sha, i);
      HistoryStays(n, actions, sha);
    } else {
      hide ClaimCheck.ResolveBody;
      assert SettledAt(n, actions, sha, |actions| - 1, i);
    }
  }

  /** A replica's memory is always exactly the last 20000 keys it remembered, oldest first. */
  lemma {:induction false} SeenIsWindow(n: nat, actions: seq<Action>, sha: Bytes -> string, r: nat)
    requires Run(n, actions, sha).Some? && r < |Run(n, actions, sha).value.replicas|
    ensures var x := Run(n, actions, sha).value.replicas[r];
            x.seen == Last(x.remembered, 20000) && Spaced(x.remembered)
  {
    RunKeeps(n, actions, sha);
    assert ReplicaInv(Run(n, actions, sha).value, Run(n, actions, sha).value.replicas[r]);
  }

  /**
   * So between two answered, non-duplicate announcements of one key by one
   * process, that process remembered 20000 other pairwise distinct keys.
   */
  lemma {:induction false} RepeatsAreFarApart(n: nat, actions: seq<Action>, sha: Bytes -> string, r: nat, p: nat, q: nat)
    requires Run(n, actions, sha).Some? && r < |Run(n, actions, sha).value.replicas|
    requires var keys := Run(n, actions, sha).value.replicas[r].remembered;
             p < q < |keys| && keys[p] == keys[q]
    ensures p < q - 20000
    ensures var keys := Run(n, actions, sha).value.replicas[r].remembered;
            && (forall k, l :: q - 20000 <= k < l < q ==> keys[k] != keys[l])
            && (forall k :: q - 20000 <= k < q ==> keys[k] != keys[q])
  {
    SeenIsWindow(n, actions, sha, r);
  }

  /**
   * When a replica starts dead-lettering: exactly on an invalid message, or on
   * a final outcome for the claim of a key not in its memory.
   */
  lemma {:induction false} DeadLettersExactly(n: nat, actions: seq<Action>, sha: Bytes -> string, a: Action, r: nat)
    requires Run(n, actions, sha).Some? && Enabled(Run(n, actions, sha).value, a)
    requires var s := Run(n, actions, sha).value; r < |s.replicas| && !s.replicas[r].point.Publishing?
    ensures var s := Run(n, actions, sha).value;
            Next(s, a, sha).replicas[r].point.Publishing? <==>
              || (a.Deliver? && a.p == r && s.log[a.i].Invalid?)
              || (a.Resolve? && a.p == r
                  && var m := s.log[s.replicas[r].inHand];
                     m.source.ByClaim? && m.key !in s.replicas[r].seen
                     && ClaimCheck.Final(m.source.claim, m.source.digest, a.reply, sha))
  {
    RunKeeps(n, actions, sha);
    var s := Run(n, actions, sha).value;
    assert ReplicaInv(s, s.replicas[r]);
    hide ClaimCheck.ResolveBody, ClaimCheck.Final;
    if a.Resolve? && a.p == r {
      ClaimCheck.ResolveOutcome(s.log[s.replicas[r].inHand].source, a.reply, sha);
    }
  }

  // ---------------------------------------------------------------------
  // One delivery, start to finish
  // ---------------------------------------------------------------------

  /** The step a replica takes next when the gateway answers `reply`, the streams answer, and acks and terms arrive. */
  function StepOf(p: nat, point: Point, i: nat, reply: ClaimCheck.Reply): Action {
    match point
    case Waiting => Deliver(p, i)
    case Resolving => Resolve(p, reply)
    case Announcing(_) => Announce(p, Done, true)
    case Publishing => PublishDead(p, Done, true)
  }

  function StepsLeft(point: Point): nat {
    match point
    case Waiting => 3
    case Resolving => 2
    case Announcing(_) => 1
    case Publishing => 1
  }

  /** A replica that is free for `i`, or has it in hand. */
  ghost predicate Ready(s: State, p: nat, i: nat) {
    Inv(s) && p < |s.replicas| && i < |s.log| && (!s.replicas[p].point.Waiting? ==> s.replicas[p].inHand == i)
  }

  lemma StepEnabled(s: State, p: nat, i: nat, reply: ClaimCheck.Reply)
    requires Ready(s, p, i)
    ensures Enabled(s, StepOf(p, s.replicas[p].point, i, reply))
  {
    assert ReplicaInv(s, s.replicas[p]);
  }

  lemma StepLeadsOn(s: State, p: nat, i: nat, reply: ClaimCheck.Reply, sha: Bytes -> string)
    requires Ready(s, p, i)
    ensures var a := StepOf(p, s.replicas[p].point, i, reply);
            && Enabled(s, a)
            && var t := Next(s, a, sha);
               && Ready(t, p, i) && t.log == s.log
               && (!t.replicas[p].point.Waiting? ==> StepsLeft(t.replicas[p].point) < StepsLeft(s.replicas[p].point))
  {
    hide Inv, ClaimCheck.ResolveBody;
    StepEnabled(s, p, i, reply);
    StepKeeps(s, StepOf(p, s.replicas[p].point, i, reply), sha);
  }

  /** The handling of `i` from here on. */
  ghost function Pass(s: State, p: nat, i: nat, reply: ClaimCheck.Reply, sha: Bytes -> string): State
    requires Ready(s, p, i)
    decreases StepsLeft(s.replicas[p].point)
  {
    StepLeadsOn(s, p, i, reply, sha);
    var t := Next(s, StepOf(p, s.replicas[p].point, i, reply), sha);
    if t.replicas[p].point.Waiting? then t else Pass(t, p, i, reply, sha)
  }

  lemma AnnouncePass(s: State, p: nat, i: nat, reply: ClaimCheck.Reply, sha: Bytes -> string)
    requires Ready(s, p, i) && s.replicas[p].point.Announcing? && s.log[i].Hook?
    ensures |Pass(s, p, i, reply, sha).replicas| == |s.replicas|
    ensures var t := Pass(s, p, i, reply, sha);
            && t.live == s.live - {i} && t.dlq == s.dlq && t.ledger == s.ledger + {s.log[i].key}
            && t.replicas[p].seen ==
                 (if s.replicas[p].point.duplicate then s.replicas[p].seen else Remember(s.replicas[p].seen, s.log[i].key))
  {
    StepLeadsOn(s, p, i, reply, sha);
    hide Inv;
  }

  lemma PublishPass(s: State, p: nat, i: nat, reply: ClaimCheck.Reply, sha: Bytes -> string)
    requires Ready(s, p, i) && s.replicas[p].point.Publishing?
    ensures |Pass(s, p, i, reply, sha).replicas| == |s.replicas|
    ensures var t := Pass(s, p, i, reply, sha);
            && t.live == s.live - {i} && t.dlq == s.dlq + [i] && t.ledger == s.ledger
            && t.replicas[p].seen == s.replicas[p].seen
  {
    StepLeadsOn(s, p, i, reply, sha);
    hide Inv;
  }

  /** A body in hand: inline, or redeemed. */
  predicate InHand(source: ClaimCheck.Source, reply: ClaimCheck.Reply, sha: Bytes -> string) {
    source.Inline? || (source.ByClaim? && ClaimCheck.Delivers(source.claim, source.digest, reply, sha))
  }

  predicate IsFinal(source: ClaimCheck.Source, reply: ClaimCheck.Reply, sha: Bytes -> string) {
    source.ByClaim? && ClaimCheck.Final(source.claim, source.digest, reply, sha)
  }

  predicate Announces(m: Reading, seen: seq<string>, reply: ClaimCheck.Reply, sha: Bytes -> string) {
    m.Hook? && (m.key in seen || InHand(m.source, reply, sha))
  }

  predicate DeadLettersIt(m: Reading, seen: seq<string>, reply: ClaimCheck.Reply, sha: Bytes -> string) {
    m.Invalid? || (m.key !in seen && IsFinal(m.source, reply, sha))
  }

  /**
   * One delivery to a waiting replica, reply by reply, all it does to the
   * world and to the replica: what leaves the stream, what the dead-letter
   * stream gains, which key the ledger counts, and what is remembered.
   */
  lemma PassEffect(s: State, p: nat, i: nat, reply: ClaimCheck.Reply, sha: Bytes -> string)
    requires Ready(s, p, i) && s.replicas[p].point.Waiting?
    ensures |Pass(s, p, i, reply, sha).replicas| == |s.replicas|
    ensures var m, seen, t := s.log[i], s.replicas[p].seen, Pass(s, p, i, reply, sha);
            var announced, dead := Announces(m, seen, reply, sha), DeadLettersIt(m, seen, reply, sha);
            && t.live == (if announced || dead then s.live - {i} else s.live)
            && t.dlq == (if dead then s.dlq + [i] else s.dlq)
            && t.ledger == (if announced then s.ledger + {m.key} else s.ledger)
            && t.replicas[p].seen == (if announced && m.key !in seen then Remember(seen, m.key) else seen)
  {
    StepLeadsOn(s, p, i, reply, sha);
    var t := Next(s, Deliver(p, i), sha);
    hide Inv, ClaimCheck.ResolveBody, ClaimCheck.Final, ClaimCheck.Delivers, ClaimCheck.Requestable, ClaimCheck.Quoted;
    if t.replicas[p].point.Resolving? {
      var source := s.log[i].source;
      ClaimCheck.ResolveOutcome(source, reply, sha);
      ClaimCheck.FinalOrDelivered(source, reply, sha);
      StepLeadsOn(t, p, i, reply, sha);
      var u := Next(t, Resolve(p, reply), sha);
      if u.replicas[p].point.Announcing? {
        AnnouncePass(u, p, i, reply, sha);
      } else if u.replicas[p].point.Publishing? {
        PublishPass(u, p, i, reply, sha);
      }
    } else if t.replicas[p].point.Announcing? {
      AnnouncePass(t, p, i, reply, sha);
    } else {
      PublishPass(t, p, i, reply, sha);
    }
  }

  /** The gateway's answer leaves the claim of a new key open: neither the bytes nor a final outcome. */
  predicate LeavesOpen(m: Reading, seen: seq<string>, reply: ClaimCheck.Reply, sha: Bytes -> string) {
    m.Hook? && m.key !in seen && !InHand(m.source, reply, sha) && !IsFinal(m.source, reply, sha)
  }

  /** So the message leaves the stream exactly unless its claim is left open. */
  lemma PassSettles(s: State, p: nat, i: nat, reply: ClaimCheck.Reply, sha: Bytes -> string)
    requires Ready(s, p, i) && s.replicas[p].point.Waiting? && i in s.live
    ensures i !in Pass(s, p, i, reply, sha).live <==> !LeavesOpen(s.log[i], s.replicas[p].seen, reply, sha)
  {
    hide Pass, InHand, IsFinal, Inv;
    PassEffect(s, p, i, reply, sha);
  }

  /**
   * What becomes of a message body, decoded or not: an invalid one is
   * dead-lettered; one whose key was announced before, or whose body is inline
   * or redeemed with its own claim and digest, has the idempotency key, without
   * the replay suffix, counted by the ledger; one whose claim has a final
   * outcome is dead-lettered.
   */
  lemma BodyExits(s: State, p: nat, i: nat, input: Json.Input, reply: ClaimCheck.Reply, sha: Bytes -> string)
    requires Ready(s, p, i) && s.replicas[p].point.Waiting? && s.log[i] == Read(input, sha)
    ensures var t := Pass(s, p, i, reply, sha);
            Message.Decode(input, sha).Err? ==>
              t.live == s.live - {i} && t.dlq == s.dlq + [i] && t.ledger == s.ledger
    ensures var t := Pass(s, p, i, reply, sha);
            Message.Decode(input, sha).Ok? ==>
              var m := Message.Decode(input, sha).message;
              var key := Keys.IdempotencyKeyOf(m, false);
              if key in s.replicas[p].seen || m.body.Some? || (m.claim.Some? && m.sha256.Some? && ClaimCheck.Delivers(m.claim.value, m.sha256.value, reply, sha)) then
                t.live == s.live - {i} && t.dlq == s.dlq && t.ledger == s.ledger + {key}
              else if m.claim.Some? && m.sha256.Some? && ClaimCheck.Final(m.claim.value, m.sha256.value, reply, sha) then
                t.live == s.live - {i} && t.dlq == s.dlq + [i] && t.ledger == s.ledger
              else t.live == s.live && t.dlq == s.dlq && t.ledger == s.ledger
  {
    hide Pass, Inv, Keys.IdempotencyKeyOf, Message.Decode, ClaimCheck.Final, ClaimCheck.Delivers;
    PassEffect(s, p, i, reply, sha);
    ReadInvalidExactly(input, sha);
    if s.log[i].Hook? {
      ClaimCheck.FinalOrDelivered(s.log[i].source, reply, sha);
    }
  }

  /** No body is stuck: whatever the message, a waiting replica it is delivered to can settle it. */
  lemma NoBodyIsStuck(s: State, p: nat, i: nat, input: Json.Input, sha: Bytes -> string)
    requires Ready(s, p, i) && s.replicas[p].point.Waiting? && i in s.live && s.log[i] == Read(input, sha)
    ensures exists reply :: i !in Pass(s, p, i, reply, sha).live
  {
    hide Pass, Inv, Keys.IdempotencyKeyOf, Message.Decode, ClaimCheck.Requestable;
    PassEffect(s, p, i, ClaimCheck.GONE, sha);
  }

  // ---------------------------------------------------------------------
  // The consumer's code
  // ---------------------------------------------------------------------

  datatype Caught = Nothing | PermanentError | OtherError

  /**
   * One replica process, `me` of `n`. `log`, `live`, `dlq` and `ledger` are the
   * outside world; `seen` is the process's own. `state` and `trace` are the
   * machine run alongside.
   */
  class Consumer {
    const me: nat
    const n: nat
    const sha: Bytes -> string
    var log: seq<Reading>
    var live: set<nat>
    var dlq: seq<nat>
    var ledger: set<string>
    var seen: seq<string>
    ghost var state: State
    ghost var trace: seq<Action>

    ghost predicate Valid()
      reads this
    {
      && Run(n, trace, sha) == Some(state)
      && me < |state.replicas|
      && log == state.log && live == state.live && dlq == state.dlq && ledger == state.ledger
      && seen == Self().seen
    }

    /** This process as the machine sees it. */
    ghost function Self(): Replica
      requires me < |state.replicas|
      reads this
    {
      state.replicas[me]
    }

    constructor (me: nat, n: nat, sha: Bytes -> string)
      requires me < n
      ensures Valid() && Self() == Started && this.me == me && this.n == n && this.sha == sha && seen == []
    {
      this.me, this.n, this.sha := me, n, sha;
      log, live, dlq, ledger, seen := [], {}, [], {}, [];
      state, trace := Initial(n), [];
    }

    /** Runs the machine one step along. */
    ghost method Record(a: Action)
      requires Run(n, trace, sha) == Some(state) && Enabled(state, a)
      modifies this`state, this`trace
      ensures trace == old(trace) + [a] && state == Next(old(state), a, sha)
      ensures Run(n, trace, sha) == Some(state) && |state.replicas| == |old(state).replicas|
    {
      trace := trace + [a];
      assert trace[..|trace| - 1] == old(trace);
      state := Next(state, a, sha);
    }

    /** While this process awaits, publishers and the other replicas do as they like. */
    method Await()
      requires Valid()
      modifies this
      ensures Valid() && Self() == old(Self()) && seen == old(seen)
      ensures old(trace) <= trace && old(log) <= log
    {
    }

    /** The memory: add, and past the cap drop the key that has been there longest. */
    method RememberKey(key: string)
      modifies this`seen
      ensures seen == Remember(old(seen), key)
    {
      if key !in seen {
        seen := seen + [key];
      }
      if |seen| > DEDUPE_CAP {
        seen := seen[1..];
      }
    }

    /** The machine's last step took `i` out of the stream if `arrived`, and nothing else. */
    ghost predicate LastStepSettles(i: nat, arrived: bool)
      reads this
    {
      && trace != [] && Run(n, trace[..|trace| - 1], sha).Some?
      && live == Settle(Run(n, trace[..|trace| - 1], sha).value.live, i, arrived)
    }

    /**
     * A request to the ledger, then the ack. The message leaves the stream
     * exactly when the ledger replied and the ack, sent after that, arrived.
     */
    method AnnounceThenAck(i: nat, duplicate: bool) returns (ok: bool, arrived: bool)
      requires Valid() && AtHook(state, me, Announcing(duplicate)) && Self().inHand == i
      modifies this
      ensures Valid() && old(trace) < trace && old(log) <= log && Self().point.Waiting?
      ensures ok ==> log[i].Hook? && log[i].key in ledger
      ensures (arrived ==> ok) && LastStepSettles(i, arrived)
      ensures seen == if ok && !duplicate then Remember(old(seen), log[i].key) else old(seen)
    {
      Await();
      var ack: Ack, acked: bool := *, *;
      var key := log[i].key;
      label asked:
      Record(Announce(me, ack, acked));
      assert trace[..|trace| - 1] == old@asked(trace);
      hide Run;
      if !ack.Refused? {
        ledger := ledger + {key};
      }
      ok := ack.Done?;
      arrived := ok && acked;
      if ok {
        if !duplicate {
          RememberKey(key);
        }
        if acked {
          live := live - {i};
        }
      }
    }

    /**
     * Publish to the dead-letter stream, then term; a failed publish is a nak.
     * The message leaves the stream exactly when the dead-letter stream took it
     * and the term, sent after that, arrived.
     */
    method DeadLetterThenTerm(i: nat) returns (published: bool, arrived: bool)
      requires Valid() && At(state, me, Publishing) && Self().inHand == i
      modifies this
      ensures Valid() && old(trace) < trace && old(log) <= log && Self().point.Waiting? && seen == old(seen)
      ensures published ==> i in dlq
      ensures (arrived ==> published) && LastStepSettles(i, arrived)
    {
      Await();
      var ack: Ack, termed: bool := *, *;
      label asked:
      Record(PublishDead(me, ack, termed));
      assert trace[..|trace| - 1] == old@asked(trace);
      hide Run;
      if !ack.Refused? {
        dlq := dlq + [i];
      }
      published := ack.Done?;
      arrived := published && termed;
      if arrived {
        live := live - {i};
      }
    }

    /**
     * One delivery, start to finish. The memory changes only for a new key the
     * ledger replied for, and keeps to its window.
     */
    method Handle(i: nat) returns (caught: Caught)
      requires Valid() && Self().point.Waiting? && i < |log|
      modifies this
      ensures Valid() && old(trace) <= trace && old(log) <= log && Self().point.Waiting?
      ensures caught.Nothing? ==> log[i].Hook? && log[i].key in ledger && log[i].key in seen
      ensures seen == old(seen) || (caught.Nothing? && log[i].key !in old(seen) && seen == Remember(old(seen), log[i].key))
    {
      hide Run, ClaimCheck.ResolveBody;
      Record(Deliver(me, i));
      var m := log[i];
      if m.Invalid? {
        var _, _ := DeadLetterThenTerm(i);
        return PermanentError;
      }
      if m.key in seen {
        var answered, _ := AnnounceThenAck(i, true);
        return if answered then Nothing else OtherError;
      }
      Await();
      var reply: ClaimCheck.Reply := *;
      var resolution := ClaimCheck.ResolveBody(m.source, reply, sha);
      Record(Resolve(me, reply));
      if resolution.Permanent? {
        var _, _ := DeadLetterThenTerm(i);
        return PermanentError;
      }
      if resolution.Transient? {
        return OtherError;
      }
      RememberedIsSeen(seen, m.key);
      var ok, _ := AnnounceThenAck(i, false);
      caught := if ok then Nothing else OtherError;
    }

    /** The sequential loop over deliveries. */
    method Consume(deliveries: seq<nat>)
      requires Valid() && Self().point.Waiting? && forall k :: 0 <= k < |deliveries| ==> deliveries[k] < |log|
      modifies this
      ensures Valid() && old(trace) <= trace && old(log) <= log && Self().point.Waiting?
      ensures seen == Last(Self().remembered, 20000) && Spaced(Self().remembered)
    {
      for k := 0 to |deliveries|
        invariant Valid() && old(trace) <= trace && old(log) <= log && Self().point.Waiting?
      {
        var _ := Handle(deliveries[k]);
      }
      SeenIsWindow(n, trace, sha, me);
    }
  }
}
