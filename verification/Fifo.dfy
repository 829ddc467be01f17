/**
 * Workers on an SQS FIFO queue with a dead-letter queue, as a state machine
 * whose every step is one stretch of worker code between two awaits, or one
 * step of the environment. Any number of workers share the queue; each keeps
 * its own in-memory set of processed ids. Requests can fail, can take effect
 * with the reply lost, and a worker can die at any await.
 *
 * Messages are named by their position in `log`, everything ever enqueued in
 * order; `live` says which are still on the queue.
 */
module Fifo {
  import opened Text
  import opened Json
  import ClaimCheck

  /**
   * What a worker remembers a message by: the id's value (`None` is
   * JavaScript's `undefined`), or the id itself where it is an object or an
   * array, which every reading of the message makes anew.
   */
  datatype DedupeId = ByValue(value: Option<Json>) | ByReference(message: nat)

  /**
   * Where the code around the handler throws something other than a permanent
   * error: before the id is remembered, after it, or on meeting a known id.
   */
  datatype Handling = Handling(failsBefore: bool, failsAfter: bool, failsAgain: bool)

  /**
   * What reading a message body gives: a permanent error, some other exception,
   * or a hook. A permanent error that cannot be reported ends the process.
   */
  datatype Reading =
    | Unreadable(reported: bool)
    | Explodes
    | Hook(id: Option<Json>, source: ClaimCheck.Source, handling: Handling)

  datatype QueueMessage = QueueMessage(group: string, reading: Reading)

  /** What became of one message of a batch. */
  datatype Fate = Removed | DeadLettered | BackedOff

  /** The await a worker is at; `Head` is the loop head. */
  datatype Point = Head | Resolving | Removing | Sending | RemovingDead | BackingOff

  /** A worker process. `done` is the ids it remembered since it started, in order. */
  datatype Worker = Worker(
    processed: set<DedupeId>, done: seq<DedupeId>, blocked: set<string>, batch: seq<nat>, fates: seq<Fate>, point: Point)

  const Started := Worker({}, [], {}, [], [], Head)

  datatype State = State(
    log: seq<QueueMessage>, live: set<nat>, dlq: seq<nat>, handled: set<DedupeId>, workers: seq<Worker>)

  /** How a request to SQS ends: done, done but the reply is lost, or not done. */
  datatype Ack = Done | ReplyLost | Refused

  /**
   * One step. The `prints` of a resolve says whether what the worker prints of
   * the redeemed body, or of the gateway's answer, can be printed.
   */
  datatype Action =
    | Enqueue(m: QueueMessage)
    | Redrive(i: nat)
    | Crash(w: nat)
    | Receive(w: nat, batch: seq<nat>)
    | Look(w: nat)
    | Resolve(w: nat, reply: ClaimCheck.Reply, prints: bool)
    | Remove(w: nat, ack: Ack)
    | Send(w: nat, ack: Ack)
    | RemoveDead(w: nat, ack: Ack)
    | BackOff(w: nat, ack: Ack)

  function Identity(i: nat, id: Option<Json>): DedupeId {
    if id.Some? && (id.value.JObject? || id.value.JArray?) then ByReference(i) else ByValue(id)
  }

  function IdOf(s: State, i: nat): DedupeId
    requires i < |s.log| && s.log[i].reading.Hook?
  {
    Identity(i, s.log[i].reading.id)
  }

  /** `Set.has`: an object is never found again. */
  predicate Known(ids: set<DedupeId>, id: DedupeId) { id.ByValue? && id in ids }

  predicate SameGroup(s: State, i: nat, j: nat) {
    i < |s.log| && j < |s.log| && s.log[i].group == s.log[j].group
  }

  predicate Idle(x: Worker) { x.point == Head && |x.fates| == |x.batch| }

  predicate Busy(s: State, w: nat, point: Point) {
    w < |s.workers| && s.workers[w].point == point && |s.workers[w].fates| < |s.workers[w].batch|
      && s.workers[w].batch[|s.workers[w].fates|] < |s.log|
  }

  function Current(s: State, w: nat): (i: nat)
    requires w < |s.workers| && |s.workers[w].fates| < |s.workers[w].batch|
  {
    s.workers[w].batch[|s.workers[w].fates|]
  }

  /**
   * What a FIFO queue may hand out: distinct messages on the queue and, for
   * each, every earlier one of its group still on the queue, before it.
   */
  ghost predicate FifoBatch(s: State, batch: seq<nat>) {
    && (forall k :: 0 <= k < |batch| ==> batch[k] in s.live)
    && (forall k, l :: 0 <= k < l < |batch| ==> batch[k] != batch[l])
    && (forall k, j: nat :: 0 <= k < |batch| && j in s.live && j < batch[k] && SameGroup(s, j, batch[k])
          ==> Among(batch, 0, k, j))
  }

  ghost predicate Among(batch: seq<nat>, lo: nat, hi: nat, j: nat)
    requires lo <= hi <= |batch|
  {
    exists l :: lo <= l < hi && batch[l] == j
  }

  ghost predicate Enabled(s: State, a: Action) {
    match a
    case Enqueue(_) => true
    case Redrive(i) => i in s.live
    case Crash(w) => w < |s.workers|
    case Receive(w, batch) => w < |s.workers| && Idle(s.workers[w]) && FifoBatch(s, batch)
    case Look(w) => Busy(s, w, Head)
    case Resolve(w, _, _) => Busy(s, w, Resolving) && s.log[Current(s, w)].reading.Hook?
    case Remove(w, _) => Busy(s, w, Removing)
    case Send(w, _) => Busy(s, w, Sending)
    case RemoveDead(w, _) => Busy(s, w, RemovingDead)
    case BackOff(w, _) => Busy(s, w, BackingOff)
  }

  /** The worker's code from the loop head to its first await, for message `i`. */
  function LookAt(x: Worker, i: nat, m: QueueMessage): Worker {
    if m.group in x.blocked then x.(point := BackingOff)
    else
      match m.reading
      case Unreadable(reported) => if reported then x.(point := Sending) else Started
      case Explodes => Block(x, m.group)
      case Hook(id, _, handling) =>
        if !Known(x.processed, Identity(i, id)) then x.(point := Resolving)
        else if handling.failsAgain then Block(x, m.group)
        else x.(point := Removing)
  }

  function Finish(x: Worker, fate: Fate): Worker { x.(fates := x.fates + [fate], point := Head) }

  function Block(x: Worker, group: string): Worker { x.(blocked := x.blocked + {group}, point := BackingOff) }

  function Remembering(x: Worker, id: DedupeId): Worker { x.(processed := x.processed + {id}, done := x.done + [id]) }

  function Next(s: State, a: Action, sha: Bytes -> string): State
    requires Enabled(s, a)
  {
    match a
    case Enqueue(m) => s.(log := s.log + [m], live := s.live + {|s.log|})
    case Redrive(i) => s.(live := s.live - {i}, dlq := s.dlq + [i])
    case Crash(w) => s.(workers := s.workers[w := Started])
    case Receive(w, batch) => s.(workers := s.workers[w := s.workers[w].(blocked := {}, batch := batch, fates := [])])
    case Look(w) => s.(workers := s.workers[w := LookAt(s.workers[w], Current(s, w), s.log[Current(s, w)])])
    case Resolve(w, reply, prints) => AfterResolve(s, w, ClaimCheck.ResolveBody(s.log[Current(s, w)].reading.source, reply, sha), prints)
    case Remove(w, ack) =>
      var i, x := Current(s, w), s.workers[w];
      s.(live := if ack.Refused? then s.live else s.live - {i},
         workers := s.workers[w := if ack.Done? then Finish(x, Removed) else Block(x, s.log[i].group)])
    case Send(w, ack) =>
      s.(dlq := if ack.Refused? then s.dlq else s.dlq + [Current(s, w)],
         workers := s.workers[w := if ack.Done? then s.workers[w].(point := RemovingDead) else Started])
    case RemoveDead(w, ack) =>
      s.(live := if ack.Refused? then s.live else s.live - {Current(s, w)},
         workers := s.workers[w := if ack.Done? then Finish(s.workers[w], DeadLettered) else Started])
    case BackOff(w, ack) =>
      s.(workers := s.workers[w := if ack.Done? then Finish(s.workers[w], BackedOff) else Started])
  }

  /**
   * From the body or the error to the next await. An error is printed before
   * anything is done about it, and a print that throws there ends the process.
   */
  function AfterResolve(s: State, w: nat, r: ClaimCheck.Resolution, prints: bool): State
    requires Busy(s, w, Resolving) && s.log[Current(s, w)].reading.Hook?
  {
    var m, x := s.log[Current(s, w)], s.workers[w];
    match r
    case Resolved =>
      if m.reading.handling.failsBefore then s.(workers := s.workers[w := Block(x, m.group)])
      else
        var id := IdOf(s, Current(s, w));
        var y := Remembering(x, id).(point := Removing);
        s.(handled := s.handled + {id},
           workers := s.workers[w := if FailsAfter(m.reading, prints) then Block(y, m.group) else y])
    case Permanent(quotes) => s.(workers := s.workers[w := if quotes && !prints then Started else x.(point := Sending)])
    case Transient(quotes) => s.(workers := s.workers[w := if quotes && !prints then Started else Block(x, m.group)])
  }

  /** After a hook is handled its id, source and body are printed; the redeemed body is known only then. */
  predicate FailsAfter(reading: Reading, prints: bool)
    requires reading.Hook?
  {
    reading.handling.failsAfter || (reading.source.ByClaim? && !prints)
  }

  // ---------------------------------------------------------------------
  // What every step keeps
  // ---------------------------------------------------------------------

  /** No value occurs twice. */
  ghost predicate DistinctValues(ids: seq<DedupeId>) {
    forall k, l :: 0 <= k < l < |ids| && ids[k] == ids[l] ==> ids[k].ByReference?
  }

  /** Every unsettled message of an open group has its live predecessors still ahead of it in the batch. */
  ghost predicate InOrder(s: State, x: Worker)
    requires |x.fates| <= |x.batch|
  {
    forall k, j: nat ::
      |x.fates| <= k < |x.batch| && j in s.live && j < x.batch[k] && SameGroup(s, j, x.batch[k])
        && s.log[j].group !in x.blocked
      ==> Among(x.batch, |x.fates|, k, j)
  }

  /** A group with a message backed off is blocked for the rest of the batch. */
  ghost predicate BackedOffBlocks(s: State, x: Worker)
    requires |x.fates| <= |x.batch| && InLog(s, x)
  {
    forall k :: 0 <= k < |x.fates| && x.fates[k].BackedOff? ==> s.log[x.batch[k]].group in x.blocked
  }

  /** In each group of the batch, the messages settled so far come before those backed off. */
  ghost predicate SettledFirst(s: State, x: Worker)
    requires |x.fates| <= |x.batch|
  {
    forall k, l :: 0 <= k < l < |x.fates| && SameGroup(s, x.batch[k], x.batch[l]) && !x.fates[l].BackedOff?
      ==> !x.fates[k].BackedOff?
  }

  /** A settled message is off the queue, on the dead-letter queue or with its id processed. */
  ghost predicate FatesTrue(s: State, x: Worker)
    requires |x.fates| <= |x.batch| && InLog(s, x)
  {
    forall k :: 0 <= k < |x.fates| ==> FateTrue(s, x, x.batch[k], x.fates[k])
  }

  ghost predicate FateTrue(s: State, x: Worker, i: nat, fate: Fate)
    requires i < |s.log|
  {
    && (!fate.BackedOff? ==> i !in s.live)
    && (fate.Removed? ==> s.log[i].reading.Hook? && IdOf(s, i) in x.processed)
    && (fate.DeadLettered? ==> i in s.dlq)
  }

  /**
   * What no gateway reply can settle at an open loop head, for a worker that
   * knows the id or one that does not: a reading that throws some other error
   * or one that cannot be reported, or a hook some stretch of the code around
   * the handler throws on.
   */
  predicate Stuck(m: QueueMessage, known: bool) {
    match m.reading
    case Unreadable(reported) => !reported
    case Explodes => true
    case Hook(_, source, handling) =>
      if known then handling.failsAgain
      else source.Unresolvable? || (source.Inline? && (handling.failsBefore || handling.failsAfter))
  }

  ghost predicate InLog(s: State, x: Worker) { forall k :: 0 <= k < |x.batch| ==> x.batch[k] < |s.log| }

  ghost predicate Memory(s: State, x: Worker) {
    && DistinctValues(x.done)
    && (forall id :: id in x.processed <==> id in x.done)
    && x.processed <= s.handled
  }

  /** What holds of the message in hand at each await. */
  ghost predicate AtPoint(s: State, x: Worker)
    requires |x.fates| < |x.batch| && InLog(s, x)
  {
    var i := x.batch[|x.fates|];
    var m := s.log[i];
    && (x.point.BackingOff? ==> m.group in x.blocked)
    && (!x.point.Head? && !x.point.BackingOff? ==> m.group !in x.blocked)
    && (x.point.Resolving? ==> m.reading.Hook? && !Known(x.processed, IdOf(s, i)))
    && (x.point.Removing? ==>
          && m.reading.Hook? && IdOf(s, i) in x.processed
          && (Stuck(m, false) ==> Known(x.processed, IdOf(s, i)) && !Stuck(m, true)))
    && (x.point.Sending? || x.point.RemovingDead? ==>
          (m.reading.Unreadable? && m.reading.reported) || (m.reading.Hook? && m.reading.source.ByClaim?))
    && (x.point.RemovingDead? ==> i in s.dlq)
  }

  ghost predicate WorkerInv(s: State, x: Worker) {
    && |x.fates| <= |x.batch|
    && (|x.fates| == |x.batch| ==> x.point.Head?)
    && InLog(s, x)
    && Memory(s, x)
    && InOrder(s, x)
    && BackedOffBlocks(s, x)
    && SettledFirst(s, x)
    && FatesTrue(s, x)
    && (|x.fates| < |x.batch| ==> AtPoint(s, x))
  }

  /** Still on the queue, on the dead-letter queue, or its id was remembered after the handler returned. */
  ghost predicate Accounted(s: State, i: nat)
    requires i < |s.log|
  {
    i in s.live || i in s.dlq || (s.log[i].reading.Hook? && IdOf(s, i) in s.handled)
  }

  ghost predicate Inv(s: State) {
    && (forall i :: i in s.live ==> i < |s.log|)
    && (forall i: nat :: i < |s.log| ==> Accounted(s, i))
    && (forall w: nat :: w < |s.workers| ==> WorkerInv(s, s.workers[w]))
  }

  /** `t` can follow `s` as far as a worker at rest can tell. */
  ghost predicate Later(s: State, t: State) {
    && s.log <= t.log
    && (forall i :: i in t.live && i < |s.log| ==> i in s.live)
    && (forall i :: i in s.dlq ==> i in t.dlq)
    && s.handled <= t.handled
  }

  lemma WorkerFrame(s: State, t: State, x: Worker)
    requires WorkerInv(s, x) && Later(s, t)
    ensures WorkerInv(t, x)
  {
  }

  /** Enough for `t` to satisfy the invariant after one worker moved. */
  lemma MovedKeeps(s: State, t: State, w: nat)
    requires Inv(s) && Later(s, t) && |s.log| == |t.log| && t.live <= s.live && w < |s.workers|
    requires |t.workers| == |s.workers| && t.workers == s.workers[w := t.workers[w]]
    requires WorkerInv(t, t.workers[w])
    requires forall i: nat :: i in s.live && i !in t.live ==> i < |t.log| && Accounted(t, i)
    ensures Inv(t)
  {
    forall v: nat | v < |t.workers|
      ensures WorkerInv(t, t.workers[v])
    {
      if v != w {
        WorkerFrame(s, t, s.workers[v]);
      }
    }
    forall i: nat | i < |t.log|
      ensures Accounted(t, i)
    {
      assert Accounted(s, i);
    }
  }

  /** Nothing live and earlier in its group is ahead of the message in hand while its group is open. */
  lemma HeadIsFirst(s: State, w: nat, j: nat)
    requires Inv(s) && w < |s.workers| && |s.workers[w].fates| < |s.workers[w].batch|
    requires s.log[Current(s, w)].group !in s.workers[w].blocked
    requires j < Current(s, w) && SameGroup(s, j, Current(s, w))
    ensures j !in s.live
  {
  }

  /** Moving past the message in hand keeps the order, if it left the queue or its group is blocked. */
  lemma FinishKeeps(s: State, x: Worker, fate: Fate)
    requires WorkerInv(s, x) && |x.fates| < |x.batch|
    requires fate.BackedOff? ==> s.log[x.batch[|x.fates|]].group in x.blocked
    requires !fate.BackedOff? ==> s.log[x.batch[|x.fates|]].group !in x.blocked
    requires FateTrue(s, x, x.batch[|x.fates|], fate)
    ensures WorkerInv(s, Finish(x, fate))
  {
    var y := Finish(x, fate);
    var n := |x.fates|;
    forall k, j: nat |
      |y.fates| <= k < |y.batch| && j in s.live && j < y.batch[k] && SameGroup(s, j, y.batch[k])
        && s.log[j].group !in y.blocked
      ensures Among(y.batch, |y.fates|, k, j)
    {
      assert Among(x.batch, n, k, j);
      var l :| n <= l < k && x.batch[l] == j;
      assert l != n;
    }
  }

  lemma BlockKeeps(s: State, x: Worker)
    requires WorkerInv(s, x) && |x.fates| < |x.batch|
    ensures WorkerInv(s, Block(x, s.log[x.batch[|x.fates|]].group))
  {
  }

  lemma StartedInv(s: State)
    ensures WorkerInv(s, Started)
  {
  }

  lemma LookKeeps(s: State, w: nat, sha: Bytes -> string)
    requires Inv(s) && Enabled(s, Look(w))
    ensures Inv(Next(s, Look(w), sha))
  {
    var x := s.workers[w];
    var t := Next(s, Look(w), sha);
    assert WorkerInv(s, x);
    BlockKeeps(s, x);
    StartedInv(s);
    WorkerFrame(s, t, t.workers[w]);
    MovedKeeps(s, t, w);
  }

  lemma ReceiveKeeps(s: State, w: nat, batch: seq<nat>, sha: Bytes -> string)
    requires Inv(s) && Enabled(s, Receive(w, batch))
    ensures Inv(Next(s, Receive(w, batch), sha))
  {
    var t := Next(s, Receive(w, batch), sha);
    var x, y := s.workers[w], t.workers[w];
    assert WorkerInv(s, x);
    assert InOrder(t, y) by {
      forall k, j: nat |
        0 <= k < |batch| && j in t.live && j < batch[k] && SameGroup(t, j, batch[k])
        ensures Among(batch, 0, k, j)
      {
        assert SameGroup(s, j, batch[k]);
      }
    }
    MovedKeeps(s, t, w);
  }

  lemma RememberingKeeps(s: State, x: Worker, id: DedupeId)
    requires WorkerInv(s, x) && id in s.handled && !Known(x.processed, id) && !x.point.Resolving?
    ensures WorkerInv(s, Remembering(x, id))
  {
    var y := Remembering(x, id);
    assert Memory(s, y);
    hide Stuck, Memory;
  }

  lemma ToRemoving(s: State, x: Worker, id: DedupeId)
    requires WorkerInv(s, x) && |x.fates| < |x.batch| && x.point.Resolving?
    requires var i := x.batch[|x.fates|]; id == IdOf(s, i) && !Stuck(s.log[i], false) && id in s.handled
    ensures WorkerInv(s, Remembering(x, id).(point := Removing))
  {
    var y := Remembering(x, id).(point := Removing);
    assert Memory(s, y);
    hide Stuck, Memory;
  }

  lemma AfterResolveKeeps(s: State, w: nat, r: ClaimCheck.Resolution, prints: bool)
    requires Inv(s) && Busy(s, w, Resolving) && s.log[Current(s, w)].reading.Hook?
    requires r.Permanent? ==> s.log[Current(s, w)].reading.source.ByClaim?
    requires r.Resolved? ==> !s.log[Current(s, w)].reading.source.Unresolvable?
    ensures Inv(AfterResolve(s, w, r, prints))
  {
    var t := AfterResolve(s, w, r, prints);
    var x, m := s.workers[w], s.log[Current(s, w)];
    assert WorkerInv(s, x);
    assert WorkerInv(t, t.workers[w]) by {
      WorkerFrame(s, t, x);
      BlockKeeps(t, x);
      StartedInv(t);
      hide WorkerInv;
      if r.Resolved? && !m.reading.handling.failsBefore {
        var id := IdOf(s, Current(s, w));
        if FailsAfter(m.reading, prints) {
          RememberingKeeps(t, Block(x, m.group), id);
        } else {
          ToRemoving(t, x, id);
        }
      } else if r.Permanent? {
        ToSending(t, x);
      }
    }
    hide WorkerInv, Accounted;
    MovedKeeps(s, t, w);
  }

  lemma ToSending(s: State, x: Worker)
    requires WorkerInv(s, x) && |x.fates| < |x.batch| && x.point.Resolving?
    requires s.log[x.batch[|x.fates|]].reading.source.ByClaim?
    ensures WorkerInv(s, x.(point := Sending))
  {
  }

  lemma ResolveKeeps(s: State, w: nat, reply: ClaimCheck.Reply, prints: bool, sha: Bytes -> string)
    requires Inv(s) && Enabled(s, Resolve(w, reply, prints))
    ensures Inv(Next(s, Resolve(w, reply, prints), sha))
  {
    var source := s.log[Current(s, w)].reading.source;
    ClaimCheck.ResolveOutcome(source, reply, sha);
    hide ClaimCheck.ResolveBody;
    AfterResolveKeeps(s, w, ClaimCheck.ResolveBody(source, reply, sha), prints);
  }

  lemma RemoveKeeps(s: State, w: nat, ack: Ack, sha: Bytes -> string)
    requires Inv(s) && Enabled(s, Remove(w, ack))
    ensures Inv(Next(s, Remove(w, ack), sha))
  {
    var t := Next(s, Remove(w, ack), sha);
    var x := s.workers[w];
    assert WorkerInv(s, x);
    WorkerFrame(s, t, x);
    if ack.Done? {
      FinishKeeps(t, x, Removed);
    } else {
      BlockKeeps(t, x);
    }
    MovedKeeps(s, t, w);
  }

  lemma SendKeeps(s: State, w: nat, ack: Ack, sha: Bytes -> string)
    requires Inv(s) && Enabled(s, Send(w, ack))
    ensures Inv(Next(s, Send(w, ack), sha))
  {
    var t := Next(s, Send(w, ack), sha);
    var x := s.workers[w];
    assert WorkerInv(s, x);
    WorkerFrame(s, t, x);
    StartedInv(t);
    MovedKeeps(s, t, w);
  }

  lemma RemoveDeadKeeps(s: State, w: nat, ack: Ack, sha: Bytes -> string)
    requires Inv(s) && Enabled(s, RemoveDead(w, ack))
    ensures Inv(Next(s, RemoveDead(w, ack), sha))
  {
    var t := Next(s, RemoveDead(w, ack), sha);
    var x := s.workers[w];
    assert WorkerInv(s, x);
    WorkerFrame(s, t, x);
    StartedInv(t);
    if ack.Done? {
      FinishKeeps(t, x, DeadLettered);
    }
    MovedKeeps(s, t, w);
  }

  lemma BackOffKeeps(s: State, w: nat, ack: Ack, sha: Bytes -> string)
    requires Inv(s) && Enabled(s, BackOff(w, ack))
    ensures Inv(Next(s, BackOff(w, ack), sha))
  {
    var t := Next(s, BackOff(w, ack), sha);
    var x := s.workers[w];
    assert WorkerInv(s, x);
    WorkerFrame(s, t, x);
    StartedInv(t);
    if ack.Done? {
      FinishKeeps(t, x, BackedOff);
    }
    MovedKeeps(s, t, w);
  }

  lemma EnvironmentKeeps(s: State, a: Action, sha: Bytes -> string)
    requires Inv(s) && Enabled(s, a) && (a.Enqueue? || a.Redrive?)
    ensures Inv(Next(s, a, sha))
  {
    var t := Next(s, a, sha);
    forall v: nat | v < |t.workers|
      ensures WorkerInv(t, t.workers[v])
    {
      WorkerFrame(s, t, s.workers[v]);
    }
    forall i: nat | i < |t.log|
      ensures Accounted(t, i)
    {
      assert i < |s.log| ==> Accounted(s, i);
    }
  }

  lemma StepKeeps(s: State, a: Action, sha: Bytes -> string)
    requires Inv(s) && Enabled(s, a)
    ensures Inv(Next(s, a, sha))
  {
    match a
    case Enqueue(_) => EnvironmentKeeps(s, a, sha);
    case Redrive(_) => EnvironmentKeeps(s, a, sha);
    case Crash(w) =>
      StartedInv(Next(s, a, sha));
      MovedKeeps(s, Next(s, a, sha), w);
    case Receive(w, batch) => ReceiveKeeps(s, w, batch, sha);
    case Look(w) => LookKeeps(s, w, sha);
    case Resolve(w, reply, prints) => ResolveKeeps(s, w, reply, prints, sha);
    case Remove(w, ack) => RemoveKeeps(s, w, ack, sha);
    case Send(w, ack) => SendKeeps(s, w, ack, sha);
    case RemoveDead(w, ack) => RemoveDeadKeeps(s, w, ack, sha);
    case BackOff(w, ack) => BackOffKeeps(s, w, ack, sha);
  }

  // ---------------------------------------------------------------------
  // Every run
  // ---------------------------------------------------------------------

  function Initial(n: nat): State { State([], {}, [], {}, seq(n, i => Started)) }

  /** The state after a run from `n` freshly started workers; `None` when some action was not possible. */
  ghost function Run(n: nat, actions: seq<Action>, sha: Bytes -> string): Option<State> {
    if actions == [] then Some(Initial(n))
    else
      var before := Run(n, actions[..|actions| - 1], sha);
      var a := actions[|actions| - 1];
      if before.Some? && Enabled(before.value, a) then Some(Next(before.value, a, sha)) else None
  }

  lemma {:induction false} RunKeeps(n: nat, actions: seq<Action>, sha: Bytes -> string)
    requires Run(n, actions, sha).Some?
    ensures Inv(Run(n, actions, sha).value)
    decreases |actions|
  {
    if actions != [] {
      var earlier := actions[..|actions| - 1];
      RunKeeps(n, earlier, sha);
      StepKeeps(Run(n, earlier, sha).value, actions[|actions| - 1], sha);
    } else {
      assert forall w: nat :: w < n ==> WorkerInv(Initial(n), Initial(n).workers[w]);
    }
  }

  /** Nothing is lost: over every run, with crashes at any await. */
  lemma {:induction false} NothingLost(n: nat, actions: seq<Action>, sha: Bytes -> string, i: nat)
    requires Run(n, actions, sha).Some? && i < |Run(n, actions, sha).value.log|
    ensures Accounted(Run(n, actions, sha).value, i)
  {
    RunKeeps(n, actions, sha);
  }

  /** A batch the queue hands out holds messages of the log. */
  lemma {:induction false} BatchInLog(n: nat, actions: seq<Action>, sha: Bytes -> string, batch: seq<nat>)
    requires Run(n, actions, sha).Some? && FifoBatch(Run(n, actions, sha).value, batch)
    ensures forall k :: 0 <= k < |batch| ==> batch[k] < |Run(n, actions, sha).value.log|
  {
    RunKeeps(n, actions, sha);
  }

  /** The message a step of worker code settles or hands to the handler, if it does. */
  function Touched(s: State, a: Action): Option<nat> {
    match a
    case Resolve(w, _, _) => if Busy(s, w, Resolving) then Some(Current(s, w)) else None
    case Remove(w, _) => if Busy(s, w, Removing) then Some(Current(s, w)) else None
    case Send(w, _) => if Busy(s, w, Sending) then Some(Current(s, w)) else None
    case RemoveDead(w, _) => if Busy(s, w, RemovingDead) then Some(Current(s, w)) else None
    case _ => None
  }

  /**
   * Per-group order: when any worker resolves, handles, removes or
   * dead-letters a message, every earlier message of its group has left the
   * queue, and is on the dead-letter queue or was handled.
   */
  lemma {:induction false} GroupOrder(n: nat, actions: seq<Action>, sha: Bytes -> string, a: Action, j: nat)
    requires Run(n, actions, sha).Some? && Enabled(Run(n, actions, sha).value, a)
    requires Touched(Run(n, actions, sha).value, a).Some?
    requires var s := Run(n, actions, sha).value;
             var i := Touched(s, a).value;
             j < i && SameGroup(s, j, i)
    ensures var s := Run(n, actions, sha).value;
            j !in s.live && (j in s.dlq || (s.log[j].reading.Hook? && IdOf(s, j) in s.handled))
  {
    RunKeeps(n, actions, sha);
    var s := Run(n, actions, sha).value;
    assert WorkerInv(s, s.workers[a.w]);
    HeadIsFirst(s, a.w, j);
    assert Accounted(s, j);
  }

  /**
   * No id is remembered as handled twice in a process lifetime; ids that are
   * objects or arrays are all different.
   */
  lemma {:induction false} AtMostOnce(n: nat, actions: seq<Action>, sha: Bytes -> string, w: nat)
    requires Run(n, actions, sha).Some? && w < n
    ensures w < |Run(n, actions, sha).value.workers|
    ensures DistinctValues(Run(n, actions, sha).value.workers[w].done)
  {
    RunKeeps(n, actions, sha);
    WorkerCount(n, actions, sha);
  }

  lemma {:induction false} WorkerCount(n: nat, actions: seq<Action>, sha: Bytes -> string)
    requires Run(n, actions, sha).Some?
    ensures |Run(n, actions, sha).value.workers| == n
    decreases |actions|
  {
    if actions != [] {
      WorkerCount(n, actions[..|actions| - 1], sha);
    }
  }

  /** In every batch, per group, the settled messages form a prefix, and one fate is given out per message. */
  lemma {:induction false} SettledPrefix(n: nat, actions: seq<Action>, sha: Bytes -> string, w: nat)
    requires Run(n, actions, sha).Some? && w < |Run(n, actions, sha).value.workers|
    ensures var s := Run(n, actions, sha).value;
            var x := s.workers[w];
            |x.fates| <= |x.batch| && SettledFirst(s, x) && InLog(s, x) && FatesTrue(s, x)
  {
    RunKeeps(n, actions, sha);
    assert WorkerInv(Run(n, actions, sha).value, Run(n, actions, sha).value.workers[w]);
  }

  /**
   * A message no process has been able to settle: stuck for a worker that does
   * not know its id, and stuck for one that does or never known to any.
   */
  predicate Held(s: State, i: nat)
    requires i < |s.log|
  {
    Stuck(s.log[i], false) && (Stuck(s.log[i], true) || !Known(s.handled, IdOf(s, i)))
  }

  /**
   * A held message is still on the queue unless SQS itself moved it away, and
   * no worker handles, removes or dead-letters a later message of its group.
   */
  lemma {:induction false} HeldBlocksGroup(n: nat, actions: seq<Action>, sha: Bytes -> string, i: nat)
    requires Run(n, actions, sha).Some? && Redrive(i) !in actions
    requires var s := Run(n, actions, sha).value; i < |s.log| && Held(s, i)
    ensures i in Run(n, actions, sha).value.live
    ensures forall a ::
              Enabled(Run(n, actions, sha).value, a) && Touched(Run(n, actions, sha).value, a).Some?
              ==> !(i < Touched(Run(n, actions, sha).value, a).value
                    && SameGroup(Run(n, actions, sha).value, i, Touched(Run(n, actions, sha).value, a).value))
  {
    var s := Run(n, actions, sha).value;
    RunKeeps(n, actions, sha);
    StaysLive(n, actions, sha, i);
    hide Held;
    forall a | Enabled(s, a) && Touched(s, a).Some?
      ensures !(i < Touched(s, a).value && SameGroup(s, i, Touched(s, a).value))
    {
      assert WorkerInv(s, s.workers[a.w]);
      var k := Touched(s, a).value;
      if i < k && SameGroup(s, i, k) {
        HeadIsFirst(s, a.w, i);
      }
    }
  }

  lemma {:induction false} StaysLive(n: nat, actions: seq<Action>, sha: Bytes -> string, i: nat)
    requires Run(n, actions, sha).Some? && Redrive(i) !in actions
    requires var s := Run(n, actions, sha).value; i < |s.log| && Held(s, i)
    ensures i in Run(n, actions, sha).value.live
    decreases |actions|
  {
    if actions != [] {
      var earlier := actions[..|actions| - 1];
      var a := actions[|actions| - 1];
      var s := Run(n, earlier, sha).value;
      if i < |s.log| {
        assert s.log[i] == Run(n, actions, sha).value.log[i];
        assert Held(s, i);
        StaysLive(n, earlier, sha, i);
        RunKeeps(n, earlier, sha);
        if a.Remove? || a.RemoveDead? {
          assert WorkerInv(s, s.workers[a.w]);
        }
      }
    }
  }

  // ---------------------------------------------------------------------
  // One message, from the loop head on
  // ---------------------------------------------------------------------

  /** The step a worker takes next when the gateway answers `reply` and SQS does as asked. */
  function StepOf(w: nat, point: Point, reply: ClaimCheck.Reply, prints: bool): Action {
    match point
    case Head => Look(w)
    case Resolving => Resolve(w, reply, prints)
    case Removing => Remove(w, Done)
    case Sending => Send(w, Done)
    case RemovingDead => RemoveDead(w, Done)
    case BackingOff => BackOff(w, Done)
  }

  function StepsLeft(point: Point): nat {
    match point
    case Head => 5
    case Resolving => 4
    case Sending => 3
    case Removing => 2
    case RemovingDead => 2
    case BackingOff => 1
  }

  ghost predicate InHand(s: State, w: nat) {
    Inv(s) && w < |s.workers| && |s.workers[w].fates| < |s.workers[w].batch|
  }

  /** The rest of the loop body for the message in hand. */
  ghost function Pass(s: State, w: nat, reply: ClaimCheck.Reply, prints: bool, sha: Bytes -> string): State
    requires InHand(s, w)
    decreases StepsLeft(s.workers[w].point)
  {
    StepLeadsOn(s, w, reply, prints, sha);
    var t := Next(s, StepOf(w, s.workers[w].point, reply, prints), sha);
    if t.workers[w].point.Head? then t else Pass(t, w, reply, prints, sha)
  }

  lemma StepEnabled(s: State, w: nat, reply: ClaimCheck.Reply, prints: bool)
    requires InHand(s, w)
    ensures Enabled(s, StepOf(w, s.workers[w].point, reply, prints))
  {
    assert WorkerInv(s, s.workers[w]);
  }

  lemma StepLeadsOn(s: State, w: nat, reply: ClaimCheck.Reply, prints: bool, sha: Bytes -> string)
    requires InHand(s, w)
    ensures var a := StepOf(w, s.workers[w].point, reply, prints);
            && Enabled(s, a)
            && var t := Next(s, a, sha);
               && Inv(t) && w < |t.workers|
               && (!t.workers[w].point.Head? ==>
                     InHand(t, w) && StepsLeft(t.workers[w].point) < StepsLeft(s.workers[w].point)
                     && Current(t, w) == Current(s, w))
  {
    hide Inv, ClaimCheck.ResolveBody;
    StepEnabled(s, w, reply, prints);
    StepKeeps(s, StepOf(w, s.workers[w].point, reply, prints), sha);
  }

  /** From the dead-letter send on, the message ends on the dead-letter queue and off the queue. */
  lemma SendPass(s: State, w: nat, reply: ClaimCheck.Reply, prints: bool, sha: Bytes -> string)
    requires InHand(s, w) && (s.workers[w].point.Sending? || s.workers[w].point.RemovingDead?)
    ensures var t, i := Pass(s, w, reply, prints, sha), Current(s, w);
            && t.log == s.log && t.handled == s.handled && t.live == s.live - {i}
            && t.dlq == if s.workers[w].point.Sending? then s.dlq + [i] else s.dlq
    decreases StepsLeft(s.workers[w].point)
  {
    StepLeadsOn(s, w, reply, prints, sha);
    var t := Next(s, StepOf(w, s.workers[w].point, reply, prints), sha);
    hide Inv;
    if s.workers[w].point.Sending? {
      SendPass(t, w, reply, prints, sha);
    }
  }

  lemma RemovePass(s: State, w: nat, reply: ClaimCheck.Reply, prints: bool, sha: Bytes -> string)
    requires InHand(s, w) && s.workers[w].point.Removing?
    ensures var t, i := Pass(s, w, reply, prints, sha), Current(s, w);
            t.log == s.log && t.handled == s.handled && t.dlq == s.dlq && t.live == s.live - {i}
  {
    StepLeadsOn(s, w, reply, prints, sha);
    hide Inv;
  }

  lemma BackOffPass(s: State, w: nat, reply: ClaimCheck.Reply, prints: bool, sha: Bytes -> string)
    requires InHand(s, w) && s.workers[w].point.BackingOff?
    ensures var t := Pass(s, w, reply, prints, sha);
            t.log == s.log && t.handled == s.handled && t.dlq == s.dlq && t.live == s.live
  {
    StepLeadsOn(s, w, reply, prints, sha);
    hide Inv;
  }

  ghost predicate AtOpenHead(s: State, w: nat) {
    && InHand(s, w) && s.workers[w].point.Head?
    && Current(s, w) in s.live && s.log[Current(s, w)].group !in s.workers[w].blocked
  }

  predicate KnownTo(s: State, w: nat, i: nat)
    requires i < |s.log| && w < |s.workers|
  {
    s.log[i].reading.Hook? && Known(s.workers[w].processed, IdOf(s, i))
  }

  /** Nothing more is done about the message in hand: it is about to be backed off, or the process has died. */
  predicate Halted(s: State, w: nat) { Busy(s, w, BackingOff) || (w < |s.workers| && s.workers[w] == Started) }

  /**
   * A stuck message at an open loop head is let go whatever the gateway
   * replies: after the look or after the resolve the worker is backing off or
   * dead, with the message still on the queue, and backing off takes nothing
   * off it.
   */
  lemma StuckBacksOff(s: State, w: nat, reply: ClaimCheck.Reply, prints: bool, sha: Bytes -> string)
    requires AtOpenHead(s, w) && Stuck(s.log[Current(s, w)], KnownTo(s, w, Current(s, w)))
    ensures Enabled(s, Look(w))
    ensures var t := Next(s, Look(w), sha);
            && t.live == s.live
            && (!Halted(t, w) ==>
                  && Enabled(t, Resolve(w, reply, prints))
                  && var u := Next(t, Resolve(w, reply, prints), sha); Halted(u, w) && u.live == s.live)
    ensures Pass(s, w, reply, prints, sha).live == s.live
  {
    StepLeadsOn(s, w, reply, prints, sha);
    var t := Next(s, Look(w), sha);
    hide Inv, ClaimCheck.Redeem;
    if t.workers[w].point.BackingOff? {
      BackOffPass(t, w, reply, prints, sha);
    } else if t.workers[w].point.Resolving? {
      StepLeadsOn(t, w, reply, prints, sha);
      var u := Next(t, Resolve(w, reply, prints), sha);
      if u.workers[w].point.BackingOff? {
        BackOffPass(u, w, reply, prints, sha);
      }
    }
  }

  /** What one reply settles: for good, or with a body and nothing around the handler throwing. */
  predicate SettledBy(m: QueueMessage, known: bool, reply: ClaimCheck.Reply, prints: bool, sha: Bytes -> string) {
    match m.reading
    case Unreadable(reported) => reported
    case Explodes => false
    case Hook(_, source, handling) =>
      if known then !handling.failsAgain
      else
        match source
        case Unresolvable => false
        case Inline => !handling.failsBefore && !handling.failsAfter
        case ByClaim(claim, digest) =>
          || (ClaimCheck.Final(claim, digest, reply, sha)
              && (prints || !(ClaimCheck.Requestable(claim, digest) && ClaimCheck.Quoted(reply))))
          || (ClaimCheck.Delivers(claim, digest, reply, sha) && !handling.failsBefore && !handling.failsAfter && prints)
  }

  /** The reply sends the message to the dead-letter queue. */
  predicate DeadLettersIt(m: QueueMessage, known: bool, reply: ClaimCheck.Reply, prints: bool, sha: Bytes -> string) {
    match m.reading
    case Unreadable(reported) => reported
    case Explodes => false
    case Hook(_, source, _) =>
      && !known && source.ByClaim? && ClaimCheck.Final(source.claim, source.digest, reply, sha)
      && (prints || !(ClaimCheck.Requestable(source.claim, source.digest) && ClaimCheck.Quoted(reply)))
  }

  /** The reply hands the message to the handler, which returns. */
  predicate HandlesIt(m: QueueMessage, known: bool, reply: ClaimCheck.Reply, sha: Bytes -> string) {
    && m.reading.Hook? && !known && !m.reading.handling.failsBefore
    && var source := m.reading.source;
       source.Inline? || (source.ByClaim? && ClaimCheck.Delivers(source.claim, source.digest, reply, sha))
  }

  /**
   * One pass of the loop body from an open head, reply by reply, all it does to
   * the world: what leaves the queue, what the dead-letter queue gains, and
   * which id is handled.
   */
  lemma PassEffect(s: State, w: nat, reply: ClaimCheck.Reply, prints: bool, sha: Bytes -> string)
    requires AtOpenHead(s, w)
    ensures var i := Current(s, w);
            var m, known, t := s.log[i], KnownTo(s, w, i), Pass(s, w, reply, prints, sha);
            && t.log == s.log
            && t.live == (if SettledBy(m, known, reply, prints, sha) then s.live - {i} else s.live)
            && t.dlq == (if DeadLettersIt(m, known, reply, prints, sha) then s.dlq + [i] else s.dlq)
            && t.handled == (if HandlesIt(m, known, reply, sha) then s.handled + {IdOf(s, i)} else s.handled)
  {
    StepLeadsOn(s, w, reply, prints, sha);
    var t := Next(s, Look(w), sha);
    hide Inv, ClaimCheck.Final, ClaimCheck.Delivers, ClaimCheck.Requestable, ClaimCheck.Quoted;
    if t.workers[w].point.Resolving? {
      ResolvingPass(t, w, reply, prints, sha);
    } else {
      RestOfPass(t, w, Current(s, w), reply, prints, sha);
    }
  }

  lemma ResolvingPass(s: State, w: nat, reply: ClaimCheck.Reply, prints: bool, sha: Bytes -> string)
    requires InHand(s, w) && s.workers[w].point.Resolving? && Current(s, w) in s.live && s.log[Current(s, w)].reading.Hook?
    ensures var i := Current(s, w);
            var m, t := s.log[i], Pass(s, w, reply, prints, sha);
            && t.log == s.log
            && t.live == (if SettledBy(m, false, reply, prints, sha) then s.live - {i} else s.live)
            && t.dlq == (if DeadLettersIt(m, false, reply, prints, sha) then s.dlq + [i] else s.dlq)
            && t.handled == (if HandlesIt(m, false, reply, sha) then s.handled + {IdOf(s, i)} else s.handled)
  {
    var source := s.log[Current(s, w)].reading.source;
    ClaimCheck.ResolveOutcome(source, reply, sha);
    StepLeadsOn(s, w, reply, prints, sha);
    ClaimCheck.FinalOrDelivered(source, reply, sha);
    hide Inv, ClaimCheck.ResolveBody, ClaimCheck.Final, ClaimCheck.Delivers, ClaimCheck.Requestable, ClaimCheck.Quoted;
    RestOfPass(Next(s, Resolve(w, reply, prints), sha), w, Current(s, w), reply, prints, sha);
  }

  /** So the message leaves the queue exactly when the reply settles it, given what this worker remembers. */
  lemma PassSettles(s: State, w: nat, reply: ClaimCheck.Reply, prints: bool, sha: Bytes -> string)
    requires AtOpenHead(s, w)
    ensures Current(s, w) !in Pass(s, w, reply, prints, sha).live <==>
            SettledBy(s.log[Current(s, w)], KnownTo(s, w, Current(s, w)), reply, prints, sha)
  {
    hide Pass, SettledBy, DeadLettersIt, HandlesIt;
    PassEffect(s, w, reply, prints, sha);
  }

  /** From an await with the body resolved or not needed: settled unless the worker is backing off or dead. */
  lemma RestOfPass(s: State, w: nat, i: nat, reply: ClaimCheck.Reply, prints: bool, sha: Bytes -> string)
    requires Inv(s) && w < |s.workers| && i in s.live && !s.workers[w].point.Resolving?
    requires !s.workers[w].point.Head? ==> InHand(s, w) && Current(s, w) == i
    ensures var point := s.workers[w].point;
            var t := if point.Head? then s else Pass(s, w, reply, prints, sha);
            && t.log == s.log && t.handled == s.handled
            && t.live == (if point.BackingOff? || point.Head? then s.live else s.live - {i})
            && t.dlq == (if point.Sending? then s.dlq + [i] else s.dlq)
  {
    match s.workers[w].point
    case Head =>
    case Removing => RemovePass(s, w, reply, prints, sha);
    case BackingOff => BackOffPass(s, w, reply, prints, sha);
    case _ => SendPass(s, w, reply, prints, sha);
  }

  lemma SettledUnlessStuck(m: QueueMessage, known: bool, reply: ClaimCheck.Reply, prints: bool, sha: Bytes -> string)
    ensures SettledBy(m, known, reply, prints, sha) ==> !Stuck(m, known)
    ensures SettledBy(m, known, ClaimCheck.GONE, prints, sha) <==> !Stuck(m, known)
  {
    hide ClaimCheck.Requestable, ClaimCheck.Delivers;
  }

  /**
   * So at an open loop head some reply settles the message exactly when it is
   * not stuck for this worker, whatever can be printed of which reply.
   */
  lemma SettlesExactly(s: State, w: nat, prints: ClaimCheck.Reply -> bool, sha: Bytes -> string)
    requires AtOpenHead(s, w)
    ensures (exists reply :: Current(s, w) !in Pass(s, w, reply, prints(reply), sha).live) <==>
            !Stuck(s.log[Current(s, w)], KnownTo(s, w, Current(s, w)))
  {
    hide Pass, Stuck, SettledBy;
    var m, known := s.log[Current(s, w)], KnownTo(s, w, Current(s, w));
    if reply :| Current(s, w) !in Pass(s, w, reply, prints(reply), sha).live {
      PassSettles(s, w, reply, prints(reply), sha);
      SettledUnlessStuck(m, known, reply, prints(reply), sha);
    }
    PassSettles(s, w, ClaimCheck.GONE, prints(ClaimCheck.GONE), sha);
    SettledUnlessStuck(m, known, ClaimCheck.GONE, prints(ClaimCheck.GONE), sha);
  }

  /**
   * And an idle worker always gets to an open loop head: receiving the first
   * message of a group opens the group again, whatever earlier batches did.
   */
  lemma FirstOfGroupSettles(s: State, w: nat, i: nat, prints: ClaimCheck.Reply -> bool, sha: Bytes -> string)
    requires Inv(s) && w < |s.workers| && Idle(s.workers[w]) && i in s.live
    requires forall j: nat :: j in s.live && SameGroup(s, j, i) ==> i <= j
    ensures Enabled(s, Receive(w, [i])) && InHand(Next(s, Receive(w, [i]), sha), w)
    ensures (exists reply :: i !in Pass(Next(s, Receive(w, [i]), sha), w, reply, prints(reply), sha).live) <==>
            !Stuck(s.log[i], KnownTo(s, w, i))
  {
    hide Pass, Stuck;
    var a := Receive(w, [i]);
    assert FifoBatch(s, [i]);
    StepKeeps(s, a, sha);
    SettlesExactly(Next(s, a, sha), w, prints, sha);
  }

  /** What one pass does to the first message of a group, received by an idle worker. */
  lemma FirstOfGroupEffect(s: State, w: nat, i: nat, reply: ClaimCheck.Reply, prints: bool, sha: Bytes -> string)
    requires Inv(s) && w < |s.workers| && Idle(s.workers[w]) && i in s.live
    requires forall j: nat :: j in s.live && SameGroup(s, j, i) ==> i <= j
    ensures Enabled(s, Receive(w, [i])) && InHand(Next(s, Receive(w, [i]), sha), w)
    ensures var m, known := s.log[i], KnownTo(s, w, i);
            var t := Pass(Next(s, Receive(w, [i]), sha), w, reply, prints, sha);
            && t.live == (if SettledBy(m, known, reply, prints, sha) then s.live - {i} else s.live)
            && t.dlq == (if DeadLettersIt(m, known, reply, prints, sha) then s.dlq + [i] else s.dlq)
            && t.handled == (if HandlesIt(m, known, reply, sha) then s.handled + {IdOf(s, i)} else s.handled)
  {
    hide Pass, SettledBy, DeadLettersIt, HandlesIt;
    var a := Receive(w, [i]);
    assert FifoBatch(s, [i]);
    StepKeeps(s, a, sha);
    PassEffect(Next(s, a, sha), w, reply, prints, sha);
  }

  /**
   * When a worker starts dead-lettering: exactly on reading an unreadable
   * message of an open group that it can report, or on a final outcome for the
   * claim of an id it has not processed, unless it quotes what cannot be
   * printed. A network failure, a 5xx, a 408 or a 429 never does.
   */
  lemma {:induction false} DeadLettersExactly(n: nat, actions: seq<Action>, sha: Bytes -> string, a: Action, w: nat)
    requires Run(n, actions, sha).Some? && Enabled(Run(n, actions, sha).value, a)
    requires Busy(Run(n, actions, sha).value, w, Head) || Busy(Run(n, actions, sha).value, w, Resolving)
    ensures var s := Run(n, actions, sha).value;
            var m := s.log[Current(s, w)];
            Busy(Next(s, a, sha), w, Sending) <==>
              || (a == Look(w) && m.reading.Unreadable? && m.reading.reported && m.group !in s.workers[w].blocked)
              || (a.Resolve? && a.w == w && m.reading.source.ByClaim? && !Known(s.workers[w].processed, IdOf(s, Current(s, w)))
                  && var claim, digest := m.reading.source.claim, m.reading.source.digest;
                     && ClaimCheck.Final(claim, digest, a.reply, sha)
                     && (a.prints || !(ClaimCheck.Requestable(claim, digest) && ClaimCheck.Quoted(a.reply))))
  {
    RunKeeps(n, actions, sha);
    var s := Run(n, actions, sha).value;
    assert WorkerInv(s, s.workers[w]);
    hide Run, ClaimCheck.Final, ClaimCheck.ResolveBody, ClaimCheck.Requestable, ClaimCheck.Quoted, Inv, WorkerInv;
    if a.Resolve? && a.w == w {
      ClaimCheck.ResolveOutcome(s.log[Current(s, w)].reading.source, a.reply, sha);
    }
  }
}
