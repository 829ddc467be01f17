/**
 * The fleet consumer: a Postgres upsert keyed by idempotency key, and the
 * RabbitMQ callback that decides between ack, requeue and drop around it.
 */
module Fleet {
  import opened Text
  import opened Json
  import opened JavaScript
  import ClaimCheck

  /** What the body, its digest and `via` are computed from. */
  datatype Content = InlineOf(body: Option<Json>) | Redeemed(claim: string, bytes: Bytes)

  /** The columns only an insert writes. */
  datatype Columns = Columns(source: string, tenant: Option<string>, content: Content)

  /** What one handled message asks the table to record. */
  datatype Record = Record(key: string, id: string, columns: Columns)

  datatype Row = Row(ankusaId: string, columns: Columns, deliveries: nat, hookIds: seq<string>)

  type Table = map<string, Row>

  /** `INSERT ... ON CONFLICT (idempotency_key) DO UPDATE` */
  function Upsert(rows: Table, r: Record): Table {
    if r.key !in rows then rows[r.key := Row(r.id, r.columns, 1, [r.id])]
    else
      var row := rows[r.key];
      rows[r.key := row.(deliveries := row.deliveries + 1,
                         hookIds := if r.id in row.hookIds then row.hookIds else row.hookIds + [r.id])]
  }

  function TableOf(records: seq<Record>): Table {
    if records == [] then map[] else Upsert(TableOf(records[..|records| - 1]), records[|records| - 1])
  }

  /** The processed_webhooks table, updated in place. */
  class ProcessedWebhooks {
    var rows: Table
    ghost var records: seq<Record>

    ghost predicate Valid()
      reads this
    {
      rows == TableOf(records)
    }

    constructor ()
      ensures Valid() && records == []
    {
      rows, records := map[], [];
    }

    method RecordHook(r: Record)
      requires Valid()
      modifies this
      ensures Valid() && records == old(records) + [r]
      ensures forall key :: key != r.key ==> (key in rows <==> key in old(rows)) && (key in rows ==> rows[key] == old(rows)[key])
    {
      if r.key in rows {
        var row := rows[r.key];
        var ids := row.hookIds;
        if r.id !in ids {
          ids := ids + [r.id];
        }
        rows := rows[r.key := row.(deliveries := row.deliveries + 1, hookIds := ids)];
      } else {
        rows := rows[r.key := Row(r.id, r.columns, 1, [r.id])];
      }
      records := records + [r];
      assert records[..|records| - 1] == old(records);
    }
  }

  // ---------------------------------------------------------------------
  // What a row says of the records
  // ---------------------------------------------------------------------

  function Count(records: seq<Record>, key: string): nat {
    if records == [] then 0
    else Count(records[..|records| - 1], key) + if records[|records| - 1].key == key then 1 else 0
  }

  /** The ids recorded under a key, in arrival order, with repeats. */
  function Ids(records: seq<Record>, key: string): seq<string> {
    if records == [] then []
    else Ids(records[..|records| - 1], key) + if records[|records| - 1].key == key then [records[|records| - 1].id] else []
  }

  /** `distinct` lists the values of `all` once each, in the order they first occur. */
  ghost predicate FirstArrivals(distinct: seq<string>, all: seq<string>) {
    && (forall x :: x in distinct <==> x in all)
    && (forall i, j :: 0 <= i < j < |distinct| ==> IndexOf(all, distinct[i]) < IndexOf(all, distinct[j]))
  }

  lemma IndexOfPrefix(s: seq<string>, t: seq<string>, x: string)
    requires x in s
    ensures IndexOf(s + t, x) == IndexOf(s, x)
  {
    var i, j := IndexOf(s + t, x), IndexOf(s, x);
    assert (s + t)[j] == x;
    assert i <= j by {
      assert forall k :: 0 <= k < i ==> (s + t)[..i][k] == (s + t)[k];
    }
    assert j <= i by {
      assert forall k :: 0 <= k < j ==> s[..j][k] == s[k];
    }
  }

  lemma ArrivalsGrow(distinct: seq<string>, all: seq<string>, x: string)
    requires FirstArrivals(distinct, all)
    ensures FirstArrivals(if x in distinct then distinct else distinct + [x], all + [x])
  {
    var d := if x in distinct then distinct else distinct + [x];
    forall i, j | 0 <= i < j < |d|
      ensures IndexOf(all + [x], d[i]) < IndexOf(all + [x], d[j])
    {
      assert d[i] == distinct[i] && distinct[i] in all;
      IndexOfPrefix(all, [x], d[i]);
      if j < |distinct| {
        assert distinct[j] in all;
        IndexOfPrefix(all, [x], d[j]);
      } else {
        assert x !in all && d[j] == x;
        assert (all + [x])[|all|] == x;
        assert IndexOf(all + [x], x) >= |all| by {
          assert forall k :: 0 <= k < |all| ==> (all + [x])[k] == all[k];
        }
      }
    }
  }

  lemma FirstArrival(x: string)
    ensures FirstArrivals([x], [x])
  {
  }

  /**
   * After any sequence of upserts a key has a row exactly when it was
   * recorded; the row counts its records, and lists their distinct ids in
   * first-arrival order, the first being the id the row was inserted with.
   */
  lemma {:induction false} RowsAreExact(records: seq<Record>, key: string)
    ensures key in TableOf(records) <==> Count(records, key) > 0
    ensures key in TableOf(records) ==>
              var row := TableOf(records)[key];
              && row.deliveries == Count(records, key)
              && FirstArrivals(row.hookIds, Ids(records, key))
              && row.hookIds != [] && row.hookIds[0] == row.ankusaId
    ensures key !in TableOf(records) ==> Ids(records, key) == []
    decreases |records|
  {
    hide FirstArrivals;
    if records != [] {
      var before, r := records[..|records| - 1], records[|records| - 1];
      RowsAreExact(before, key);
      if r.key == key {
        if key in TableOf(before) {
          ArrivalsGrow(TableOf(before)[key].hookIds, Ids(before, key), r.id);
        } else {
          assert Ids(records, key) == [r.id];
          FirstArrival(r.id);
        }
      } else {
        assert Ids(records, key) == Ids(before, key);
      }
    }
  }

  /** The row's insert-only columns are those of the first record of its key. */
  ghost predicate InsertedBy(records: seq<Record>, k: nat, row: Row)
    requires k < |records|
  {
    && row.ankusaId == records[k].id && row.columns == records[k].columns
    && forall j :: 0 <= j < k ==> records[j].key != records[k].key
  }

  lemma {:induction false} FirstRecordInserts(records: seq<Record>, key: string) returns (k: nat)
    requires key in TableOf(records)
    ensures k < |records| && records[k].key == key && InsertedBy(records, k, TableOf(records)[key])
    decreases |records|
  {
    var n := |records| - 1;
    var before := records[..n];
    if key in TableOf(before) {
      k := FirstRecordInserts(before, key);
    } else {
      k := n;
      forall j | 0 <= j < n
        ensures records[j].key != key
      {
        if records[j].key == key {
          assert before[j] == records[j];
          RecordedHasRow(before, records[j]);
          RowsAreExact(before, key);
        }
      }
    }
  }

  /** `deliveries` summed over the table. */
  ghost function Total(rows: Table): nat {
    if rows == map[] then 0 else var key :| key in rows; rows[key].deliveries + Total(rows - {key})
  }

  lemma {:induction false} TotalSplits(rows: Table, key: string)
    requires key in rows
    ensures Total(rows) == rows[key].deliveries + Total(rows - {key})
    decreases |rows|
  {
    var chosen :| chosen in rows && Total(rows) == rows[chosen].deliveries + Total(rows - {chosen});
    if chosen != key {
      TotalSplits(rows - {chosen}, key);
      TotalSplits(rows - {key}, chosen);
      assert rows - {chosen} - {key} == rows - {key} - {chosen};
    }
  }

  /** No record is counted twice or not at all. */
  lemma {:induction false} DeliveriesAddUp(records: seq<Record>)
    ensures Total(TableOf(records)) == |records|
    decreases |records|
  {
    if records != [] {
      var before, r := records[..|records| - 1], records[|records| - 1];
      DeliveriesAddUp(before);
      var rows, rows' := TableOf(before), TableOf(records);
      TotalSplits(rows', r.key);
      if r.key in rows {
        TotalSplits(rows, r.key);
      }
      assert rows' - {r.key} == rows - {r.key};
      assert r.key !in rows ==> rows - {r.key} == rows;
    }
  }

  lemma {:induction false} CountRemove(records: seq<Record>, i: nat, key: string)
    requires i < |records|
    ensures var rest := records[..i] + records[i + 1..];
            && Count(records, key) == Count(rest, key) + (if records[i].key == key then 1 else 0)
            && (forall id :: id in Ids(records, key) <==> id in Ids(rest, key) || (records[i].key == key && records[i].id == id))
    decreases |records|
  {
    var n := |records| - 1;
    var rest := records[..i] + records[i + 1..];
    if i == n {
      assert rest == records[..n];
    } else {
      var before := records[..n];
      CountRemove(before, i, key);
      assert rest[..|rest| - 1] == before[..i] + before[i + 1..];
      assert rest[|rest| - 1] == records[n];
    }
  }

  /** Taking one occurrence out of each of two orderings of the same records leaves orderings of the same records. */
  lemma WithoutOne<T>(records: seq<T>, records': seq<T>) returns (i: nat)
    requires multiset(records) == multiset(records') && records != []
    ensures i < |records'| && records'[i] == records[|records| - 1]
    ensures multiset(records[..|records| - 1]) == multiset(records'[..i] + records'[i + 1..])
  {
    var n := |records| - 1;
    var r := records[n];
    assert r in multiset(records');
    i :| 0 <= i < |records'| && records'[i] == r;
    var rest, rest' := records[..n], records'[..i] + records'[i + 1..];
    assert records == rest + [r];
    assert records' == records'[..i] + [r] + records'[i + 1..];
    assert multiset(rest) == multiset(records) - multiset{r} == multiset(rest');
  }

  /** Any order of the same records gives the same counts and the same sets of ids. */
  lemma {:induction false} OrderIrrelevant(records: seq<Record>, records': seq<Record>, key: string)
    requires multiset(records) == multiset(records')
    ensures Count(records, key) == Count(records', key)
    ensures forall id :: id in Ids(records, key) <==> id in Ids(records', key)
    decreases |records|
  {
    if records == [] {
      assert |multiset(records')| == 0;
    } else {
      var n := |records| - 1;
      var i := WithoutOne(records, records');
      OrderIrrelevant(records[..n], records'[..i] + records'[i + 1..], key);
      CountRemove(records', i, key);
    }
  }

  /** So two tables filled in any two orders have the same keys, counts and id sets. */
  lemma {:induction false} TablesAgree(records: seq<Record>, records': seq<Record>, key: string)
    requires multiset(records) == multiset(records')
    ensures key in TableOf(records) <==> key in TableOf(records')
    ensures key in TableOf(records) ==>
              var a, b := TableOf(records)[key], TableOf(records')[key];
              a.deliveries == b.deliveries && forall id :: id in a.hookIds <==> id in b.hookIds
  {
    RowsAreExact(records, key);
    RowsAreExact(records', key);
    OrderIrrelevant(records, records', key);
  }

  // ---------------------------------------------------------------------
  // The callback
  // ---------------------------------------------------------------------

  /**
   * What is outside this code: the limits of the process, the text a column
   * stores for a JSON value or `None` where the database refuses it, and
   * SHA-256.
   */
  datatype Platform = Platform(runtime: Runtime, column: Json -> Option<string>, sha: Bytes -> string)

  /** A message's body source; `Broken` is one whose parsing or reading throws some other exception. */
  datatype Source = Broken | Inline | ByClaim(claim: string, digest: string) | ClaimWithoutDigest

  /** A member of the parsed message; every value but an object has none. */
  function Member(input: Input, key: Key): Option<Json> {
    if input.Parsed? && input.value.JObject? then Get(input.value.members, key) else None
  }

  /** `JSON.parse`, then `resolveBody` up to the request; looking for a member of `null` throws. */
  function SourceOf(input: Input, env: Platform): Source {
    if input.NotJson? || input.value.JNull? then Broken
    else if Truthy(Member(input, Claim)) then
      if !Truthy(Member(input, Sha256)) then ClaimWithoutDigest
      else
        match RedeemArguments(Member(input, Claim).value, Member(input, Sha256).value, env.runtime)
        case None => Broken
        case Some((claim, digest)) => ByClaim(claim, digest)
    else if Bufferable(Member(input, BodyBase64), env.runtime) then Inline
    else Broken
  }

  /** `a ?? b` */
  function Coalesce(a: Option<Json>, b: Option<Json>): Option<Json> {
    if a.Some? && !a.value.JNull? then a else b
  }

  /** The text stored in a `NOT NULL` column. */
  function Stored(j: Option<Json>, env: Platform): Option<string> {
    if j.None? || j.value.JNull? then None else env.column(j.value)
  }

  function StoredKey(input: Input, env: Platform): Option<string> {
    Stored(Coalesce(Member(input, IdempotencyKey), Member(input, Id)), env)
  }

  function StoredId(input: Input, env: Platform): Option<string> { Stored(Member(input, Id), env) }

  predicate IsNull(j: Option<Json>) { j.None? || j.value.JNull? }

  /** The database takes the row: key, id and source are there, and nothing has a text it refuses. */
  predicate Recordable(input: Input, env: Platform) {
    && StoredKey(input, env).Some? && StoredId(input, env).Some? && Stored(Member(input, SourceId), env).Some?
    && (IsNull(Member(input, TenantId)) || Stored(Member(input, TenantId), env).Some?)
  }

  function RecordOf(input: Input, content: Content, env: Platform): Record
    requires Recordable(input, env)
  {
    Record(StoredKey(input, env).value, StoredId(input, env).value,
           Columns(Stored(Member(input, SourceId), env).value, Stored(Member(input, TenantId), env), content))
  }

  /** What can go wrong around the database write. */
  datatype Fault = Fine | WriteFails | DiesBeforeAck

  datatype State = State(log: seq<Input>, queued: set<nat>, records: seq<Record>, dropped: seq<nat>)

  datatype Action = Publish(input: Input) | Consume(i: nat, reply: ClaimCheck.Reply, fault: Fault)

  datatype Resolution = Resolved(content: Content) | Permanent | Transient

  function Resolve(source: Source, body: Option<Json>, reply: ClaimCheck.Reply, sha: Bytes -> string): Resolution {
    match source
    case Broken => Transient
    case Inline => Resolved(InlineOf(body))
    case ClaimWithoutDigest => Permanent
    case ByClaim(claim, digest) =>
      var r := ClaimCheck.Redeem(claim, digest, reply, sha);
      if r.Body? then Resolved(Redeemed(claim, r.bytes)) else if r.failure.Permanent() then Permanent else Transient
  }

  function ResolveBody(input: Input, reply: ClaimCheck.Reply, env: Platform): Resolution {
    Resolve(SourceOf(input, env), Member(input, BodyBase64), reply, env.sha)
  }

  /** Read, resolve, record, ack; a permanent claim failure is rejected without requeue, anything else requeued. */
  function Next(s: State, a: Action, env: Platform): State {
    match a
    case Publish(input) => s.(log := s.log + [input], queued := s.queued + {|s.log|})
    case Consume(i, reply, fault) =>
      if i !in s.queued || i >= |s.log| then s
      else
        match ResolveBody(s.log[i], reply, env)
        case Transient => s
        case Permanent => s.(queued := s.queued - {i}, dropped := s.dropped + [i])
        case Resolved(content) =>
          if fault.WriteFails? || !Recordable(s.log[i], env) then s
          else
            s.(records := s.records + [RecordOf(s.log[i], content, env)],
               queued := if fault.DiesBeforeAck? then s.queued else s.queued - {i})
  }

  function Run(actions: seq<Action>, env: Platform): State {
    if actions == [] then State([], {}, [], [])
    else Next(Run(actions[..|actions| - 1], env), actions[|actions| - 1], env)
  }

  ghost predicate Recorded(s: State, i: nat, env: Platform)
    requires i < |s.log|
  {
    Recordable(s.log[i], env) && exists content :: RecordOf(s.log[i], content, env) in s.records
  }

  ghost predicate Inv(s: State, env: Platform) {
    && (forall i :: i in s.queued ==> i < |s.log|)
    && (forall i :: i in s.dropped ==> i < |s.log| && Truthy(Member(s.log[i], Claim)))
    && (forall i: nat :: i < |s.log| ==> i in s.queued || i in s.dropped || Recorded(s, i, env))
  }

  lemma RecordingKeeps(s: State, i: nat, content: Content, env: Platform, acked: bool)
    requires Inv(s, env) && i < |s.log| && Recordable(s.log[i], env)
    ensures Inv(s.(records := s.records + [RecordOf(s.log[i], content, env)],
                   queued := if acked then s.queued - {i} else s.queued), env)
  {
    var r := RecordOf(s.log[i], content, env);
    var t := s.(records := s.records + [r], queued := if acked then s.queued - {i} else s.queued);
    hide RecordOf, Recordable;
    assert t.records[|s.records|] == r;
    forall j: nat | j < |t.log|
      ensures j in t.queued || j in t.dropped || Recorded(t, j, env)
    {
      if j !in s.queued && j !in s.dropped {
        var c :| RecordOf(s.log[j], c, env) in s.records;
        assert RecordOf(t.log[j], c, env) in t.records;
      }
    }
  }

  lemma PermanentNeedsClaim(input: Input, reply: ClaimCheck.Reply, env: Platform)
    requires ResolveBody(input, reply, env).Permanent?
    ensures Truthy(Member(input, Claim))
  {
    hide ClaimCheck.Redeem, RedeemArguments, Bufferable;
  }

  lemma StepKeeps(s: State, a: Action, env: Platform)
    requires Inv(s, env)
    ensures Inv(Next(s, a, env), env)
  {
    hide ResolveBody, RecordOf, Recordable;
    var t := Next(s, a, env);
    match a
    case Publish(_) =>
      forall j: nat | j < |t.log|
        ensures j in t.queued || j in t.dropped || Recorded(t, j, env)
      {
        assert j < |s.log| ==> j in s.queued || j in s.dropped || Recorded(s, j, env);
      }
    case Consume(i, reply, fault) =>
      if i in s.queued && ResolveBody(s.log[i], reply, env).Permanent? {
        PermanentNeedsClaim(s.log[i], reply, env);
        assert t.dropped[|s.dropped|] == i;
        forall j: nat | j < |t.log|
          ensures j in t.queued || j in t.dropped || Recorded(t, j, env)
        {
          assert j in s.queued || j in s.dropped || Recorded(s, j, env);
        }
      } else if i in s.queued && ResolveBody(s.log[i], reply, env).Resolved? && Recordable(s.log[i], env) {
        RecordingKeeps(s, i, ResolveBody(s.log[i], reply, env).content, env, !fault.DiesBeforeAck?);
      }
  }

  lemma {:induction false} RunKeeps(actions: seq<Action>, env: Platform)
    ensures Inv(Run(actions, env), env)
    decreases |actions|
  {
    if actions != [] {
      RunKeeps(actions[..|actions| - 1], env);
      StepKeeps(Run(actions[..|actions| - 1], env), actions[|actions| - 1], env);
    }
  }

  lemma {:induction false} RecordedHasRow(records: seq<Record>, r: Record)
    requires r in records
    ensures Count(records, r.key) > 0 && r.id in Ids(records, r.key)
    decreases |records|
  {
    var n := |records| - 1;
    if records[n] != r {
      assert records == records[..n] + [records[n]];
      RecordedHasRow(records[..n], r);
    }
  }

  /**
   * Every published message is still queued, or its id is in the row of its
   * key, or it was dropped: and only a message with a claim is ever dropped.
   */
  lemma {:induction false} QueuedRecordedOrDropped(actions: seq<Action>, env: Platform, i: nat)
    requires i < |Run(actions, env).log|
    ensures var s := Run(actions, env);
            var key, id := StoredKey(s.log[i], env), StoredId(s.log[i], env);
            || i in s.queued
            || (key.Some? && id.Some? && key.value in TableOf(s.records) && id.value in TableOf(s.records)[key.value].hookIds)
            || (i in s.dropped && Truthy(Member(s.log[i], Claim)))
  {
    RunKeeps(actions, env);
    var s := Run(actions, env);
    if i !in s.queued && i !in s.dropped {
      var content :| RecordOf(s.log[i], content, env) in s.records;
      var r := RecordOf(s.log[i], content, env);
      RecordedHasRow(s.records, r);
      RowsAreExact(s.records, r.key);
    }
  }

  /** A claim with no digest, or a final claim outcome. */
  predicate Rejected(source: Source, reply: ClaimCheck.Reply, sha: Bytes -> string) {
    source.ClaimWithoutDigest? || (source.ByClaim? && ClaimCheck.Final(source.claim, source.digest, reply, sha))
  }

  /** The callback drops a queued message exactly on a claim with no digest or a final claim outcome. */
  lemma DropsExactly(s: State, i: nat, reply: ClaimCheck.Reply, fault: Fault, env: Platform)
    requires i in s.queued && i < |s.log|
    ensures Next(s, Consume(i, reply, fault), env).dropped != s.dropped <==>
            Rejected(SourceOf(s.log[i], env), reply, env.sha)
  {
    hide Rejected, Resolve, SourceOf, Recordable;
    ResolveIsPermanent(SourceOf(s.log[i], env), Member(s.log[i], BodyBase64), reply, env.sha);
    assert |s.dropped + [i]| != |s.dropped|;
  }

  lemma ResolveIsPermanent(source: Source, body: Option<Json>, reply: ClaimCheck.Reply, sha: Bytes -> string)
    ensures Resolve(source, body, reply, sha).Permanent? <==> Rejected(source, reply, sha)
  {
    hide ClaimCheck.Redeem, ClaimCheck.Final, ClaimCheck.Requestable, ClaimCheck.Delivers, ClaimCheck.Quoted;
    if source.ByClaim? {
      ClaimCheck.RedeemOutcome(source.claim, source.digest, reply, sha);
    }
  }

  /** Requeued whatever happens: it cannot be read, or it has no claim and the database refuses its row. */
  predicate Hopeless(input: Input, env: Platform) {
    SourceOf(input, env).Broken? || (!Truthy(Member(input, Claim)) && !Recordable(input, env))
  }

  /** Some reply takes a queued message off the queue exactly when it is not hopeless. */
  lemma LeavesExactly(s: State, i: nat, env: Platform)
    requires i in s.queued && i < |s.log|
    ensures (exists reply, fault :: i !in Next(s, Consume(i, reply, fault), env).queued) <==> !Hopeless(s.log[i], env)
  {
    hide ResolveBody, SourceOf, Recordable;
        if Hopeless(s.log[i], env) {
      forall reply, fault
        ensures i in Next(s, Consume(i, reply, fault), env).queued
      {
        HopelessStays(s.log[i], reply, env);
      }
    } else {
      GoneLeaves(s.log[i], env);
      assert i !in Next(s, Consume(i, ClaimCheck.GONE, Fine), env).queued;
    }
  }

  lemma HopelessStays(input: Input, reply: ClaimCheck.Reply, env: Platform)
    requires Hopeless(input, env)
    ensures var r := ResolveBody(input, reply, env); r.Transient? || (r.Resolved? && !Recordable(input, env))
  {
    hide ClaimCheck.Redeem, RedeemArguments, Bufferable, Recordable;
  }

  lemma GoneLeaves(input: Input, env: Platform)
    requires !Hopeless(input, env)
    ensures var r := ResolveBody(input, ClaimCheck.GONE, env); r.Permanent? || (r.Resolved? && Recordable(input, env))
  {
    ResolveIsPermanent(SourceOf(input, env), Member(input, BodyBase64), ClaimCheck.GONE, env.sha);
    hide RedeemArguments, Bufferable, Recordable, ClaimCheck.Redeem;
  }

  // ---------------------------------------------------------------------
  // One delivery, said on the JSON
  // ---------------------------------------------------------------------

  /** A member that is there and not `null`, as a column stores it. */
  predicate StoredAs(o: Members, key: Key, env: Platform, text: string) {
    key in o && o[key] != JNull && env.column(o[key]) == Some(text)
  }

  predicate IsNullIn(o: Members, key: Key) { key !in o || o[key] == JNull }

  /**
   * The record of an object: under its `idempotency_key` where it has one that
   * is not `null`, else under its `id`; with its own `id`, source and tenant.
   */
  predicate Records(o: Members, r: Record, env: Platform) {
    && StoredAs(o, if IsNullIn(o, IdempotencyKey) then Id else IdempotencyKey, env, r.key)
    && StoredAs(o, Id, env, r.id)
    && StoredAs(o, SourceId, env, r.columns.source)
    && match r.columns.tenant
       case None => IsNullIn(o, TenantId)
       case Some(tenant) => StoredAs(o, TenantId, env, tenant)
  }

  /** The body of an object is in hand: redeemed with its own claim, or inline. */
  predicate HasBody(o: Members, content: Content, reply: ClaimCheck.Reply, env: Platform) {
    if Truthy(Get(o, Claim)) then
      && Truthy(Get(o, Sha256)) && DeliversFor(o[Claim], o[Sha256], reply, env.runtime, env.sha)
      && content == Redeemed(RedeemArguments(o[Claim], o[Sha256], env.runtime).value.0, reply.body)
    else Bufferable(Get(o, BodyBase64), env.runtime) && content == InlineOf(Get(o, BodyBase64))
  }

  predicate Drops(o: Members, reply: ClaimCheck.Reply, env: Platform) {
    Truthy(Get(o, Claim)) && (!Truthy(Get(o, Sha256)) || FinalFor(o[Claim], o[Sha256], reply, env.runtime, env.sha))
  }

  lemma ResolvesOnJson(o: Members, reply: ClaimCheck.Reply, env: Platform)
    ensures var r := ResolveBody(Parsed(JObject(o)), reply, env);
            && (r.Permanent? <==> Drops(o, reply, env))
            && (forall content :: r == Resolved(content) <==> HasBody(o, content, reply, env))
  {
    hide RedeemArguments, Bufferable, ClaimCheck.Redeem, ClaimCheck.Final, ClaimCheck.Delivers, ClaimCheck.Requestable, ClaimCheck.Quoted;
    var source := SourceOf(Parsed(JObject(o)), env);
    if source.ByClaim? {
      ClaimCheck.RedeemOutcome(source.claim, source.digest, reply, env.sha);
      ClaimCheck.FinalOrDelivered(ClaimCheck.ByClaim(source.claim, source.digest), reply, env.sha);
    }
  }

  lemma RecordsOnJson(o: Members, content: Content, r: Record, env: Platform)
    ensures var input := Parsed(JObject(o));
            Recordable(input, env) && r == RecordOf(input, content, env) <==> Records(o, r, env) && r.columns.content == content
  {
  }

  /**
   * Everything one consumption of a queued object does: which record it writes,
   * if any, what is dropped, and what leaves the queue.
   */
  lemma ConsumeExits(s: State, i: nat, o: Members, reply: ClaimCheck.Reply, fault: Fault, env: Platform)
    requires i in s.queued && i < |s.log| && s.log[i] == Parsed(JObject(o))
    ensures var t := Next(s, Consume(i, reply, fault), env);
            && t.log == s.log
            && t.dropped == (if Drops(o, reply, env) then s.dropped + [i] else s.dropped)
            && (t.records == s.records || exists r :: t.records == s.records + [r])
            && (forall r :: t.records == s.records + [r] <==>
                  !fault.WriteFails? && Records(o, r, env) && HasBody(o, r.columns.content, reply, env))
            && t.queued == (if Drops(o, reply, env) || (t.records != s.records && !fault.DiesBeforeAck?) then s.queued - {i} else s.queued)
  {
    ResolvesOnJson(o, reply, env);
    hide ResolveBody, Drops, HasBody, Recordable, RecordOf, Records;
    var t, resolved := Next(s, Consume(i, reply, fault), env), ResolveBody(s.log[i], reply, env);
    forall r
      ensures t.records == s.records + [r] <==> !fault.WriteFails? && Records(o, r, env) && HasBody(o, r.columns.content, reply, env)
    {
      RecordsOnJson(o, r.columns.content, r, env);
      assert |s.records + [r]| != |s.records|;
      if resolved.Resolved? && Recordable(s.log[i], env) {
        LastIs(s.records, RecordOf(s.log[i], resolved.content, env), r);
        RecordsOnJson(o, resolved.content, RecordOf(s.log[i], resolved.content, env), env);
      }
    }
    if resolved.Resolved? && Recordable(s.log[i], env) {
      assert |s.records + [RecordOf(s.log[i], resolved.content, env)]| != |s.records|;
    }
  }

  lemma LastIs<T>(xs: seq<T>, x: T, y: T)
    ensures xs + [x] == xs + [y] <==> x == y
  {
    assert (xs + [x])[|xs|] == x && (xs + [y])[|xs|] == y;
  }

  /** Text that is not JSON, and JSON that is no object, is requeued untouched. */
  lemma OthersAreRequeued(s: State, i: nat, reply: ClaimCheck.Reply, fault: Fault, env: Platform)
    requires i in s.queued && i < |s.log| && !(s.log[i].Parsed? && s.log[i].value.JObject?)
    ensures Next(s, Consume(i, reply, fault), env) == s
  {
    hide ClaimCheck.Redeem, RedeemArguments, Bufferable;
  }

  /**
   * The row a record lands in: a new one with the record's own columns, or the
   * one there with one delivery more and the id among its ids.
   */
  lemma RowGains(records: seq<Record>, r: Record)
    ensures var before, after := TableOf(records), TableOf(records + [r]);
            && r.key in after && r.id in after[r.key].hookIds
            && (r.key !in before ==> after[r.key] == Row(r.id, r.columns, 1, [r.id]))
            && (r.key in before ==>
                  after[r.key].deliveries == before[r.key].deliveries + 1 && after[r.key].columns == before[r.key].columns)
            && (forall key :: key != r.key ==> (key in after <==> key in before) && (key in before ==> after[key] == before[key]))
  {
    assert (records + [r])[..|records + [r]| - 1] == records;
  }
}
