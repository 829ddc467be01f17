/** The tenant-scoped sources client: id checks, the version latch, and the requests it lets out. */
module SourcesClient {
  import opened Text
  import ClaimRef
  import Json
  import Urls

  /** A response body read as JSON: not JSON, nested too deep for the parser, or a value. */
  datatype Payload = NotJson | TooDeep | Value(json: Json.Json)

  /** What comes back for `GET /health`: a transport failure, or a status and a body. */
  datatype Answer = Unreachable | Answered(status: int, body: Payload)

  const VERSION := Json.Other("version")

  /** The version an answer reports: status 200 and a JSON object whose `version` is a string. */
  function Reported(answer: Answer): Option<string> {
    if answer.Answered? && answer.status == 200 && answer.body.Value? && answer.body.json.JObject? then
      var members := answer.body.json.members;
      if VERSION in members && members[VERSION].JString? then Some(members[VERSION].s) else None
    else None
  }

  /** How fetching the version ends: with it, with the client's own error, or with some other exception. */
  datatype Fetching = Version(version: string) | Unavailable | Escapes

  datatype Operation =
    | ListSources(tenant: string)
    | GetSource(tenant: string, name: string)
    | CreateSource(tenant: string, name: string)
    | UpdateSource(tenant: string, name: string)
    | DeleteSource(tenant: string, name: string)

  /** One client call, with the answer `/health` would give if asked during it. */
  datatype Call = ServerVersion(health: Answer) | Api(op: Operation, health: Answer)

  datatype Request = HealthRequest(health: Answer) | TenantRequest(path: string)

  /** A client: what it expects, what it has cached, and every request it sent. */
  datatype Client = Client(expected: Option<string>, version: Option<string>, sent: seq<Request>)

  /** `^[A-Za-z0-9_-]{1,64}$`, the rule claim refs use for their tenant. */
  predicate IsSafeId(s: string) { ClaimRef.IsTenant(s) }

  predicate IsValid(op: Operation) {
    IsSafeId(op.tenant) && (!op.ListSources? ==> IsSafeId(op.name))
  }

  function Segments(op: Operation): seq<string> {
    match op
    case ListSources(t) => ["v1", "tenants", t, "sources"]
    case CreateSource(t, _) => ["v1", "tenants", t, "sources"]
    case GetSource(t, n) => ["v1", "tenants", t, "sources", n]
    case UpdateSource(t, n) => ["v1", "tenants", t, "sources", n]
    case DeleteSource(t, n) => ["v1", "tenants", t, "sources", n]
  }

  function Path(op: Operation): string { Urls.PathOf(Segments(op)) }

  /** The cached version, fetched when there is none yet. */
  function Fetched(c: Client, health: Answer): Client {
    if c.version.Some? then c
    else c.(version := Reported(health), sent := c.sent + [HealthRequest(health)])
  }

  function Do(c: Client, call: Call): Client {
    match call
    case ServerVersion(health) => Fetched(c, health)
    case Api(op, health) =>
      if !IsValid(op) then c
      else if c.expected.None? then c.(sent := c.sent + [TenantRequest(Path(op))])
      else
        var d := Fetched(c, health);
        if d.version == c.expected then d.(sent := d.sent + [TenantRequest(Path(op))]) else d
  }

  function Run(expected: Option<string>, calls: seq<Call>): Client {
    if calls == [] then Client(expected, None, [])
    else Do(Run(expected, calls[..|calls| - 1]), calls[|calls| - 1])
  }

  predicate Succeeded(r: Request) { r.HealthRequest? && Reported(r.health).Some? }

  predicate ReportsVersion(r: Request, version: string) { r.HealthRequest? && Reported(r.health) == Some(version) }

  ghost predicate Inv(c: Client) {
    && (forall i, j :: 0 <= i < j < |c.sent| && Succeeded(c.sent[i]) ==> !Succeeded(c.sent[j]))
    && (forall i :: 0 <= i < |c.sent| && Succeeded(c.sent[i]) ==> c.version == Reported(c.sent[i].health))
    && (c.version.Some? ==> exists i :: 0 <= i < |c.sent| && ReportsVersion(c.sent[i], c.version.value))
    && (c.expected.Some? ==> forall i :: 0 <= i < |c.sent| && c.sent[i].TenantRequest? ==> Cleared(c, i))
  }

  /** A health request reporting exactly the expected version came before request `i`. */
  ghost predicate Cleared(c: Client, i: nat)
    requires i <= |c.sent| && c.expected.Some?
  {
    exists j :: 0 <= j < i && ReportsVersion(c.sent[j], c.expected.value)
  }

  /** Before any version is known, an expecting client has sent no tenant request. */
  lemma NoneCleared(c: Client, i: nat)
    requires Inv(c) && c.version.None? && c.expected.Some? && i < |c.sent|
    ensures !c.sent[i].TenantRequest?
  {
  }

  lemma FetchedKeeps(c: Client, health: Answer)
    requires Inv(c)
    ensures Inv(Fetched(c, health))
  {
    var d := Fetched(c, health);
    if c.version.None? {
      assert d.sent[|c.sent|] == HealthRequest(health);
      forall i | c.expected.Some? && 0 <= i < |c.sent|
        ensures !c.sent[i].TenantRequest?
      {
        NoneCleared(c, i);
      }
    }
  }

  lemma SendKeeps(c: Client, path: string)
    requires Inv(c) && (c.expected.Some? ==> c.version == c.expected)
    ensures Inv(c.(sent := c.sent + [TenantRequest(path)]))
  {
    var d := c.(sent := c.sent + [TenantRequest(path)]);
    if c.version.Some? {
      var k :| 0 <= k < |c.sent| && ReportsVersion(c.sent[k], c.version.value);
      assert d.sent[k] == c.sent[k];
    }
    forall i | c.expected.Some? && 0 <= i < |d.sent| && d.sent[i].TenantRequest?
      ensures Cleared(d, i)
    {
      if i < |c.sent| {
        assert Cleared(c, i);
        var j :| 0 <= j < i && ReportsVersion(c.sent[j], c.expected.value);
        assert d.sent[j] == c.sent[j];
      }
    }
  }

  lemma {:induction false} RunKeeps(expected: Option<string>, calls: seq<Call>)
    ensures Inv(Run(expected, calls)) && Run(expected, calls).expected == expected
  {
    if calls != [] {
      var c, call := Run(expected, calls[..|calls| - 1]), calls[|calls| - 1];
      RunKeeps(expected, calls[..|calls| - 1]);
      FetchedKeeps(c, call.health);
      if call.Api? {
        var d := if expected.None? then c else Fetched(c, call.health);
        if IsValid(call.op) && (expected.Some? ==> d.version == expected) {
          SendKeeps(d, Path(call.op));
        }
      }
    }
  }

  /**
   * The latch, over every sequence of calls: at most one `/health` ever
   * succeeds, and with a version expected no tenant request goes out before a
   * `/health` that reported exactly it.
   */
  lemma {:induction false} LatchHolds(expected: string, calls: seq<Call>, i: nat)
    requires i < |Run(Some(expected), calls).sent| && Run(Some(expected), calls).sent[i].TenantRequest?
    ensures Run(Some(expected), calls).expected == Some(expected) && Cleared(Run(Some(expected), calls), i)
    ensures Run(Some(expected), calls).version == Some(expected)
  {
    RunKeeps(Some(expected), calls);
    var c := Run(Some(expected), calls);
    assert Cleared(c, i);
    var j :| 0 <= j < i && ReportsVersion(c.sent[j], expected);
    assert Succeeded(c.sent[j]);
  }

  /** At most one health request of a client ever succeeds. */
  lemma {:induction false} OneHealthSucceeds(expected: Option<string>, calls: seq<Call>, i: nat, j: nat)
    requires var sent := Run(expected, calls).sent;
             i < |sent| && j < |sent| && Succeeded(sent[i]) && Succeeded(sent[j])
    ensures i == j
  {
    RunKeeps(expected, calls);
  }

  /** After a mismatch no tenant request is ever sent, whatever is called next, nor was one before. */
  lemma {:induction false} MismatchIsFinal(expected: string, calls: seq<Call>, more: seq<Call>, i: nat)
    requires var v := Run(Some(expected), calls).version; v.Some? && v != Some(expected)
    ensures Run(Some(expected), calls + more).version == Run(Some(expected), calls).version
    ensures i < |Run(Some(expected), calls + more).sent| ==> !Run(Some(expected), calls + more).sent[i].TenantRequest?
    decreases |more|
  {
    VersionSticks(Some(expected), calls, more);
    if i < |Run(Some(expected), calls + more).sent| && Run(Some(expected), calls + more).sent[i].TenantRequest? {
      LatchHolds(expected, calls + more, i);
    }
  }

  lemma {:induction false} VersionSticks(expected: Option<string>, calls: seq<Call>, more: seq<Call>)
    requires Run(expected, calls).version.Some?
    ensures Run(expected, calls + more).version == Run(expected, calls).version
    decreases |more|
  {
    if more == [] {
      assert calls + more == calls;
    } else {
      var all := calls + more;
      assert all[..|all| - 1] == calls + more[..|more| - 1];
      VersionSticks(expected, calls, more[..|more| - 1]);
    }
  }

  /** An invalid tenant or name causes no request at all, not even for the version. */
  lemma InvalidIdSendsNothing(c: Client, op: Operation, health: Answer)
    ensures Do(c, Api(op, health)) == c || IsValid(op)
    ensures !IsValid(op) <==> forall e :: Do(c.(expected := e), Api(op, health)).sent == c.sent
  {
    if IsValid(op) {
      var d := Do(c.(expected := None), Api(op, health));
      assert |d.sent| == |c.sent| + 1;
    }
  }

  lemma SafeIdIsSegment(s: string)
    requires IsSafeId(s)
    ensures '/' !in s && !Urls.IsDotSegment(s)
  {
    assert s[0] in s;
  }

  /**
   * Every path the client builds keeps its tenant: it splits into exactly the
   * intended segments, and dot-segment removal leaves it unchanged.
   */
  lemma PathStaysInTenant(op: Operation)
    requires IsValid(op)
    ensures Split(Path(op), '/') == [""] + Segments(op)
    ensures Urls.RemoveDots(Path(op), "") == Path(op)
  {
    SafeIdIsSegment(op.tenant);
    if !op.ListSources? {
      SafeIdIsSegment(op.name);
    }
    var segments := Segments(op);
    hide Urls.PathOf, Urls.RemoveDots, Split, IsValid;
    assert forall k :: 0 <= k < |segments| ==> '/' !in segments[k] && !Urls.IsDotSegment(segments[k]);
    Urls.PlainPathUntouched(segments, "");
    Urls.SplitPath(segments);
    assert "" + Path(op) == Path(op);
  }

  /**
   * What one call sends, outright: nothing for an invalid id; the tenant request
   * alone where no version is expected or the cached one is it; a health request
   * first where none is cached, and the tenant request only if that reports it;
   * nothing where another version is cached.
   */
  lemma CallsSend(c: Client, op: Operation, health: Answer)
    ensures var d := Do(c, Api(op, health));
            var tenant, asked := [TenantRequest(Path(op))], [HealthRequest(health)];
            && d.expected == c.expected
            && d.sent == c.sent + (
                 if !IsValid(op) then []
                 else if c.expected == None || c.version == c.expected then tenant
                 else if c.version.Some? then []
                 else if Reported(health) == c.expected then asked + tenant else asked)
            && d.version == (if IsValid(op) && c.expected.Some? && c.version == None then Reported(health) else c.version)
  {
    assert c.sent + [HealthRequest(health)] + [TenantRequest(Path(op))] == c.sent + ([HealthRequest(health)] + [TenantRequest(Path(op))]);
    assert c.sent + [] == c.sent;
  }

  /** The paths, spelled out. */
  lemma PathsAre(tenant: string, name: string)
    ensures Path(ListSources(tenant)) == "/v1/tenants/" + tenant + "/sources"
    ensures Path(CreateSource(tenant, name)) == "/v1/tenants/" + tenant + "/sources"
    ensures Path(GetSource(tenant, name)) == "/v1/tenants/" + tenant + "/sources/" + name
    ensures Path(UpdateSource(tenant, name)) == "/v1/tenants/" + tenant + "/sources/" + name
    ensures Path(DeleteSource(tenant, name)) == "/v1/tenants/" + tenant + "/sources/" + name
  {
    Urls.PathOfFour("v1", "tenants", tenant, "sources");
    Urls.PathOfFive("v1", "tenants", tenant, "sources", name);
    hide Urls.PathOf;
    assert "/" + "v1" + "/" + "tenants" + "/" == "/v1/tenants/";
    assert "/" + "sources" == "/sources" && "/sources" + "/" == "/sources/";
  }

  /** The client object. `sent` is the log of its requests. */
  class Sources {
    const expectedVersion: Option<string>
    var serverVersion: Option<string>
    var sent: seq<Request>

    function View(): Client
      reads this
    {
      Client(expectedVersion, serverVersion, sent)
    }

    constructor (expectedVersion: Option<string>)
      ensures View() == Client(expectedVersion, None, [])
    {
      this.expectedVersion, serverVersion, sent := expectedVersion, None, [];
    }

    /**
     * `GET /health`. Only a 200 with a JSON object whose `version` is a string
     * gives a version. A body nested too deep, read for the version or for the
     * error, and a 200 with other JSON than an object escape as exceptions that
     * are not the client's own.
     */
    method FetchVersion(health: Answer) returns (r: Fetching)
      modifies this`sent
      ensures sent == old(sent) + [HealthRequest(health)]
      ensures forall v :: r == Version(v) <==>
                exists members :: health == Answered(200, Value(Json.JObject(members)))
                  && Json.Get(members, Json.Other("version")) == Some(Json.JString(v))
      ensures r.Escapes? <==>
                || (exists status :: health == Answered(status, TooDeep))
                || (exists j: Json.Json :: health == Answered(200, Value(j)) && !j.JObject?)
    {
      sent := sent + [HealthRequest(health)];
      if health.Unreachable? {
        return Unavailable;
      }
      if health.body.TooDeep? {
        assert health == Answered(health.status, TooDeep);
        return Escapes;
      }
      if health.status != 200 || health.body.NotJson? {
        return Unavailable;
      }
      var data := health.body.json;
      if !data.JObject? {
        assert health == Answered(200, Value(data));
        return Escapes;
      }
      var version := if VERSION in data.members then Some(data.members[VERSION]) else None;
      assert health == Answered(200, Value(Json.JObject(data.members)));
      if version.None? || !version.value.JString? {
        return Unavailable;
      }
      r := Version(version.value.s);
    }

    /** Fetches and caches; an exception leaves the cache as it was. */
    method CacheVersion(health: Answer)
      modifies this
      ensures serverVersion == if Reported(health).Some? then Reported(health) else old(serverVersion)
      ensures sent == old(sent) + [HealthRequest(health)]
    {
      var r := FetchVersion(health);
      if r.Version? {
        serverVersion := Some(r.version);
      }
    }

    method EnsureVersion(health: Answer) returns (ok: bool)
      modifies this
      ensures View() == if old(View()).expected.None? then old(View()) else Fetched(old(View()), health)
      ensures ok <==> expectedVersion.None? || serverVersion == expectedVersion
    {
      if expectedVersion.None? {
        return true;
      }
      if serverVersion.None? {
        CacheVersion(health);
        if serverVersion.None? {
          return false;
        }
      }
      ok := serverVersion == expectedVersion;
    }

    method GetServerVersion(health: Answer) returns (version: Option<string>)
      modifies this
      ensures View() == Do(old(View()), ServerVersion(health))
      ensures version.Some? ==> version == serverVersion && (expectedVersion.Some? ==> version == expectedVersion)
    {
      if serverVersion.None? {
        CacheVersion(health);
      }
      version := if expectedVersion.Some? && serverVersion != expectedVersion then None else serverVersion;
    }

    /** Any of the five operations: check the ids, then the latch, then send. */
    method Request(op: Operation, health: Answer) returns (sentIt: bool)
      modifies this
      ensures View() == Do(old(View()), Api(op, health))
      ensures sentIt <==> IsValid(op) && (expectedVersion.Some? ==> serverVersion == expectedVersion)
    {
      if !IsValid(op) {
        return false;
      }
      var ok := EnsureVersion(health);
      if !ok {
        return false;
      }
      sent := sent + [TenantRequest(Path(op))];
      sentIt := true;
    }
  }
}
