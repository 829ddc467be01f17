/** JSON values as the SDKs' parsers hand them over. */
module Json {
  import opened Text

  /**
   * Object keys. Each name the decoder looks up is a constructor of its own;
   * every other name is `Other`.
   */
  datatype Key =
    | V | Id | SourceId | TenantId | ReceivedAt | ContentType | Size | BodyBase64 | Claim | Sha256
    | DedupeKey | ReplayId | IdempotencyKey | Headers | VerificationKey | Traceparent | Tracestate
    | Instance | Region | EventType | Status | Flagged | Other(name: string)

  /** `JInfinite` is what a numeral beyond the double range parses to. */
  datatype Json =
    | JNull
    | JBool(b: bool)
    | JNumber(n: real)
    | JInfinite(negative: bool)
    | JString(s: string)
    | JArray(items: seq<Json>)
    | JObject(members: map<Key, Json>)

  type Members = map<Key, Json>

  /** A text after `JSON.parse`: a value, or a syntax error. */
  datatype Input = NotJson | Parsed(value: Json)

  /** `Number.isInteger`. */
  predicate IsInteger(j: Json) { j.JNumber? && j.n == j.n.Floor as real }

  /** Property lookup; `None` is JavaScript's `undefined`. */
  function Get(o: Members, key: Key): Option<Json> {
    if key in o then Some(o[key]) else None
  }
}
