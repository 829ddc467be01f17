/** What JavaScript makes of JSON values of any type: truthiness, text, and buffers. */
module JavaScript {
  import opened Text
  import opened Json
  import ClaimCheck
  import ClaimRef

  /** `None` is `undefined`, as everywhere in this module. */
  predicate Truthy(j: Option<Json>) {
    j.Some? &&
    match j.value
    case JNull => false
    case JBool(b) => b
    case JNumber(n) => n != 0.0
    case JString(s) => s != ""
    case _ => true
  }

  const TO_STRING := Other("toString")
  const VALUE_OF := Other("valueOf")
  const LENGTH := Other("length")
  const TYPE := Other("type")
  const DATA := Other("data")

  /** The limits of a running process: how deep conversions may nest, and which buffer lengths can be had. */
  datatype Runtime = Runtime(stack: nat, fits: real -> bool)

  /**
   * Whether conversion to text or to a number returns rather than throws, with
   * room for `stack` more nested conversions. An object's own `toString` member
   * hides the inherited method and cannot be called; an array converts each of
   * its items.
   */
  predicate Coercible(j: Json, stack: nat) {
    match j
    case JObject(o) => TO_STRING !in o
    case JArray(items) => stack > 0 && forall k :: 0 <= k < |items| ==> Coercible(items[k], stack - 1)
    case _ => true
  }

  predicate Prints(j: Option<Json>, rt: Runtime) { j.Some? ==> Coercible(j.value, rt.stack) }

  /**
   * The text a value converts to, where that can be a claim ref: the text of a
   * one-item array is that of the item. All other values give text with a comma
   * or a space, a numeral, `true`, `false` or nothing, and stand here as nothing.
   */
  function RefText(j: Json): string {
    match j
    case JString(s) => s
    case JArray(items) => if |items| == 1 then RefText(items[0]) else ""
    case _ => ""
  }

  /** Every item that copying `length` items out of an array-like object meets converts to a number. */
  predicate MembersConvert(o: Members, length: nat, rt: Runtime) {
    forall k :: 0 <= k < length && Other(Numeral(k)) in o ==> Coercible(o[Other(Numeral(k))], rt.stack)
  }

  predicate ItemsConvert(items: seq<Json>, rt: Runtime) {
    forall k :: 0 <= k < |items| ==> Coercible(items[k], rt.stack)
  }

  /** Whether `Buffer.from(body ?? "", "base64")` returns rather than throws. */
  predicate Bufferable(j: Option<Json>, rt: Runtime) {
    j.None? ||
    match j.value
    case JNull => true
    case JString(_) => true
    case JArray(items) => ItemsConvert(items, rt)
    case JObject(o) =>
      if VALUE_OF in o && Truthy(Some(o[VALUE_OF])) then false
      else if VALUE_OF in o && o[VALUE_OF] == JString("") then true
      else if LENGTH in o then
        match o[LENGTH]
        case JNumber(n) => n <= 0.0 || (rt.fits(n) && MembersConvert(o, n.Floor, rt))
        case JInfinite(negative) => negative
        case _ => true
      else TYPE in o && o[TYPE] == JString("Buffer") && DATA in o && o[DATA].JArray? && ItemsConvert(o[DATA].items, rt)
    case _ => false
  }

  /** What `redeem` gets as ref and digest; `None` when a conversion on the way throws. */
  function RedeemArguments(claim: Json, digest: Json, rt: Runtime): Option<(string, string)> {
    if !Coercible(claim, rt.stack) then None
    else if ClaimRef.Parse(RefText(claim)).Some? && !Coercible(digest, rt.stack) then None
    else Some((RefText(claim), if digest.JString? then digest.s else ""))
  }

  /** The gateway's answer is final for the claim a body carries. */
  predicate FinalFor(claim: Json, digest: Json, reply: ClaimCheck.Reply, rt: Runtime, sha: Bytes -> string) {
    match RedeemArguments(claim, digest, rt)
    case None => false
    case Some((c, d)) => ClaimCheck.Final(c, d, reply, sha)
  }

  predicate DeliversFor(claim: Json, digest: Json, reply: ClaimCheck.Reply, rt: Runtime, sha: Bytes -> string) {
    match RedeemArguments(claim, digest, rt)
    case None => false
    case Some((c, d)) => ClaimCheck.Delivers(c, d, reply, sha)
  }

  // ---------------------------------------------------------------------
  // The same, value by value
  // ---------------------------------------------------------------------

  /** The falsy values are these five. */
  lemma TruthyExactly(j: Option<Json>)
    ensures Truthy(j) <==> j !in {None, Some(JNull), Some(JBool(false)), Some(JNumber(0.0)), Some(JString(""))}
  {
  }

  /** What a path of indices through nested arrays leads to. */
  function Reach(j: Json, path: seq<nat>): Option<Json> {
    if path == [] then Some(j)
    else if j.JArray? && path[0] < |j.items| then Reach(j.items[path[0]], path[1..])
    else None
  }

  /** Nothing that throws is reached: no object with a `toString` member, and no array past the stack. */
  ghost predicate NothingThrows(j: Json, stack: nat) {
    forall path :: Reach(j, path).Some? ==>
      && !(Reach(j, path).value.JObject? && Other("toString") in Reach(j, path).value.members)
      && (Reach(j, path).value.JArray? ==> |path| < stack)
  }

  /** A value converts exactly when no path through its arrays leads to something that throws. */
  lemma {:induction false} CoercibleExactly(j: Json, stack: nat)
    ensures Coercible(j, stack) <==> NothingThrows(j, stack)
    decreases j
  {
    assert Reach(j, []) == Some(j);
    match j
    case JArray(items) =>
      if stack > 0 {
        forall k | 0 <= k < |items|
          ensures Coercible(items[k], stack - 1) <==> NothingThrows(items[k], stack - 1)
        {
          CoercibleExactly(items[k], stack - 1);
        }
        ThrowsInside(items, stack);
      }
    case _ =>
      assert forall path :: path != [] ==> Reach(j, path) == None;
  }

  lemma ThrowsInside(items: seq<Json>, stack: nat)
    requires stack > 0
    ensures NothingThrows(JArray(items), stack) <==> forall k :: 0 <= k < |items| ==> NothingThrows(items[k], stack - 1)
  {
    var j := JArray(items);
    if NothingThrows(j, stack) {
      forall k, path | 0 <= k < |items| && Reach(items[k], path).Some?
        ensures !(Reach(items[k], path).value.JObject? && Other("toString") in Reach(items[k], path).value.members)
        ensures Reach(items[k], path).value.JArray? ==> |path| < stack - 1
      {
        assert ([k] + path)[1..] == path;
        assert Reach(j, [k] + path) == Reach(items[k], path);
      }
    } else {
      var path :| Reach(j, path).Some? && !(
        && !(Reach(j, path).value.JObject? && Other("toString") in Reach(j, path).value.members)
        && (Reach(j, path).value.JArray? ==> |path| < stack));
      assert path != [];
      assert Reach(items[path[0]], path[1..]) == Reach(j, path);
    }
  }

  /** Which values a buffer is made of. */
  lemma BufferableValues(o: Members, items: seq<Json>, s: string, n: real, rt: Runtime)
    ensures Bufferable(None, rt) && Bufferable(Some(JNull), rt) && Bufferable(Some(JString(s)), rt)
    ensures !Bufferable(Some(JNumber(n)), rt) && !Bufferable(Some(JBool(true)), rt) && !Bufferable(Some(JBool(false)), rt)
    ensures Bufferable(Some(JArray(items)), rt) <==> forall k :: 0 <= k < |items| ==> NothingThrows(items[k], rt.stack)
    ensures Bufferable(Some(JObject(o)), rt) <==>
            var valueOf, length := Get(o, Other("valueOf")), Get(o, Other("length"));
            || valueOf == Some(JString(""))
            || (&& (valueOf == None || valueOf in {Some(JNull), Some(JBool(false)), Some(JNumber(0.0))})
                && if length != None then ArrayLike(o, length.value, rt) else BufferLike(o, rt))
  {
    forall k | 0 <= k < |items|
      ensures Coercible(items[k], rt.stack) <==> NothingThrows(items[k], rt.stack)
    {
      CoercibleExactly(items[k], rt.stack);
    }
    ArrayLikeConverts(o, rt);
    BufferLikeConverts(o, rt);
    hide Coercible, NothingThrows, MembersConvert, ArrayLike, BufferLike;
  }

  /** A length that is no number or not positive gives an empty buffer; a positive one, a copy of the items. */
  ghost predicate ArrayLike(o: Members, length: Json, rt: Runtime) {
    match length
    case JNumber(n) =>
      n <= 0.0 || (rt.fits(n) && forall k: nat :: k < n.Floor && Other(Numeral(k)) in o ==> NothingThrows(o[Other(Numeral(k))], rt.stack))
    case JInfinite(negative) => negative
    case _ => true
  }

  /** What `JSON.stringify` makes of a buffer. */
  ghost predicate BufferLike(o: Members, rt: Runtime) {
    && Get(o, Other("type")) == Some(JString("Buffer"))
    && Other("data") in o && o[Other("data")].JArray?
    && forall k :: 0 <= k < |o[Other("data")].items| ==> NothingThrows(o[Other("data")].items[k], rt.stack)
  }

  lemma ArrayLikeConverts(o: Members, rt: Runtime)
    ensures LENGTH in o ==> (ArrayLike(o, o[LENGTH], rt) <==>
              match o[LENGTH]
              case JNumber(n) => n <= 0.0 || (rt.fits(n) && MembersConvert(o, n.Floor, rt))
              case JInfinite(negative) => negative
              case _ => true)
  {
    forall key | key in o
      ensures Coercible(o[key], rt.stack) <==> NothingThrows(o[key], rt.stack)
    {
      CoercibleExactly(o[key], rt.stack);
    }
    hide Coercible, NothingThrows, Numeral;
  }

  lemma BufferLikeConverts(o: Members, rt: Runtime)
    ensures BufferLike(o, rt) <==>
            TYPE in o && o[TYPE] == JString("Buffer") && DATA in o && o[DATA].JArray? && ItemsConvert(o[DATA].items, rt)
  {
    if DATA in o && o[DATA].JArray? {
      var items := o[DATA].items;
      forall k | 0 <= k < |items|
        ensures Coercible(items[k], rt.stack) <==> NothingThrows(items[k], rt.stack)
      {
        CoercibleExactly(items[k], rt.stack);
      }
    }
    hide Coercible, NothingThrows;
  }

  /** What reaches `redeem`: text as it is, a one-item array as its item, and anything else as no ref or no digest. */
  lemma ArgumentsAre(claim: Json, digest: Json, c: string, d: string, rt: Runtime)
    ensures RedeemArguments(JString(c), JString(d), rt) == Some((c, d))
    ensures rt.stack > 0 ==> RedeemArguments(JArray([JString(c)]), JString(d), rt) == Some((c, d))
    ensures claim.JNumber? || claim.JBool? || claim.JNull? ==> RedeemArguments(claim, JString(d), rt) == Some(("", d))
    ensures RedeemArguments(claim, digest, rt) == None <==>
            || !NothingThrows(claim, rt.stack)
            || (ClaimRef.Parse(RefText(claim)).Some? && !NothingThrows(digest, rt.stack))
    ensures RedeemArguments(claim, digest, rt).Some? && !digest.JString? ==> RedeemArguments(claim, digest, rt).value.1 == ""
  {
    CoercibleExactly(claim, rt.stack);
    CoercibleExactly(digest, rt.stack);
    hide ClaimRef.Parse, NothingThrows;
    var one := JArray([JString(c)]);
    assert one.items[0] == JString(c) && RefText(one) == c;
    assert rt.stack > 0 ==> Coercible(one, rt.stack);
  }
}
