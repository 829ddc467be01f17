/**
 * The Rust SDK's request printers: percent-encoding to the unreserved set
 * (section 2.3 of RFC 3986), the query under construction, and the route path.
 * Strings that are encoded are given by their UTF-8 bytes.
 */
module Urls {
  import opened Text

  predicate IsUnreserved(c: char) { IsAlnum(c) || c == '-' || c == '.' || c == '_' || c == '~' }

  type nibble = x: int | 0 <= x < 16

  function Hex(n: nibble): (c: char)
    ensures HexValue(c) == Some(n) && IsAlnum(c)
  {
    if n < 10 then '0' + n as char else 'A' + (n - 10) as char
  }

  function HexValue(c: char): Option<nibble> {
    if IsDigit(c) then Some(c as int - '0' as int)
    else if 'A' <= c <= 'F' then Some(c as int - 'A' as int + 10)
    else if 'a' <= c <= 'f' then Some(c as int - 'a' as int + 10)
    else None
  }

  function EncodeByte(b: byte): string {
    if IsUnreserved(b as char) then [b as char] else ['%', Hex(b / 16), Hex(b % 16)]
  }

  function PercentEncode(value: Bytes): string {
    if value == [] then "" else EncodeByte(value[0]) + PercentEncode(value[1..])
  }

  /** Percent-decoding (section 2.1 of RFC 3986); `None` for a broken escape or a character past one byte. */
  function PercentDecode(s: string): Option<Bytes> {
    if s == "" then Some([])
    else if s[0] == '%' then
      if |s| < 3 || HexValue(s[1]).None? || HexValue(s[2]).None? then None
      else
        var rest := PercentDecode(s[3..]);
        if rest.None? then None else Some([HexValue(s[1]).value * 16 + HexValue(s[2]).value] + rest.value)
    else
      var rest := PercentDecode(s[1..]);
      if rest.None? || s[0] as int >= 256 then None else Some([s[0] as int] + rest.value)
  }

  lemma {:induction false} DecodeEncode(value: Bytes)
    ensures PercentDecode(PercentEncode(value)) == Some(value)
    ensures forall c :: c in PercentEncode(value) ==> IsUnreserved(c) || c == '%'
  {
    if value != [] {
      DecodeEncode(value[1..]);
      var first, rest := EncodeByte(value[0]), PercentEncode(value[1..]);
      assert (first + rest)[|first|..] == rest;
      assert value == [value[0]] + value[1..];
    }
  }

  /** Unreserved text is its own encoding. */
  lemma {:induction false} PlainDecodes(s: string)
    requires forall k :: 0 <= k < |s| ==> IsUnreserved(s[k])
    ensures PercentDecode(s) == Some(Octets(s))
  {
    if s != "" {
      PlainDecodes(s[1..]);
      assert Octets(s) == [s[0] as int] + Octets(s[1..]);
    }
  }

  // ---------------------------------------------------------------------
  // The query
  // ---------------------------------------------------------------------

  /** A pushed field: its key, the text after `=`, and the value that text stands for. */
  datatype Field = Field(key: string, text: string, value: Bytes)

  /** What the pushes guarantee of a field. */
  ghost predicate IsField(f: Field) {
    && '&' !in f.key && '=' !in f.key
    && '&' !in f.text
    && PercentDecode(f.text) == Some(f.value)
  }

  function Item(f: Field): string { f.key + ['='] + f.text }

  function Items(fields: seq<Field>): seq<string> { seq(|fields|, k requires 0 <= k < |fields| => Item(fields[k])) }

  function Render(fields: seq<Field>): string {
    if fields == [] then "" else "?" + Join(Items(fields), '&')
  }

  /** Reads a query back: drop `?`, split on `&`, each on its first `=`, decode the value. */
  function ParseItems(items: seq<string>): Option<seq<(string, Bytes)>> {
    if items == [] then Some([])
    else
      var cut := SplitOnce(items[0], '=');
      var rest := ParseItems(items[1..]);
      if cut.None? || rest.None? || PercentDecode(cut.value.1).None? then None
      else Some([(cut.value.0, PercentDecode(cut.value.1).value)] + rest.value)
  }

  function ParseQuery(s: string): Option<seq<(string, Bytes)>> {
    if s == "" then Some([]) else if s[0] != '?' then None else ParseItems(Split(s[1..], '&'))
  }

  function Pairs(fields: seq<Field>): seq<(string, Bytes)> {
    seq(|fields|, k requires 0 <= k < |fields| => (fields[k].key, fields[k].value))
  }

  lemma {:induction false} ItemsParse(fields: seq<Field>)
    requires forall k :: 0 <= k < |fields| ==> IsField(fields[k])
    ensures ParseItems(Items(fields)) == Some(Pairs(fields))
  {
    hide PercentDecode, SplitOnce;
    var items := Items(fields);
    if fields == [] {
      assert items == [] && Pairs(fields) == [];
    } else {
      var f := fields[0];
      assert IsField(f) && items[0] == Item(f);
      SplitOnceOf(f.key, '=', f.text);
      ItemsParse(fields[1..]);
      assert items[1..] == Items(fields[1..]);
      assert Pairs(fields) == [(f.key, f.value)] + Pairs(fields[1..]);
    }
  }

  /** Reading the rendered query gives back every pushed key and value, in order. */
  lemma QueryRoundTrip(fields: seq<Field>)
    requires forall k :: 0 <= k < |fields| ==> IsField(fields[k])
    ensures ParseQuery(Render(fields)) == Some(Pairs(fields))
  {
    if fields != [] {
      forall k | 0 <= k < |fields|
        ensures '&' !in Items(fields)[k]
      {
        assert IsField(fields[k]);
      }
      SplitJoin(Items(fields), '&');
      assert Render(fields)[1..] == Join(Items(fields), '&');
      ItemsParse(fields);
    } else {
      assert Pairs(fields) == [];
    }
  }

  lemma {:induction false} JoinSnoc(parts: seq<string>, last: string, c: char)
    requires parts != []
    ensures Join(parts + [last], c) == Join(parts, c) + [c] + last
  {
    if |parts| > 1 {
      JoinSnoc(parts[1..], last, c);
      assert (parts + [last])[1..] == parts[1..] + [last];
    } else {
      assert (parts + [last])[1..] == [last];
    }
  }

  /** One more field is one more separator and item at the end. */
  lemma RenderPush(fields: seq<Field>, f: Field)
    ensures Render(fields + [f]) == Render(fields) + (if fields == [] then "?" else "&") + f.key + "=" + f.text
    ensures (Render(fields) == "") == (fields == [])
  {
    assert Items(fields + [f]) == Items(fields) + [Item(f)];
    if fields != [] {
      JoinSnoc(Items(fields), Item(f), '&');
    }
  }

  /** Builds the text after a path from key and value pairs; `fields` is what was pushed so far. */
  class Query {
    var text: string
    ghost var fields: seq<Field>

    ghost predicate Valid()
      reads this
    {
      text == Render(fields) && forall k :: 0 <= k < |fields| ==> IsField(fields[k])
    }

    constructor ()
      ensures Valid() && fields == [] && text == ""
    {
      text, fields := "", [];
    }

    /** For values of any octets: the text gains a field that reads back as the pair. */
    method PushStr(key: string, value: Bytes)
      requires Valid() && '&' !in key && '=' !in key
      modifies this
      ensures Valid() && Pairs(fields) == Pairs(old(fields)) + [(key, value)]
    {
      DecodeEncode(value);
      hide PercentDecode, PercentEncode;
      ghost var f := Field(key, PercentEncode(value), value);
      RenderPush(fields, f);
      PushKey(key);
      text := text + PercentEncode(value);
      fields := fields + [f];
    }

    /** For values that print as unreserved text already, as numbers and booleans do. */
    method PushDisplay(key: string, value: string)
      requires Valid() && '&' !in key && '=' !in key
      requires forall k :: 0 <= k < |value| ==> IsUnreserved(value[k])
      modifies this
      ensures Valid() && Pairs(fields) == Pairs(old(fields)) + [(key, Octets(value))]
    {
      PlainDecodes(value);
      ghost var f := Field(key, value, Octets(value));
      RenderPush(fields, f);
      PushKey(key);
      text := text + value;
      fields := fields + [f];
    }

    method PushKey(key: string)
      modifies this`text
      ensures text == old(text) + (if old(text) == "" then "?" else "&") + key + "="
    {
      text := text + (if text == "" then "?" else "&");
      text := text + key;
      text := text + "=";
    }

    /** The text to append to a path; it reads back as exactly the pushed pairs. */
    method Finish() returns (s: string)
      requires Valid()
      ensures s == text && ParseQuery(s) == Some(Pairs(fields))
    {
      QueryRoundTrip(fields);
      s := text;
    }
  }

  // ---------------------------------------------------------------------
  // The route path
  // ---------------------------------------------------------------------

  const ROUTES := "/admin/routes/"

  predicate IsDotSegment(s: string) { s == "." || s == ".." }

  /** `None` for the ids refused before any request: empty, `.` and `..`. */
  function RoutePath(id: Bytes): Option<string> {
    if id == [] || id == [46] || id == [46, 46] then None else Some(ROUTES + PercentEncode(id))
  }

  /** An accepted id becomes a segment that is not empty and not a dot segment, free of `/`, `?` and `#`. */
  lemma SegmentIsPlain(id: Bytes)
    requires RoutePath(id).Some?
    ensures var segment := PercentEncode(id);
            segment != "" && !IsDotSegment(segment) && '/' !in segment && '?' !in segment && '#' !in segment
  {
    hide PercentDecode, PercentEncode;
    DecodeEncode(id);
    PlainDecodes("");
    PlainDecodes(".");
    PlainDecodes("..");
    assert Octets("") == [] && Octets(".") == [46] && Octets("..") == [46, 46];
  }

  /** Different accepted ids have different paths, and the id decodes back out of its path. */
  lemma RoutePathInjective(id: Bytes, id': Bytes)
    requires RoutePath(id).Some? && RoutePath(id').Some?
    ensures RoutePath(id) == RoutePath(id') <==> id == id'
    ensures PercentDecode(RoutePath(id).value[|ROUTES|..]) == Some(id)
  {
    DecodeEncode(id);
    DecodeEncode(id');
    assert RoutePath(id).value[|ROUTES|..] == PercentEncode(id);
    assert RoutePath(id').value[|ROUTES|..] == PercentEncode(id');
  }

  /** `/s1/s2/...` */
  function PathOf(segments: seq<string>): string {
    if segments == [] then "" else "/" + segments[0] + PathOf(segments[1..])
  }

  /** The output buffer without its last segment and the `/` before it. */
  function DropLast(output: string): string {
    if output == "" then "" else if output[|output| - 1] == '/' then output[..|output| - 1] else DropLast(output[..|output| - 1])
  }

  /** The length of the first path segment, its leading `/` included. */
  function FirstSegment(input: string): (n: nat)
    requires input != ""
    ensures 0 < n <= |input|
  {
    1 + IndexOf(input[1..], '/')
  }

  /** `remove_dot_segments`, section 5.2.4 of RFC 3986, rule by rule. */
  function RemoveDots(input: string, output: string): string
    decreases |input|
  {
    if input == "" then output
    else if "../" <= input then RemoveDots(input[3..], output)
    else if "./" <= input then RemoveDots(input[2..], output)
    else if "/./" <= input then RemoveDots(input[2..], output)
    else if input == "/." then RemoveDots("/", output)
    else if "/../" <= input then RemoveDots(input[3..], DropLast(output))
    else if input == "/.." then RemoveDots("/", DropLast(output))
    else if input == "." || input == ".." then output
    else RemoveDots(input[FirstSegment(input)..], output + input[..FirstSegment(input)])
  }

  lemma FirstSegmentOf(s: string, rest: string)
    requires '/' !in s && (rest == "" || rest[0] == '/')
    ensures FirstSegment("/" + s + rest) == 1 + |s|
  {
    var input := "/" + s + rest;
    assert input[1..] == s + rest;
    var i := IndexOf(s + rest, '/');
    assert i >= |s| by {
      assert forall k :: 0 <= k < |s| ==> (s + rest)[k] == s[k];
    }
    assert i <= |s| by {
      assert rest != "" ==> (s + rest)[|s|] == '/';
      assert forall k :: 0 <= k < i ==> (s + rest)[..i][k] == (s + rest)[k];
    }
  }

  /** None of the dot rules applies in front of a segment that is not a dot segment. */
  lemma NoDotRule(s: string, rest: string)
    requires '/' !in s && !IsDotSegment(s) && (rest == "" || rest[0] == '/')
    ensures var input := "/" + s + rest;
            && !("../" <= input) && !("./" <= input) && !("/./" <= input) && !("/../" <= input)
            && input != "/." && input != "/.." && input != "." && input != ".."
  {
    var input := "/" + s + rest;
    assert input[0] == '/' && (rest != "" ==> input[|s| + 1] == '/');
    assert forall k :: 0 <= k < |s| ==> input[k + 1] == s[k];
    assert IsDotSegment(s) <==> (|s| == 1 && s[0] == '.') || (|s| == 2 && s[0] == '.' && s[1] == '.');
    assert forall k :: 0 <= k < |s| ==> s[k] in s;
    assert |input| >= 3 ==> !(input[1] == '.' && input[2] == '/');
    assert |input| >= 4 ==> !(input[1] == '.' && input[2] == '.' && input[3] == '/');
    assert |input| == 2 ==> input[1] != '.';
    assert |input| == 3 ==> !(input[1] == '.' && input[2] == '.');
  }

  lemma RemoveDone(output: string)
    ensures RemoveDots("", output) == output
  {
  }

  lemma PathStarts(segments: seq<string>)
    ensures PathOf(segments) == "" || PathOf(segments)[0] == '/'
  {
  }

  lemma RemoveStep(s: string, rest: string, output: string)
    requires '/' !in s && !IsDotSegment(s) && (rest == "" || rest[0] == '/')
    ensures RemoveDots("/" + s + rest, output) == RemoveDots(rest, output + ("/" + s))
  {
    NoDotRule(s, rest);
    FirstSegmentOf(s, rest);
    var input := "/" + s + rest;
    assert input[1 + |s|..] == rest && input[..1 + |s|] == "/" + s;
  }

  /** A path of segments none of which is a dot segment is untouched by dot-segment removal. */
  lemma {:induction false} PlainPathUntouched(segments: seq<string>, output: string)
    requires forall k :: 0 <= k < |segments| ==> '/' !in segments[k] && !IsDotSegment(segments[k])
    ensures RemoveDots(PathOf(segments), output) == output + PathOf(segments)
    decreases |segments|
  {
    hide RemoveDots, IsDotSegment;
    if segments == [] {
      RemoveDone(output);
    } else {
      var s, rest := segments[0], PathOf(segments[1..]);
      PathStarts(segments[1..]);
      RemoveStep(s, rest, output);
      PlainPathUntouched(segments[1..], output + ("/" + s));
      assert output + ("/" + s) + rest == output + ("/" + s + rest);
    }
  }

  lemma {:induction false} SplitPath(segments: seq<string>)
    requires segments != [] && forall k :: 0 <= k < |segments| ==> '/' !in segments[k]
    ensures Split(PathOf(segments), '/') == [""] + segments
  {
    var parts := [""] + segments;
    JoinCons("", segments, '/');
    PathIsJoin(segments);
    SplitJoin(parts, '/');
  }

  lemma {:induction false} PathIsJoin(segments: seq<string>)
    requires segments != []
    ensures PathOf(segments) == "/" + Join(segments, '/')
    decreases |segments|
  {
    if |segments| > 1 {
      PathIsJoin(segments[1..]);
    } else {
      assert segments[1..] == [];
    }
  }

  /** The route path is three segments, the last the encoded id, and dot-segment removal leaves it alone. */
  lemma RoutePathIsOneSegment(id: Bytes)
    requires RoutePath(id).Some?
    ensures RoutePath(id).value == PathOf(["admin", "routes", PercentEncode(id)])
    ensures Split(RoutePath(id).value, '/') == ["", "admin", "routes", PercentEncode(id)]
    ensures RemoveDots(RoutePath(id).value, "") == RoutePath(id).value
    ensures '?' !in RoutePath(id).value && '#' !in RoutePath(id).value
  {
    SegmentIsPlain(id);
    RoutePathShape(id);
    var segment := PercentEncode(id);
    hide PercentEncode, RemoveDots, Split, RoutePath, PathOf;
    var segments := ["admin", "routes", segment];
    assert forall k :: 0 <= k < 3 ==> '/' !in segments[k] && !IsDotSegment(segments[k]);
    PlainPathUntouched(segments, "");
    SplitPath(segments);
    assert [""] + segments == ["", "admin", "routes", segment];
    assert "" + PathOf(segments) == PathOf(segments);
  }

  lemma RoutePathShape(id: Bytes)
    requires RoutePath(id).Some?
    ensures RoutePath(id).value == PathOf(["admin", "routes", PercentEncode(id)])
    ensures '?' !in RoutePath(id).value && '#' !in RoutePath(id).value
  {
    SegmentIsPlain(id);
    RoutesPrefix();
    UnderPrefix(ROUTES, "admin", "routes", PercentEncode(id));
  }

  lemma RoutesPrefix()
    ensures ROUTES == "/" + "admin" + "/" + "routes" + "/" && '?' !in ROUTES && '#' !in ROUTES
  {
  }

  lemma UnderPrefix(prefix: string, a: string, b: string, segment: string)
    requires prefix == "/" + a + "/" + b + "/"
    ensures prefix + segment == PathOf([a, b, segment])
  {
    PathOfThree(a, b, segment);
    hide PathOf;
  }

  lemma PathOfThree(a: string, b: string, c: string)
    ensures PathOf([a, b, c]) == "/" + a + "/" + b + "/" + c
  {
    assert [a, b, c][1..] == [b, c] && [b, c][1..] == [c] && [c][1..] == [];
    assert PathOf([c]) == "/" + c;
    assert PathOf([b, c]) == "/" + b + ("/" + c);
    assert PathOf([a, b, c]) == "/" + a + ("/" + b + ("/" + c));
  }

  lemma PathOfFour(a: string, b: string, c: string, d: string)
    ensures PathOf([a, b, c, d]) == "/" + a + "/" + b + "/" + c + "/" + d
  {
    assert [a, b, c, d][1..] == [b, c, d];
    PathOfThree(b, c, d);
  }

  lemma PathOfFive(a: string, b: string, c: string, d: string, e: string)
    ensures PathOf([a, b, c, d, e]) == "/" + a + "/" + b + "/" + c + "/" + d + "/" + e
  {
    assert [a, b, c, d, e][1..] == [b, c, d, e];
    PathOfFour(b, c, d, e);
  }

  /** The ids with no route path are the empty one and the two dot segments; any other has its own under the routes. */
  lemma RoutePathsAre(id: Bytes)
    ensures RoutePath(id) == None <==> id == [] || id == Octets(".") || id == Octets("..")
    ensures RoutePath(id).Some? ==> RoutePath(id).value == "/admin/routes/" + PercentEncode(id)
  {
    assert Octets(".") == [46] && Octets("..") == [46, 46];
  }

  lemma HexDigits(n: nibble)
    ensures Hex(n) == "0123456789ABCDEF"[n]
  {
  }

  lemma EncodeFirst(b: byte, rest: Bytes)
    ensures PercentEncode([b] + rest) == EncodeByte(b) + PercentEncode(rest)
  {
    assert ([b] + rest)[1..] == rest;
  }

  /** Every octet as it is printed: letters, digits and `-._~` as themselves, any other as two upper-case hex digits. */
  lemma OctetsPrint(b: byte, rest: Bytes)
    ensures PercentEncode([]) == ""
    ensures PercentEncode([b] + rest) ==
            (if 48 <= b <= 57 || 65 <= b <= 90 || 97 <= b <= 122 || b in {45, 46, 95, 126} then [b as char]
             else ['%', "0123456789ABCDEF"[b / 16], "0123456789ABCDEF"[b % 16]]) + PercentEncode(rest)
  {
    EncodeFirst(b, rest);
    HexDigits(b / 16);
    HexDigits(b % 16);
    hide Hex;
  }

  /** A query of one and of two fields. */
  lemma QueriesPrint(f: Field, g: Field)
    ensures Render([f]) == "?" + f.key + "=" + f.text
    ensures Render([f, g]) == "?" + f.key + "=" + f.text + "&" + g.key + "=" + g.text
  {
    RenderPush([], f);
    RenderPush([f], g);
    assert [] + [f] == [f] && [f] + [g] == [f, g];
    hide Join;
  }

  lemma DropLastSegment(output: string, s: string)
    requires '/' !in s
    ensures DropLast(output + ("/" + s)) == output
    decreases |s|
  {
    var all := output + ("/" + s);
    if s == "" {
      assert all[..|all| - 1] == output;
    } else {
      assert all[|all| - 1] == s[|s| - 1] && s[|s| - 1] in s;
      assert all[..|all| - 1] == output + ("/" + s[..|s| - 1]);
      DropLastSegment(output, s[..|s| - 1]);
    }
  }

  /** Why dot segments are kept out: one takes back the segment before it. */
  lemma DotsTakeBack(s: string, rest: string, output: string)
    requires '/' !in s && !IsDotSegment(s) && rest != "" && rest[0] == '/'
    ensures RemoveDots("/" + s + "/.." + rest, output) == RemoveDots(rest, output)
    ensures RemoveDots("/." + rest, output) == RemoveDots(rest, output)
    ensures RemoveDots("/.." + rest, "") == RemoveDots(rest, "")
  {
    RemoveStep(s, "/.." + rest, output);
    assert "/" + s + "/.." + rest == "/" + s + ("/.." + rest);
    DropLastSegment(output, s);
    var back := "/.." + rest;
    assert "/../" <= back && back[3..] == rest;
    var stay := "/." + rest;
    assert "/./" <= stay && stay[2..] == rest;
  }
}
