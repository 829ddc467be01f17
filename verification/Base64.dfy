/**
 * Standard base64 (section 4 of RFC 4648) as the SDKs use it: one encoder and
 * two decoders. The strict decoder also wants the unused bits of a padded
 * group to be zero (section 3.5); the lenient one drops them.
 */
module Base64 {
  import opened Text

  type sextet = x: int | 0 <= x < 64

  function Symbol(x: sextet): (c: char)
    ensures IsSymbol(c) && ValueOf(c) == x
  {
    if x < 26 then 'A' + x as char
    else if x < 52 then 'a' + (x - 26) as char
    else if x < 62 then '0' + (x - 52) as char
    else if x == 62 then '+' else '/'
  }

  predicate IsSymbol(c: char) { IsAlnum(c) || c == '+' || c == '/' }

  function ValueOf(c: char): sextet
    requires IsSymbol(c)
  {
    if IsUpper(c) then c as int - 'A' as int
    else if IsLower(c) then c as int - 'a' as int + 26
    else if IsDigit(c) then c as int - '0' as int + 52
    else if c == '+' then 62 else 63
  }

  lemma SymbolOfValue(c: char)
    requires IsSymbol(c)
    ensures Symbol(ValueOf(c)) == c
  {
  }

  function Encode(b: Bytes): string
  {
    if |b| == 0 then ""
    else if |b| == 1 then
      [Symbol(b[0] / 4), Symbol(b[0] % 4 * 16), '=', '=']
    else if |b| == 2 then
      [Symbol(b[0] / 4), Symbol(b[0] % 4 * 16 + b[1] / 16), Symbol(b[1] % 16 * 4), '=']
    else
      Group(b[0], b[1], b[2]) + Encode(b[3..])
  }

  function Group(x: byte, y: byte, z: byte): string {
    [Symbol(x / 4), Symbol(x % 4 * 16 + y / 16), Symbol(y % 16 * 4 + z / 64), Symbol(z % 64)]
  }

  /** The ends of the alphabet's runs, and the three lengths of group, from the test vectors of section 10 of RFC 4648. */
  lemma Vectors()
    ensures ValueOf('A') == 0 && ValueOf('Z') == 25 && ValueOf('a') == 26 && ValueOf('z') == 51
    ensures ValueOf('0') == 52 && ValueOf('9') == 61 && ValueOf('+') == 62 && ValueOf('/') == 63
    ensures Encode([]) == "" && Encode([102]) == "Zg==" && Encode([102, 111]) == "Zm8=" && Encode([102, 111, 111]) == "Zm9v"
  {
    assert [102, 111, 111][3..] == [];
  }

  /**
   * Decodes whole four-character groups, padding only in the last. With
   * `strict`, a padded group whose unused bits are not zero is refused.
   */
  function Decode(s: string, strict: bool): Option<Bytes>
  {
    if s == "" then Some([])
    else if |s| < 4 || !IsSymbol(s[0]) || !IsSymbol(s[1]) then None
    else if |s| == 4 && s[3] == '=' then DecodeLast(s, strict)
    else if !IsSymbol(s[2]) || !IsSymbol(s[3]) then None
    else
      var rest := Decode(s[4..], strict);
      if rest.None? then None else Some(DecodeGroup(s[0], s[1], s[2], s[3]) + rest.value)
  }

  function DecodeLast(s: string, strict: bool): Option<Bytes>
    requires |s| == 4 && IsSymbol(s[0]) && IsSymbol(s[1]) && s[3] == '='
  {
    var a, b := ValueOf(s[0]), ValueOf(s[1]);
    if s[2] == '=' then
      if strict && b % 16 != 0 then None else Some([a * 4 + b / 16])
    else if !IsSymbol(s[2]) then None
    else
      var c := ValueOf(s[2]);
      if strict && c % 4 != 0 then None else Some([a * 4 + b / 16, b % 16 * 16 + c / 4])
  }

  function DecodeGroup(p: char, q: char, r: char, t: char): Bytes
    requires IsSymbol(p) && IsSymbol(q) && IsSymbol(r) && IsSymbol(t)
  {
    var a, b, c, d := ValueOf(p), ValueOf(q), ValueOf(r), ValueOf(t);
    [a * 4 + b / 16, b % 16 * 16 + c / 4, c % 4 * 64 + d]
  }

  lemma OctetsOfSextets(x: byte, y: byte, z: byte)
    ensures var a, b, c, d := x / 4, x % 4 * 16 + y / 16, y % 16 * 4 + z / 64, z % 64;
            && 0 <= a < 64 && 0 <= b < 64 && 0 <= c < 64 && 0 <= d < 64
            && a * 4 + b / 16 == x && b % 16 * 16 + c / 4 == y && c % 4 * 64 + d == z
            && x * 65536 + y * 256 + z == a * 262144 + b * 4096 + c * 64 + d
  {
  }

  /** A group writes the 24-bit number of its three octets as four sextets, most significant first. */
  lemma GroupIsNumber(x: byte, y: byte, z: byte)
    ensures var g := Group(x, y, z);
            && (forall k :: 0 <= k < 4 ==> IsSymbol(g[k]))
            && x * 65536 + y * 256 + z == ValueOf(g[0]) * 262144 + ValueOf(g[1]) * 4096 + ValueOf(g[2]) * 64 + ValueOf(g[3])
  {
    hide Symbol, ValueOf, IsSymbol;
    OctetsOfSextets(x, y, z);
  }

  lemma GroupRoundTrip(x: byte, y: byte, z: byte)
    ensures var g := Group(x, y, z);
            (forall k :: 0 <= k < 4 ==> IsSymbol(g[k])) && DecodeGroup(g[0], g[1], g[2], g[3]) == [x, y, z]
  {
    hide Symbol, ValueOf, IsSymbol;
    OctetsOfSextets(x, y, z);
  }

  lemma SextetsOfOctets(a: sextet, b: sextet, c: sextet, d: sextet)
    ensures var x, y, z := a * 4 + b / 16, b % 16 * 16 + c / 4, c % 4 * 64 + d;
            && x / 4 == a && x % 4 * 16 + y / 16 == b
            && y % 16 * 4 + z / 64 == c && z % 64 == d
  {
  }

  lemma GroupOfDecoded(p: char, q: char, r: char, t: char)
    requires IsSymbol(p) && IsSymbol(q) && IsSymbol(r) && IsSymbol(t)
    ensures var d := DecodeGroup(p, q, r, t); Group(d[0], d[1], d[2]) == [p, q, r, t]
  {
    hide Symbol, ValueOf, IsSymbol;
    SextetsOfOctets(ValueOf(p), ValueOf(q), ValueOf(r), ValueOf(t));
    SymbolOfValue(p);
    SymbolOfValue(q);
    SymbolOfValue(r);
    SymbolOfValue(t);
  }

  lemma LastOfDecoded(s: string)
    requires |s| == 4 && IsSymbol(s[0]) && IsSymbol(s[1]) && s[3] == '='
    requires DecodeLast(s, true).Some?
    ensures Encode(DecodeLast(s, true).value) == s
  {
    hide Symbol, ValueOf, IsSymbol;
    SymbolOfValue(s[0]);
    SymbolOfValue(s[1]);
    var c := if s[2] == '=' then 0 else ValueOf(s[2]);
    SextetsOfOctets(ValueOf(s[0]), ValueOf(s[1]), c, 0);
    if s[2] != '=' {
      SymbolOfValue(s[2]);
    }
  }

  lemma PairRoundTrip(b: Bytes, strict: bool)
    requires |b| == 2
    ensures Decode(Encode(b), strict) == Some(b)
  {
    var s := Encode(b);
    var u, v, w := b[0] / 4, b[0] % 4 * 16 + b[1] / 16, b[1] % 16 * 4;
    assert ValueOf(s[0]) == u && ValueOf(s[1]) == v && ValueOf(s[2]) == w;
    assert s[2] != '=' && w % 4 == 0;
    assert u * 4 + v / 16 == b[0] && v % 16 * 16 + w / 4 == b[1];
    assert DecodeLast(s, strict) == Some([b[0], b[1]]);
    assert b == [b[0], b[1]];
  }

  /** Either decoder restores what was encoded. */
  lemma {:induction false} DecodeEncode(b: Bytes, strict: bool)
    ensures Decode(Encode(b), strict) == Some(b)
    decreases |b|
  {
    if |b| == 1 {
      assert b == [b[0]];
    } else if |b| == 2 {
      PairRoundTrip(b, strict);
    } else if |b| >= 3 {
      GroupRoundTrip(b[0], b[1], b[2]);
      DecodeEncode(b[3..], strict);
      var s := Encode(b);
      assert s[..4] == Group(b[0], b[1], b[2]);
      assert s[4..] == Encode(b[3..]);
      assert s[3] != '=';
      assert b == [b[0], b[1], b[2]] + b[3..];
    }
  }

  lemma EncodeGroupThen(d: Bytes, rest: Bytes)
    requires |d| == 3
    ensures Encode(d + rest) == Group(d[0], d[1], d[2]) + Encode(rest)
  {
    assert (d + rest)[3..] == rest;
  }

  /** The strict decoder accepts nothing but what the encoder writes. */
  lemma {:induction false} EncodeDecode(s: string)
    requires Decode(s, true).Some?
    ensures Encode(Decode(s, true).value) == s
    decreases |s|
  {
    if s != "" {
      if |s| == 4 && s[3] == '=' {
        LastOfDecoded(s);
      } else {
        var d := DecodeGroup(s[0], s[1], s[2], s[3]);
        var rest := Decode(s[4..], true).value;
        EncodeGroupThen(d, rest);
        GroupOfDecoded(s[0], s[1], s[2], s[3]);
        EncodeDecode(s[4..]);
        assert s == [s[0], s[1], s[2], s[3]] + s[4..];
      }
    }
  }

  /**
   * The strict decoder is the lenient one cut down to canonical text: same
   * value, and accepted exactly when re-encoding gives the text back.
   */
  lemma {:induction false} StrictIsCanonicalLenient(s: string)
    ensures Decode(s, true).Some? ==> Decode(s, false) == Decode(s, true)
    ensures Decode(s, true).Some? <==> Decode(s, false).Some? && Encode(Decode(s, false).value) == s
  {
    StrictWithinLenient(s);
    if Decode(s, true).Some? {
      EncodeDecode(s);
    } else if Decode(s, false).Some? && Encode(Decode(s, false).value) == s {
      DecodeEncode(Decode(s, false).value, true);
    }
  }

  lemma {:induction false} StrictWithinLenient(s: string)
    ensures Decode(s, true).Some? ==> Decode(s, false) == Decode(s, true)
    decreases |s|
  {
    if |s| > 4 {
      StrictWithinLenient(s[4..]);
    }
  }

  // The TypeScript SDK's pattern: whole groups of symbols, then at most one
  // group ending in one or two pad characters.
  ghost predicate MatchesPattern(s: string) {
    exists pad :: 0 <= pad <= 2 && PatternWithPad(s, pad)
  }

  ghost predicate PatternWithPad(s: string, pad: int) {
    && 0 <= pad <= |s|
    && |s| % 4 == 0
    && (forall k :: 0 <= k < |s| - pad ==> IsSymbol(s[k]))
    && (forall k :: |s| - pad <= k < |s| ==> s[k] == '=')
  }

  /** The lenient decoder accepts exactly the pattern. */
  lemma LenientIsPattern(s: string)
    ensures Decode(s, false).Some? <==> MatchesPattern(s)
  {
    if Decode(s, false).Some? {
      LenientMatches(s);
    }
    if MatchesPattern(s) {
      var pad :| 0 <= pad <= 2 && PatternWithPad(s, pad);
      MatchesLenient(s, pad);
    }
  }

  lemma PatternExtends(s: string, pad: int)
    requires |s| >= 4 && forall k :: 0 <= k < 4 ==> IsSymbol(s[k])
    requires PatternWithPad(s[4..], pad)
    ensures PatternWithPad(s, pad)
  {
  }

  lemma {:induction false} LenientMatches(s: string)
    requires Decode(s, false).Some?
    ensures MatchesPattern(s)
    decreases |s|
  {
    if s == "" {
      assert PatternWithPad(s, 0);
    } else if |s| == 4 && s[3] == '=' {
      assert PatternWithPad(s, if s[2] == '=' then 2 else 1);
    } else {
      LenientMatches(s[4..]);
      var pad :| 0 <= pad <= 2 && PatternWithPad(s[4..], pad);
      PatternExtends(s, pad);
    }
  }

  lemma {:induction false} MatchesLenient(s: string, pad: int)
    requires 0 <= pad <= 2 && PatternWithPad(s, pad)
    ensures Decode(s, false).Some?
    decreases |s|
  {
    if |s| > 4 {
      assert forall k :: 0 <= k < |s| - 4 ==> s[4..][k] == s[k + 4];
      MatchesLenient(s[4..], pad);
    }
  }

  /** The bits of the last symbol that a padded group leaves unused are zero. */
  predicate UnusedBitsZero(s: string) {
    var n := |s|;
    && (n >= 3 && s[n - 1] == '=' && s[n - 2] == '=' && IsSymbol(s[n - 3]) ==> ValueOf(s[n - 3]) % 16 == 0)
    && (n >= 2 && s[n - 1] == '=' && IsSymbol(s[n - 2]) ==> ValueOf(s[n - 2]) % 4 == 0)
  }

  lemma {:induction false} StrictOnLenient(s: string)
    requires Decode(s, false).Some?
    ensures Decode(s, true).Some? <==> UnusedBitsZero(s)
    decreases |s|
  {
    if |s| > 4 {
      StrictOnLenient(s[4..]);
    }
  }

  /** The strict decoder accepts exactly the pattern with its unused bits zero. */
  lemma StrictIsPattern(s: string)
    ensures Decode(s, true).Some? <==> MatchesPattern(s) && UnusedBitsZero(s)
  {
    hide Decode, MatchesPattern, UnusedBitsZero;
    LenientIsPattern(s);
    StrictWithinLenient(s);
    if Decode(s, false).Some? {
      StrictOnLenient(s);
    }
  }

  lemma LenientEmpty(s: string)
    requires Decode(s, false).Some?
    ensures Decode(s, false).value == [] <==> s == ""
  {
  }

  /** A text the lenient decoder accepts has no line break in it. */
  lemma LenientHasNoNewline(s: string)
    requires Decode(s, false).Some?
    ensures '\n' !in s && '\r' !in s
  {
    LenientMatches(s);
  }

  /** What Go's `StdEncoding.DecodeString` does: line breaks are skipped, then the lenient decoder. */
  function GoDecode(s: string): Option<Bytes> { Decode(DropNewlines(s), false) }

  function DropNewlines(s: string): string {
    if s == "" then ""
    else if s[0] == '\n' || s[0] == '\r' then DropNewlines(s[1..])
    else [s[0]] + DropNewlines(s[1..])
  }

  lemma {:induction false} DropNewlinesKeeps(s: string)
    requires '\n' !in s && '\r' !in s
    ensures DropNewlines(s) == s
  {
    if s != "" {
      assert s[0] in s;
      assert s == [s[0]] + s[1..];
      DropNewlinesKeeps(s[1..]);
    }
  }

  /** Whatever the strict decoder accepts, Go's decoder accepts with the same value. */
  lemma StrictWithinGo(s: string)
    requires Decode(s, true).Some?
    ensures GoDecode(s) == Decode(s, true)
  {
    StrictWithinLenient(s);
    LenientHasNoNewline(s);
    DropNewlinesKeeps(s);
  }
}
