/** The idempotency key of a delivery, and the workers' back-off delays. */
module Keys {
  import opened Text
  import opened Json
  import opened Message

  function TenantOrDefault(m: Message): string {
    if TenantId in m.texts then m.texts[TenantId] else "default"
  }

  predicate HasText(m: Message, key: Key) { key in m.texts && m.texts[key] != "" }

  function ComputedKey(m: Message): string {
    if HasText(m, DedupeKey) then TenantOrDefault(m) + ":" + m.sourceId + ":" + m.texts[DedupeKey] else m.id
  }

  /** The shipped key when there is one, else the computed one; a replay suffix on request. */
  function IdempotencyKeyOf(m: Message, includeReplay: bool): string {
    var base := if HasText(m, IdempotencyKey) then m.texts[IdempotencyKey] else ComputedKey(m);
    if includeReplay && ReplayId in m.texts then base + "#replay:" + m.texts[ReplayId] else base
  }

  /** A message with these texts in place of its own. */
  function WithTexts(m: Message, texts: map<Key, string>): Message { m.(texts := texts) }

  /**
   * What the key is made of: the shipped key before all else; then tenant,
   * source and dedupe key, the tenant `default` where there is none; then the
   * id. An empty shipped key or dedupe key counts as none. The replay id goes
   * last, and only on request.
   */
  lemma KeyPrecedence(m: Message, texts: map<Key, string>, shipped: string, tenant: string, dedupe: string, replay: string)
    requires shipped != "" && dedupe != ""
    requires IdempotencyKey !in texts && DedupeKey !in texts && TenantId !in texts && ReplayId !in texts
    ensures IdempotencyKeyOf(WithTexts(m, texts[TenantId := tenant][DedupeKey := dedupe][IdempotencyKey := shipped]), false) == shipped
    ensures IdempotencyKeyOf(WithTexts(m, texts[TenantId := tenant][DedupeKey := dedupe]), false) == tenant + ":" + m.sourceId + ":" + dedupe
    ensures IdempotencyKeyOf(WithTexts(m, texts[DedupeKey := dedupe][IdempotencyKey := ""]), false) == "default:" + m.sourceId + ":" + dedupe
    ensures IdempotencyKeyOf(WithTexts(m, texts[TenantId := tenant][DedupeKey := ""]), false) == m.id
    ensures IdempotencyKeyOf(WithTexts(m, texts), false) == m.id
    ensures IdempotencyKeyOf(WithTexts(m, texts[ReplayId := replay]), false) == m.id
    ensures IdempotencyKeyOf(WithTexts(m, texts[ReplayId := replay]), true) == m.id + "#replay:" + replay
    ensures IdempotencyKeyOf(WithTexts(m, texts[IdempotencyKey := shipped][ReplayId := replay]), true) == shipped + "#replay:" + replay
  {
    assert "default" + ":" == "default:";
  }

  predicate SameEvent(a: Message, b: Message) {
    if HasText(a, DedupeKey) then
      && HasText(b, DedupeKey) && a.texts[DedupeKey] == b.texts[DedupeKey]
      && TenantOrDefault(a) == TenantOrDefault(b) && a.sourceId == b.sourceId
    else !HasText(b, DedupeKey) && a.id == b.id
  }

  /** The text cut at its first two colons. */
  function CutTwice(s: string): (r: Option<(string, string, string)>)
    ensures r.Some? ==> ':' !in r.value.0 && ':' !in r.value.1 && s == r.value.0 + [':'] + (r.value.1 + [':'] + r.value.2)
  {
    var first := SplitOnce(s, ':');
    if first.None? then None else
      var second := SplitOnce(first.value.1, ':');
      if second.None? then None else Some((first.value.0, second.value.0, second.value.1))
  }

  /** A colon in the tenant or the source; or an id that reads as tenant, source and dedupe key. */
  predicate Ambiguous(m: Message) {
    if HasText(m, DedupeKey) then ':' in TenantOrDefault(m) || ':' in m.sourceId
    else CutTwice(m.id).Some? && CutTwice(m.id).value.2 != ""
  }

  lemma KeyShape(m: Message)
    ensures HasText(m, DedupeKey) ==>
              ComputedKey(m) == TenantOrDefault(m) + [':'] + (m.sourceId + [':'] + m.texts[DedupeKey])
    ensures HasText(m, DedupeKey) ==> ':' in ComputedKey(m)
  {
  }

  lemma CutTwiceOf(a: string, b: string, c: string)
    requires ':' !in a && ':' !in b
    ensures CutTwice(a + [':'] + (b + [':'] + c)) == Some((a, b, c))
  {
    SplitOnceOf(a, ':', b + [':'] + c);
    SplitOnceOf(b, ':', c);
  }

  lemma KeyCut(m: Message)
    requires HasText(m, DedupeKey) && !Ambiguous(m)
    ensures CutTwice(ComputedKey(m)) == Some((TenantOrDefault(m), m.sourceId, m.texts[DedupeKey]))
  {
    KeyShape(m);
    CutTwiceOf(TenantOrDefault(m), m.sourceId, m.texts[DedupeKey]);
  }

  /**
   * Unless one of them is ambiguous, computed keys agree exactly when the
   * deliveries are of one event: same tenant (none counting as `default`),
   * source and dedupe key, or no dedupe key and the same id.
   */
  lemma ComputedKeysSeparate(a: Message, b: Message)
    requires !Ambiguous(a) && !Ambiguous(b)
    ensures ComputedKey(a) == ComputedKey(b) <==> SameEvent(a, b)
  {
    hide CutTwice;
    if HasText(a, DedupeKey) {
      KeyCut(a);
    }
    if HasText(b, DedupeKey) {
      KeyCut(b);
    }
  }

  /** A colon moved from the tenant into the dedupe key: two events of one key, the first of them ambiguous. */
  lemma ColonsCollide(a: Message, b: Message)
    requires a.texts == map[TenantId := "a:b", DedupeKey := "d"] && a.sourceId == "c"
    requires b.texts == map[TenantId := "a", DedupeKey := "c:d"] && b.sourceId == "b"
    ensures ComputedKey(a) == ComputedKey(b) && !SameEvent(a, b) && Ambiguous(a) && !Ambiguous(b)
  {
  }

  /** With colons at `i` and `j`, the cut leaves at least what follows `j`. */
  lemma CutBefore(s: string, i: nat, j: nat)
    requires i < j < |s| && s[i] == ':' && s[j] == ':'
    ensures CutTwice(s).Some? && |CutTwice(s).value.2| >= |s| - j - 1
  {
    hide IndexOf;
    IndexOfAtMost(s, ':', i);
    var first := IndexOf(s, ':');
    IndexOfAtMost(s[first + 1..], ':', j - first - 1);
  }

  /** With a colon in the tenant or the source, the cut leaves more than the dedupe key. */
  lemma CutLeavesMore(m: Message)
    requires HasText(m, DedupeKey) && Ambiguous(m)
    ensures var cut := CutTwice(ComputedKey(m)); cut.Some? && |cut.value.2| > |m.texts[DedupeKey]|
  {
    KeyShape(m);
    hide CutTwice;
    var tenant, key := TenantOrDefault(m), ComputedKey(m);
    assert key[|tenant|] == ':';
    if ':' in tenant {
      var i :| 0 <= i < |tenant| && tenant[i] == ':';
      CutBefore(key, i, |tenant|);
    } else {
      var i :| 0 <= i < |m.sourceId| && m.sourceId[i] == ':';
      CutBefore(key, |tenant|, |tenant| + 1 + i);
    }
  }

  /** A different event, itself not ambiguous, with the same computed key. */
  ghost predicate SharesKey(m: Message, other: Message) {
    !Ambiguous(other) && ComputedKey(other) == ComputedKey(m) && !SameEvent(m, other)
  }

  /** A delivery shares its key with some event that is not ambiguous exactly when it is ambiguous itself. */
  lemma SharesKeyExactly(m: Message)
    ensures (exists other :: SharesKey(m, other)) <==> Ambiguous(m)
  {
    if other :| SharesKey(m, other) && !Ambiguous(m) {
      ComputedKeysSeparate(m, other);
    }
    if Ambiguous(m) {
      var other := AmbiguousShares(m);
    }
  }

  function Renamed(m: Message, tenant: string, source: string, dedupe: string): Message {
    m.(texts := m.texts[TenantId := tenant][DedupeKey := dedupe], sourceId := source)
  }

  lemma RenamedKey(m: Message, tenant: string, source: string, dedupe: string)
    requires dedupe != ""
    ensures var other := Renamed(m, tenant, source, dedupe);
            && HasText(other, DedupeKey) && other.texts[DedupeKey] == dedupe
            && TenantOrDefault(other) == tenant && other.sourceId == source
            && ComputedKey(other) == tenant + [':'] + (source + [':'] + dedupe)
  {
    KeyShape(Renamed(m, tenant, source, dedupe));
    hide ComputedKey;
  }

  lemma AmbiguousShares(m: Message) returns (other: Message)
    requires Ambiguous(m)
    ensures SharesKey(m, other)
  {
    hide CutTwice, Renamed;
    if HasText(m, DedupeKey) {
      CutLeavesMore(m);
    }
    var cut := CutTwice(ComputedKey(m)).value;
    RenamedKey(m, cut.0, cut.1, cut.2);
    hide ComputedKey;
    other := Renamed(m, cut.0, cut.1, cut.2);
  }

  function Base(m: Message): string { IdempotencyKeyOf(m, false) }

  function Suffix(m: Message): Option<string> { m.Text(ReplayId) }

  function ReplayKey(m: Message): string { IdempotencyKeyOf(m, true) }

  const MARK := "#replay:"

  predicate MarkAt(s: string, i: nat) { i + 8 <= |s| && s[i..i + 8] == MARK }

  /** A base that reads as another base with a replay suffix. */
  ghost predicate Marked(base: string) { exists i: nat :: MarkAt(base, i) }

  function Tail(suffix: Option<string>): string { if suffix.Some? then MARK + suffix.value else "" }

  lemma ReplayKeyShape(m: Message)
    ensures ReplayKey(m) == Base(m) + Tail(Suffix(m))
  {
    assert Suffix(m).Some? ==> Base(m) + MARK + Suffix(m).value == Base(m) + (MARK + Suffix(m).value);
  }

  lemma MarkInPrefix(s: string, n: nat, i: nat)
    requires n <= |s| && i + 8 <= n
    ensures MarkAt(s[..n], i) <==> MarkAt(s, i)
  {
    assert s[..n][i..i + 8] == s[i..i + 8];
  }

  lemma MarkHasOneHash(s: string, i: nat, j: nat)
    requires MarkAt(s, i) && i < j < i + 8
    ensures s[j] != '#'
  {
    assert s[j] == s[i..i + 8][j - i];
  }

  /** The mark has its only `#` at the start, so none begins in the base and ends in the tail. */
  lemma NoEarlyMark(base: string, suffix: Option<string>, i: nat)
    requires !Marked(base) && MarkAt(base + Tail(suffix), i)
    ensures i >= |base| && suffix.Some?
  {
    var whole := base + Tail(suffix);
    assert whole[..|base|] == base;
    if i + 8 <= |base| {
      MarkInPrefix(whole, |base|, i);
    } else if i < |base| {
      MarkHasOneHash(whole, i, |base|);
    }
  }

  lemma TailMark(base: string, suffix: Option<string>)
    requires suffix.Some?
    ensures MarkAt(base + Tail(suffix), |base|)
  {
  }

  lemma TailInjective(suffix: Option<string>, suffix': Option<string>)
    requires Tail(suffix) == Tail(suffix')
    ensures suffix == suffix'
  {
    if suffix.Some? && suffix'.Some? {
      assert Tail(suffix)[8..] == suffix.value && Tail(suffix')[8..] == suffix'.value;
    }
  }

  lemma BasesSeparate(base: string, suffix: Option<string>, base': string, suffix': Option<string>)
    requires !Marked(base) && !Marked(base') && base + Tail(suffix) == base' + Tail(suffix')
    ensures base == base' && suffix == suffix'
  {
    hide Marked, MarkAt, Tail;
    var whole := base + Tail(suffix);
    if suffix.Some? {
      TailMark(base, suffix);
      NoEarlyMark(base', suffix', |base|);
    }
    if suffix'.Some? {
      TailMark(base', suffix');
      NoEarlyMark(base, suffix, |base'|);
    }
    NoTail(suffix);
    NoTail(suffix');
    assert |base| == |base'|;
    assert whole[..|base|] == base && whole[..|base'|] == base';
    assert whole[|base|..] == Tail(suffix) && whole[|base'|..] == Tail(suffix');
    TailInjective(suffix, suffix');
  }

  lemma NoTail(suffix: Option<string>)
    ensures suffix.None? ==> Tail(suffix) == ""
  {
  }

  /** With unmarked bases, the replay-aware key separates deliveries by base and replay job. */
  lemma ReplaySuffixSeparates(a: Message, b: Message)
    requires !Marked(Base(a)) && !Marked(Base(b))
    ensures ReplayKey(a) == ReplayKey(b) <==> Base(a) == Base(b) && Suffix(a) == Suffix(b)
  {
    ReplayKeyShape(a);
    ReplayKeyShape(b);
    hide IdempotencyKeyOf, Marked;
    if ReplayKey(a) == ReplayKey(b) {
      BasesSeparate(Base(a), Suffix(a), Base(b), Suffix(b));
    }
  }

  /** A delivery of another base or replay job, its base unmarked, with the same replay-aware key. */
  ghost predicate SharesReplayKey(m: Message, other: Message) {
    !Marked(Base(other)) && ReplayKey(other) == ReplayKey(m) && !(Base(other) == Base(m) && Suffix(other) == Suffix(m))
  }

  /** A delivery shares its replay-aware key with one of an unmarked base exactly when its own base is marked. */
  lemma SharesReplayKeyExactly(m: Message)
    ensures (exists other :: SharesReplayKey(m, other)) <==> Marked(Base(m))
  {
    if other :| SharesReplayKey(m, other) && !Marked(Base(m)) {
      ReplaySuffixSeparates(m, other);
    }
    if Marked(Base(m)) {
      var other := ReplayTwin(m);
    }
  }

  lemma FirstMark(s: string) returns (i: nat)
    requires Marked(s)
    ensures MarkAt(s, i) && !Marked(s[..i])
  {
    i :| MarkAt(s, i);
    while exists k: nat :: k < i && MarkAt(s, k)
      invariant MarkAt(s, i)
      decreases i
    {
      var k: nat :| k < i && MarkAt(s, k);
      i := k;
    }
    forall k: nat | k + 8 <= i
      ensures !MarkAt(s[..i], k)
    {
      MarkInPrefix(s, i, k);
    }
  }

  lemma RereadBase(base: string, tail: string, i: nat)
    requires MarkAt(base, i)
    ensures base + tail == base[..i] + (MARK + (base[i + 8..] + tail))
  {
    assert base == base[..i] + base[i..i + 8] + base[i + 8..];
  }

  lemma Replayed(m: Message, base: string, suffix: string) returns (other: Message)
    ensures Base(other) == base && Suffix(other) == Some(suffix)
  {
    other := m.(id := base, texts := map[ReplayId := suffix]);
  }

  lemma ReplayTwin(m: Message) returns (other: Message)
    requires Marked(Base(m))
    ensures SharesReplayKey(m, other)
  {
    hide IdempotencyKeyOf, Marked;
    var base, tail := Base(m), Tail(Suffix(m));
    var i := FirstMark(base);
    RereadBase(base, tail, i);
    other := Replayed(m, base[..i], base[i + 8..] + tail);
    ReplayKeyShape(m);
    ReplayKeyShape(other);
  }

  /** One such pair. */
  lemma MarksCollide(a: Message, b: Message)
    requires a.texts == map[IdempotencyKey := "x#y", ReplayId := "z"] && b.texts == map[IdempotencyKey := "x#y#replay:z"]
    ensures ReplayKey(a) == ReplayKey(b) && Base(a) != Base(b) && Suffix(a) != Suffix(b) && Marked(Base(b))
  {
    assert MarkAt("x#y#replay:z", 3);
  }

  // ---------------------------------------------------------------------
  // Back-off
  // ---------------------------------------------------------------------

  function Power2(n: nat): nat { if n == 0 then 1 else 2 * Power2(n - 1) }

  /** The visibility timeout after the `receives`-th receive. */
  function BackOffSeconds(receives: nat): nat
    requires receives >= 1
  {
    if 30 * Power2(receives - 1) < 900 then 30 * Power2(receives - 1) else 900
  }

  /** The whole time a message spends backed off over its first `n` receives. */
  function TotalBackOff(n: nat): nat { if n == 0 then 0 else TotalBackOff(n - 1) + BackOffSeconds(n) }

  lemma {:induction false} PowerGrows(m: nat, n: nat)
    requires m <= n
    ensures 1 <= Power2(m) <= Power2(n)
    decreases n
  {
    if m < n {
      PowerGrows(m, n - 1);
    } else if m > 0 {
      PowerGrows(m - 1, m - 1);
    }
  }

  /** Delays never shrink from one receive to a later one, and from the sixth on they are 900 seconds. */
  lemma BackOffGrows(m: nat, n: nat)
    requires 1 <= m <= n
    ensures 30 <= BackOffSeconds(m) <= BackOffSeconds(n) <= 900
    ensures BackOffSeconds(n) == 900 <==> n >= 6
  {
    PowerGrows(m - 1, n - 1);
    PowerGrows(0, m - 1);
    assert Power2(4) == 16 && Power2(5) == 32;
    if n >= 6 {
      PowerGrows(5, n - 1);
    } else {
      PowerGrows(n - 1, 4);
    }
  }

  lemma {:induction false} BackOffTotal(n: nat)
    requires n >= 5
    ensures TotalBackOff(n) == 930 + 900 * (n - 5)
  {
    if n == 5 {
      assert Power2(1) == 2 && Power2(2) == 4 && Power2(3) == 8 && Power2(4) == 16;
      assert TotalBackOff(3) == 210 && TotalBackOff(5) == 930;
    } else {
      BackOffTotal(n - 1);
      BackOffGrows(1, n);
    }
  }
}
