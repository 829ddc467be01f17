/** Splitting, joining and the small vocabulary the codecs share. */
module Text {

  datatype Option<+T> = None | Some(value: T)

  type byte = x: int | 0 <= x < 256

  type Bytes = seq<byte>

  /** The octets of a text whose characters are all below 256. */
  function Octets(s: string): Bytes { seq(|s|, i requires 0 <= i < |s| => s[i] as int % 256) }

  predicate IsDigit(c: char) { '0' <= c <= '9' }

  predicate IsUpper(c: char) { 'A' <= c <= 'Z' }

  predicate IsLower(c: char) { 'a' <= c <= 'z' }

  predicate IsAlnum(c: char) { IsDigit(c) || IsUpper(c) || IsLower(c) }

  /** The decimal numeral of a number. */
  function Numeral(k: nat): string {
    if k < 10 then ['0' + k as char] else Numeral(k / 10) + ['0' + (k % 10) as char]
  }

  /** The first index of `c` in `s`, or `|s|` when it does not occur. */
  function IndexOf<T(==)>(s: seq<T>, c: T): (i: nat)
    ensures i <= |s|
    ensures c !in s[..i]
    ensures i < |s| ==> s[i] == c
    ensures i == |s| <==> c !in s
  {
    if s == [] then 0
    else if s[0] == c then 0
    else
      var i := 1 + IndexOf(s[1..], c);
      assert s[..i] == [s[0]] + s[1..][..i - 1];
      assert s == [s[0]] + s[1..];
      i
  }

  lemma IndexOfAtMost<T>(s: seq<T>, c: T, i: nat)
    requires i < |s| && s[i] == c
    ensures IndexOf(s, c) <= i
  {
    hide IndexOf;
    var first := IndexOf(s, c);
    assert forall k :: 0 <= k < first ==> s[..first][k] == s[k];
  }

  /** The text around the first separator; `None` when there is no separator. */
  function SplitOnce<T(==)>(s: seq<T>, c: T): (r: Option<(seq<T>, seq<T>)>)
    ensures r.Some? <==> c in s
    ensures r.Some? ==> c !in r.value.0 && s == r.value.0 + [c] + r.value.1
  {
    var i := IndexOf(s, c);
    if i == |s| then None else Some((s[..i], s[i + 1..]))
  }

  /** The two sides of a separator are recovered whenever the left side is free of it. */
  lemma SplitOnceOf<T>(left: seq<T>, c: T, right: seq<T>)
    requires c !in left
    ensures SplitOnce(left + [c] + right, c) == Some((left, right))
  {
    var s := left + [c] + right;
    var i := IndexOf(s, c);
    assert s[|left|] == c;
    assert i <= |left| by {
      assert forall k :: 0 <= k < i ==> s[..i][k] == s[k];
    }
    assert i >= |left| by {
      assert forall k :: 0 <= k < |left| ==> s[k] == left[k];
    }
    assert s[..i] == left && s[i + 1..] == right;
  }

  /** Every maximal piece between separators: one more than there are separators. */
  function Split<T(==)>(s: seq<T>, c: T): (r: seq<seq<T>>)
    ensures r != []
    ensures forall k :: 0 <= k < |r| ==> c !in r[k]
    decreases |s|
  {
    var i := IndexOf(s, c);
    if i == |s| then [s] else [s[..i]] + Split(s[i + 1..], c)
  }

  lemma SplitHead<T>(s: seq<T>, c: T)
    requires c in s
    ensures var i := IndexOf(s, c); i < |s| && Split(s, c) == [s[..i]] + Split(s[i + 1..], c)
  {
    hide IndexOf;
    assert IndexOf(s, c) < |s|;
  }

  lemma SplitNone<T>(s: seq<T>, c: T)
    requires c !in s
    ensures Split(s, c) == [s]
  {
    hide IndexOf;
  }

  function Join<T>(parts: seq<seq<T>>, c: T): seq<T>
    requires parts != []
  {
    if |parts| == 1 then parts[0] else parts[0] + [c] + Join(parts[1..], c)
  }

  lemma {:induction false} SplitJoin<T>(parts: seq<seq<T>>, c: T)
    requires parts != []
    requires forall k :: 0 <= k < |parts| ==> c !in parts[k]
    ensures Split(Join(parts, c), c) == parts
    decreases |parts|
  {
    if |parts| == 1 {
      assert parts == [parts[0]];
    } else {
      var rest := Join(parts[1..], c);
      SplitOnceOf(parts[0], c, rest);
      SplitHead(parts[0] + [c] + rest, c);
      SplitJoin(parts[1..], c);
      hide Split;
      assert parts == [parts[0]] + parts[1..];
    }
  }

  lemma JoinCons<T>(head: seq<T>, tail: seq<seq<T>>, c: T)
    requires tail != []
    ensures Join([head] + tail, c) == head + [c] + Join(tail, c)
  {
  }

  lemma {:induction false} JoinSplit<T>(s: seq<T>, c: T)
    ensures Join(Split(s, c), c) == s
    decreases |s|
  {
    hide Split, IndexOf;
    var i := IndexOf(s, c);
    if i < |s| {
      SplitHead(s, c);
      JoinSplit(s[i + 1..], c);
      JoinCons(s[..i], Split(s[i + 1..], c), c);
      assert s == s[..i] + [c] + s[i + 1..];
    } else {
      SplitNone(s, c);
    }
  }

  /** Two texts cut at the same separator agree on both sides when the left sides are free of it. */
  lemma SameCut<T>(a: seq<T>, b: seq<T>, c: T, x: seq<T>, y: seq<T>)
    requires c !in a && c !in b
    requires a + [c] + x == b + [c] + y
    ensures a == b && x == y
  {
    SplitOnceOf(a, c, x);
    SplitOnceOf(b, c, y);
  }
}
