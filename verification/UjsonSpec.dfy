/** What a byte stream means to ujson, by a recursive-descent parser that looks
    at the whole stream. `i` is always the index of the next byte to read. */
module UjsonSpec {
  import opened Machine
  import opened Text

  const MAX_KV := 8
  const STR_MAX := 64
  const MSG_MAX := 256

  const LBRACE: byte := 0x7B
  const RBRACE: byte := 0x7D

  predicate IsWs(b: byte) { b == SPACE || b == TAB || b == CR || b == LF }

  predicate NumberStart(b: byte) { IsDigit(b) || b == MINUS }

  /** A key and the text of its value, which was a number or a string. */
  datatype Pair = Pair(key: seq<byte>, text: seq<byte>, numeric: bool)

  /** A piece was read up to `next`; or the byte at `at` is wrong; or the
      stream ended first. */
  datatype Parsed<+T> = Ok(value: T, next: nat) | Bad(at: nat) | More

  function SkipWs(s: seq<byte>, i: nat): (j: nat)
    requires i <= |s|
    ensures i <= j <= |s|
    ensures forall k :: i <= k < j ==> IsWs(s[k])
    ensures j < |s| ==> !IsWs(s[j])
    decreases |s| - i
  {
    if i < |s| && IsWs(s[i]) then SkipWs(s, i + 1) else i
  }

  function SkipDigits(s: seq<byte>, i: nat): (j: nat)
    requires i <= |s|
    ensures i <= j <= |s|
    ensures forall k :: i <= k < j ==> IsDigit(s[k])
    ensures j < |s| ==> !IsDigit(s[j])
    decreases |s| - i
  {
    if i < |s| && IsDigit(s[i]) then SkipDigits(s, i + 1) else i
  }

  /** Index of the first b from i on, or |s|. */
  function Find(s: seq<byte>, i: nat, b: byte): (j: nat)
    requires i <= |s|
    ensures i <= j <= |s|
    ensures forall k :: i <= k < j ==> s[k] != b
    ensures j < |s| ==> s[j] == b
  {
    var r := IndexOf(s[i..], b);
    assert forall k :: i <= k < i + r ==> s[k] == s[i..][k - i];
    i + r
  }

  // A token from i to j must fit its slot beside the terminator.
  predicate TooLong(i: nat, j: nat) { j > i + STR_MAX - 1 }

  /** The rest of a quoted token; its closing quote is consumed. */
  function Quoted(s: seq<byte>, i: nat): (r: Parsed<seq<byte>>)
    requires i <= |s|
    ensures r.Ok? ==> i < r.next <= |s|
  {
    var j := Find(s, i, QUOTE);
    if TooLong(i, j) then Bad(i + STR_MAX - 1)
    else if j == |s| then More
    else Ok(s[i..j], j + 1)
  }

  predicate EndsNumber(b: byte) { b == COMMA || b == RBRACE || IsWs(b) }

  /** A number that starts at i; the byte that ends it is not consumed. */
  function Number(s: seq<byte>, i: nat): (r: Parsed<seq<byte>>)
    requires i < |s|
    ensures r.Ok? ==> i < r.next <= |s|
  {
    var j := SkipDigits(s, i + 1);
    if TooLong(i, j) then Bad(i + STR_MAX - 1)
    else if j == |s| then More
    else if EndsNumber(s[j]) then Ok(s[i..j], j)
    else Bad(j)
  }

  function MakePair(key: seq<byte>, text: Parsed<seq<byte>>, numeric: bool): Parsed<Pair> {
    match text
    case Ok(t, next) => Ok(Pair(key, t, numeric), next)
    case Bad(at) => Bad(at)
    case More => More
  }

  function ParseValue(s: seq<byte>, i: nat, key: seq<byte>): (r: Parsed<Pair>)
    requires i <= |s|
    ensures r.Ok? ==> i < r.next <= |s|
  {
    var j := SkipWs(s, i);
    if j == |s| then More
    else if s[j] == QUOTE then MakePair(key, Quoted(s, j + 1), false)
    else if NumberStart(s[j]) then MakePair(key, Number(s, j), true)
    else Bad(j)
  }

  function ParseColon(s: seq<byte>, i: nat, key: seq<byte>): (r: Parsed<Pair>)
    requires i <= |s|
    ensures r.Ok? ==> i < r.next <= |s|
  {
    var j := SkipWs(s, i);
    if j == |s| then More
    else if s[j] == COLON then ParseValue(s, j + 1, key)
    else Bad(j)
  }

  function ParsePair(s: seq<byte>, key: Parsed<seq<byte>>): Parsed<Pair>
    requires key.Ok? ==> key.next <= |s|
  {
    match key
    case Ok(k, next) => ParseColon(s, next, k)
    case Bad(at) => Bad(at)
    case More => More
  }

  function Prepend(pairs: seq<Pair>, r: Parsed<seq<Pair>>): Parsed<seq<Pair>> {
    match r
    case Ok(ps, next) => Ok(pairs + ps, next)
    case Bad(at) => Bad(at)
    case More => More
  }

  /** Pairs from i to the closing brace, when n pairs have been read already. */
  function ParseMembers(s: seq<byte>, i: nat, n: nat): Parsed<seq<Pair>>
    requires i <= |s|
    decreases |s| - i, 2
  {
    var j := SkipWs(s, i);
    if j == |s| then More
    else if s[j] != QUOTE || n >= MAX_KV then Bad(j)
    else
      QuotedRange(s, j + 1);
      ParseMember(s, j + 1, ParsePair(s, Quoted(s, j + 1)), n)
  }

  // The pair has been read from `from` on; go on after it.
  function ParseMember(s: seq<byte>, from: nat, pair: Parsed<Pair>, n: nat): Parsed<seq<Pair>>
    requires pair.Ok? ==> from <= pair.next <= |s|
    decreases |s| - from, 1
  {
    match pair
    case Ok(p, next) => ParseAfter(s, next, p, n)
    case Bad(at) => Bad(at)
    case More => More
  }

  function ParseAfter(s: seq<byte>, i: nat, pair: Pair, n: nat): Parsed<seq<Pair>>
    requires i <= |s|
    decreases |s| - i, 0
  {
    var j := SkipWs(s, i);
    if j == |s| then More
    else if s[j] == COMMA then Prepend([pair], ParseMembers(s, j + 1, n + 1))
    else if s[j] == RBRACE then Ok([pair], j + 1)
    else Bad(j)
  }

  /** Anything up to '{', then one object. */
  function Document(s: seq<byte>, i: nat): Parsed<seq<Pair>>
    requires i <= |s|
  {
    var j := Find(s, i, LBRACE);
    if j == |s| then More else ParseMembers(s, j + 1, 0)
  }

  // Results stay within the stream.
  ghost predicate InRange<T>(r: Parsed<T>, i: nat, n: nat) {
    match r
    case Ok(_, next) => i <= next <= n
    case Bad(at) => i <= at < n
    case More => true
  }

  lemma QuotedRange(s: seq<byte>, i: nat)
    requires i <= |s|
    ensures InRange(Quoted(s, i), i, |s|)
    ensures InRange(ParsePair(s, Quoted(s, i)), i, |s|)
  {
    hide IndexOf;
  }

  /** A callback with the pairs and the captured message, or a byte for which
      the parser returns 0. `at` is the byte that caused it. */
  datatype Outcome = Fired(at: nat, pairs: seq<Pair>, msg: seq<byte>) | Rejected(at: nat)

  function Capture(raw: seq<byte>): (r: seq<byte>)
    ensures |r| == Min(|raw|, 255) && r <= raw
  {
    if |raw| <= MSG_MAX - 1 then raw else raw[..MSG_MAX - 1]
  }

  /** All that happens on a stream from i on, in order. */
  function Outcomes(s: seq<byte>, i: nat): seq<Outcome>
    requires i <= |s|
    decreases |s| - i
  {
    DocumentRange(s, i);
    match Document(s, i)
    case Ok(pairs, next) => [Fired(next - 1, pairs, Capture(s[i..next]))] + Outcomes(s, next)
    case Bad(at) => [Rejected(at)] + Outcomes(s, at + 1)
    case More => []
  }

  lemma {:induction false} MembersRange(s: seq<byte>, i: nat, n: nat)
    requires i <= |s|
    ensures InRange(ParseMembers(s, i, n), i, |s|)
    ensures ParseMembers(s, i, n).Ok? ==> i < ParseMembers(s, i, n).next
    decreases |s| - i, 1
  {
    hide ParsePair, Quoted;
    var j := SkipWs(s, i);
    if j < |s| && s[j] == QUOTE && n < MAX_KV {
      QuotedRange(s, j + 1);
      var pair := ParsePair(s, Quoted(s, j + 1));
      if pair.Ok? { AfterRange(s, pair.next, pair.value, n); }
      assert ParseMembers(s, i, n) == ParseMember(s, j + 1, pair, n);
    }
  }

  lemma {:induction false} AfterRange(s: seq<byte>, i: nat, pair: Pair, n: nat)
    requires i <= |s|
    ensures InRange(ParseAfter(s, i, pair, n), i, |s|)
    ensures ParseAfter(s, i, pair, n).Ok? ==> i < ParseAfter(s, i, pair, n).next
    decreases |s| - i, 0
  {
    var j := SkipWs(s, i);
    if j < |s| && s[j] == COMMA { MembersRange(s, j + 1, n + 1); }
  }

  lemma DocumentRange(s: seq<byte>, i: nat)
    requires i <= |s|
    ensures InRange(Document(s, i), i, |s|)
    ensures Document(s, i).Ok? ==> i < Document(s, i).next
  {
    var j := Find(s, i, LBRACE);
    if j < |s| { MembersRange(s, j + 1, 0); }
  }
}
