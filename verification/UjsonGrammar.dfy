/** The language that ujson accepts, as a grammar: every object it delivers is
    a derivation of the grammar, and every derivation is delivered. */
module UjsonGrammar {
  import opened Machine
  import opened Text
  import opened UjsonSpec
  import opened UjsonMachine

  /** A pair with the white space around its pieces. */
  datatype Member = Member(w1: seq<byte>, key: seq<byte>, w2: seq<byte>, w3: seq<byte>,
                           text: seq<byte>, numeric: bool, w4: seq<byte>)

  // Spaces, tabs, CR and LF. The grammar names its bytes and sizes outright and
  // shares no definition with the parser.
  predicate White(w: seq<byte>) {
    forall k :: 0 <= k < |w| ==> w[k] == 0x20 || w[k] == 0x09 || w[k] == 0x0D || w[k] == 0x0A
  }

  // No '"', and at most 63 bytes.
  predicate StringToken(t: seq<byte>) {
    |t| <= 63 && forall k :: 0 <= k < |t| ==> t[k] != 0x22
  }

  // A digit or '-', then digits, at most 63 bytes.
  predicate NumberToken(t: seq<byte>) {
    && 1 <= |t| <= 63 && (t[0] == 0x2D || 0x30 <= t[0] <= 0x39)
    && forall k :: 1 <= k < |t| ==> 0x30 <= t[k] <= 0x39
  }

  predicate WellFormed(m: Member) {
    && White(m.w1) && White(m.w2) && White(m.w3) && White(m.w4)
    && StringToken(m.key) && if m.numeric then NumberToken(m.text) else StringToken(m.text)
  }

  function PairOf(m: Member): Pair { Pair(m.key, m.text, m.numeric) }

  function PairsOf(ms: seq<Member>): (ps: seq<Pair>)
    ensures |ps| == |ms|
  {
    if ms == [] then [] else [PairOf(ms[0])] + PairsOf(ms[1..])
  }

  function RenderValue(m: Member): seq<byte> {
    if m.numeric then m.text else [0x22] + (m.text + [0x22])
  }

  // member ::= ws '"' key '"' ws ':' ws value ws
  function Render(m: Member): seq<byte> {
    m.w1 + ([0x22] + ((m.key + [0x22]) + (m.w2 + ([0x3A] + (m.w3 + (RenderValue(m) + m.w4))))))
  }

  // members ::= member '}' | member ',' members
  function RenderMembers(ms: seq<Member>): (r: seq<byte>)
    requires |ms| >= 1
  {
    if |ms| == 1 then Render(ms[0]) + [0x7D]
    else Render(ms[0]) + ([0x2C] + RenderMembers(ms[1..]))
  }

  /** The text t stands at index i. */
  ghost predicate At(s: seq<byte>, i: nat, t: seq<byte>) {
    i + |t| <= |s| && s[i..i + |t|] == t
  }

  lemma AtConcat(s: seq<byte>, i: nat, a: seq<byte>, b: seq<byte>)
    ensures At(s, i, a + b) <==> At(s, i, a) && At(s, i + |a|, b)
  {
    if At(s, i, a + b) {
      assert s[i..i + |a + b|][..|a|] == s[i..i + |a|];
      assert s[i..i + |a + b|][|a|..] == s[i + |a|..i + |a + b|];
    }
    if At(s, i, a) && At(s, i + |a|, b) {
      assert s[i..i + |a + b|] == a + b;
    }
  }

  lemma AtByte(s: seq<byte>, i: nat, b: byte)
    ensures At(s, i, [b]) <==> i < |s| && s[i] == b
  {}

  lemma AtEmpty(s: seq<byte>, i: nat)
    ensures At(s, i, []) <==> i <= |s|
  {}

  lemma AtSlice(s: seq<byte>, i: nat, j: nat)
    requires i <= j <= |s|
    ensures At(s, i, s[i..j])
  {}

  // ---- tokens, both ways ----

  lemma WsAt(s: seq<byte>, i: nat, w: seq<byte>)
    requires At(s, i, w) && White(w) && i + |w| < |s| && !IsWs(s[i + |w|])
    ensures SkipWs(s, i) == i + |w|
  {
    forall k | i <= k < i + |w| ensures IsWs(s[k]) {
      assert s[k] == s[i..i + |w|][k - i];
    }
    SkipWsTo(s, i, i + |w|);
  }

  lemma SkipWsTo(s: seq<byte>, i: nat, j: nat)
    requires i <= j < |s| && !IsWs(s[j]) && forall k :: i <= k < j ==> IsWs(s[k])
    ensures SkipWs(s, i) == j
  {}

  lemma QuotedAt(s: seq<byte>, i: nat, t: seq<byte>)
    requires i <= |s|
    ensures Quoted(s, i) == Ok(t, i + |t| + 1) <==> At(s, i, t + [QUOTE]) && StringToken(t)
  {
    AtConcat(s, i, t, [QUOTE]);
    AtByte(s, i + |t|, QUOTE);
    if At(s, i, t) && StringToken(t) && At(s, i + |t|, [QUOTE]) {
      forall k | i <= k < i + |t| ensures s[k] != QUOTE {
        assert s[k] == s[i..i + |t|][k - i];
      }
      assert Find(s, i, QUOTE) == i + |t|;
    }
  }

  lemma NumberAt(s: seq<byte>, i: nat, t: seq<byte>)
    requires At(s, i, t) && NumberToken(t)
    requires i + |t| < |s| && EndsNumber(s[i + |t|])
    ensures Number(s, i) == Ok(t, i + |t|)
  {
    forall k | i + 1 <= k < i + |t| ensures IsDigit(s[k]) {
      assert s[k] == s[i..i + |t|][k - i];
    }
    assert SkipDigits(s, i + 1) == i + |t|;
  }

  lemma NumberSound(s: seq<byte>, i: nat)
    requires i < |s| && NumberStart(s[i]) && Number(s, i).Ok?
    ensures var Ok(t, next) := Number(s, i);
      At(s, i, t) && next == i + |t| && NumberToken(t)
  {}

  // ---- completeness ----

  // Where the pieces of a rendered member stand.
  lemma RenderAt(s: seq<byte>, i: nat, m: Member)
    ensures At(s, i, Render(m)) <==>
      var k := i + |m.w1| + 1;
      var c := k + |m.key| + 1 + |m.w2|;
      var v := c + 1 + |m.w3|;
      && At(s, i, m.w1) && At(s, k - 1, [QUOTE]) && At(s, k, m.key + [QUOTE])
      && At(s, c - |m.w2|, m.w2) && At(s, c, [COLON]) && At(s, c + 1, m.w3)
      && At(s, v, RenderValue(m)) && At(s, v + |RenderValue(m)|, m.w4)
    ensures |Render(m)| == |m.w1| + |m.key| + |m.w2| + |m.w3| + |RenderValue(m)| + |m.w4| + 3
  {
    hide At, RenderValue;
    var t6 := RenderValue(m) + m.w4;
    var t5 := m.w3 + t6;
    var t4 := [COLON] + t5;
    var t3 := m.w2 + t4;
    var t2 := (m.key + [QUOTE]) + t3;
    var t1 := [QUOTE] + t2;
    var k := i + |m.w1| + 1;
    var c := k + |m.key| + 1 + |m.w2|;
    AtConcat(s, i, m.w1, t1);
    AtConcat(s, k - 1, [QUOTE], t2);
    AtConcat(s, k, m.key + [QUOTE], t3);
    AtConcat(s, c - |m.w2|, m.w2, t4);
    AtConcat(s, c, [COLON], t5);
    AtConcat(s, c + 1, m.w3, t6);
    AtConcat(s, c + 1 + |m.w3|, RenderValue(m), m.w4);
  }

  // The byte after a member ends it: it is not white space.
  predicate EndsMember(b: byte) { b == COMMA || b == RBRACE }

  lemma NumberComplete(s: seq<byte>, v: nat, m: Member)
    requires WellFormed(m) && m.numeric && At(s, v, m.text)
    requires v + |m.text| < |s| && EndsNumber(s[v + |m.text|])
    ensures NumberStart(s[v]) && Number(s, v) == Ok(m.text, v + |m.text|)
  {
    hide Number, White, StringToken;
    NumberAt(s, v, m.text);
    assert s[v] == s[v..v + |m.text|][0];
  }

  lemma StringComplete(s: seq<byte>, v: nat, m: Member)
    requires WellFormed(m) && !m.numeric && At(s, v, RenderValue(m))
    ensures v < |s| && s[v] == QUOTE && Quoted(s, v + 1) == Ok(m.text, v + |RenderValue(m)|)
  {
    hide Quoted, At, White, NumberToken;
    AtConcat(s, v, [QUOTE], m.text + [QUOTE]);
    AtByte(s, v, QUOTE);
    QuotedAt(s, v + 1, m.text);
  }

  lemma ValueComplete(s: seq<byte>, i: nat, m: Member)
    requires WellFormed(m) && At(s, i, m.w3) && At(s, i + |m.w3|, RenderValue(m))
    requires var e := i + |m.w3| + |RenderValue(m)|; e < |s| && EndsNumber(s[e])
    ensures ParseValue(s, i, m.key) == Ok(PairOf(m), i + |m.w3| + |RenderValue(m)|)
  {
    hide Quoted, Number, At, SkipWs, White, StringToken, NumberToken;
    var v := i + |m.w3|;
    if m.numeric { NumberComplete(s, v, m); } else { StringComplete(s, v, m); }
    WsAt(s, i, m.w3);
  }

  lemma PairComplete(s: seq<byte>, i: nat, m: Member)
    requires WellFormed(m) && At(s, i, Render(m))
    requires i + |Render(m)| < |s| && EndsMember(s[i + |Render(m)|])
    ensures var k := i + |m.w1|;
      && k < |s| && SkipWs(s, i) == k && s[k] == QUOTE
      && ParsePair(s, Quoted(s, k + 1)) == Ok(PairOf(m), i + |Render(m)| - |m.w4|)
    ensures SkipWs(s, i + |Render(m)| - |m.w4|) == i + |Render(m)|
  {
    hide Render, RenderValue, Quoted, ParseValue, At, SkipWs, White, StringToken, NumberToken;
    RenderAt(s, i, m);
    var k := i + |m.w1|;
    AtByte(s, k, QUOTE);
    WsAt(s, i, m.w1);
    QuotedAt(s, k + 1, m.key);
    var c := k + 1 + |m.key| + 1 + |m.w2|;
    AtByte(s, c, COLON);
    WsAt(s, c - |m.w2|, m.w2);
    var e := i + |Render(m)| - |m.w4|;
    WsAt(s, e, m.w4);
    EndAfter(s, e, m.w4);
    ValueComplete(s, c + 1, m);
  }

  // A number is ended by the white space after it or by what ends the member.
  lemma EndAfter(s: seq<byte>, e: nat, w: seq<byte>)
    requires At(s, e, w) && White(w) && e + |w| < |s| && EndsMember(s[e + |w|])
    ensures EndsNumber(s[e])
  {
    if w != [] { assert s[e] == s[e..e + |w|][0]; }
  }

  lemma FirstMember(s: seq<byte>, i: nat, n: nat, m: Member)
    requires WellFormed(m) && At(s, i, Render(m)) && n < MAX_KV
    requires i + |Render(m)| < |s| && EndsMember(s[i + |Render(m)|])
    ensures ParseMembers(s, i, n) == ParseAfter(s, i + |Render(m)| - |m.w4|, PairOf(m), n)
    ensures SkipWs(s, i + |Render(m)| - |m.w4|) == i + |Render(m)|
  {
    hide Render, ParsePair, Quoted, At, WellFormed, PairOf, SkipWs, ParseAfter;
    PairComplete(s, i, m);
  }

  /** Every derivation of the grammar, wherever it stands in the stream, is
      parsed to its pairs. */
  lemma {:induction false} MembersComplete(s: seq<byte>, i: nat, n: nat, ms: seq<Member>)
    requires 1 <= |ms| && n + |ms| <= MAX_KV
    requires forall k :: 0 <= k < |ms| ==> WellFormed(ms[k])
    requires At(s, i, RenderMembers(ms))
    ensures ParseMembers(s, i, n) == Ok(PairsOf(ms), i + |RenderMembers(ms)|)
    decreases |ms|
  {
    hide Render, At, WellFormed, PairOf, SkipWs, ParseMembers;
    var m, e := ms[0], i + |Render(ms[0])|;
    assert PairsOf(ms) == [PairOf(m)] + PairsOf(ms[1..]);
    if |ms| == 1 {
      AtConcat(s, i, Render(m), [RBRACE]);
      AtByte(s, e, RBRACE);
      FirstMember(s, i, n, m);
      assert PairsOf(ms) == [PairOf(m)];
    } else {
      var rest := RenderMembers(ms[1..]);
      AtConcat(s, i, Render(m), [COMMA] + rest);
      AtConcat(s, e, [COMMA], rest);
      AtByte(s, e, COMMA);
      FirstMember(s, i, n, m);
      MembersComplete(s, e + 1, n + 1, ms[1..]);
    }
  }

  predicate Derivation(ms: seq<Member>) {
    1 <= |ms| <= 8 && forall k :: 0 <= k < |ms| ==> WellFormed(ms[k])
  }

  /** An object behind anything that holds no '{'. */
  function Message(before: seq<byte>, ms: seq<Member>): (r: seq<byte>)
    requires |ms| >= 1
  {
    before + ([0x7B] + RenderMembers(ms))
  }

  lemma FindBrace(s: seq<byte>, i: nat, before: seq<byte>)
    requires IndexOf(before, LBRACE) == |before| && At(s, i, before)
    requires i + |before| < |s| && s[i + |before|] == LBRACE
    ensures Find(s, i, LBRACE) == i + |before|
  {
    forall k | i <= k < i + |before| ensures s[k] != LBRACE {
      assert s[k] == s[i..i + |before|][k - i];
    }
  }

  /** Such a message, wherever it stands, is one document. */
  lemma DocumentComplete(s: seq<byte>, i: nat, before: seq<byte>, ms: seq<Member>)
    requires i <= |s| && IndexOf(before, LBRACE) == |before|
    requires Derivation(ms) && At(s, i, Message(before, ms))
    ensures Document(s, i) == Ok(PairsOf(ms), i + |Message(before, ms)|)
  {
    hide RenderMembers, ParseMembers, WellFormed, At, Find, IndexOf, PairsOf;
    var j := i + |before|;
    AtConcat(s, i, before, [LBRACE] + RenderMembers(ms));
    AtConcat(s, j, [LBRACE], RenderMembers(ms));
    AtByte(s, j, LBRACE);
    FindBrace(s, i, before);
    MembersComplete(s, j + 1, 0, ms);
  }

  // ---- soundness ----

  lemma ValueSound(s: seq<byte>, i: nat, key: seq<byte>) returns (w: seq<byte>)
    requires i <= |s| && ParseValue(s, i, key).Ok?
    ensures var Ok(p, next) := ParseValue(s, i, key);
      var m := Member([], key, [], w, p.text, p.numeric, []);
      && p.key == key && White(w)
      && (if p.numeric then NumberToken(p.text) else StringToken(p.text))
      && At(s, i, w) && At(s, i + |w|, RenderValue(m)) && next == i + |w| + |RenderValue(m)|
  {
    hide Quoted, Number, White, SkipWs, StringToken, NumberToken, At;
    w := WsBefore(s, i);
    var v := i + |w|;
    var Ok(p, next) := ParseValue(s, i, key);
    if s[v] == QUOTE {
      QuotedAt(s, v + 1, p.text);
      QuotedShape(s, v + 1);
      AtByte(s, v, QUOTE);
      AtConcat(s, v, [QUOTE], p.text + [QUOTE]);
    } else {
      NumberSound(s, v);
    }
  }

  lemma QuotedShape(s: seq<byte>, i: nat)
    requires i <= |s| && Quoted(s, i).Ok?
    ensures Quoted(s, i).next == i + |Quoted(s, i).value| + 1
  {}

  // The white space that a skip passes over.
  lemma WsBefore(s: seq<byte>, i: nat) returns (w: seq<byte>)
    requires i <= |s|
    ensures White(w) && At(s, i, w) && SkipWs(s, i) == i + |w|
  {
    w := s[i..SkipWs(s, i)];
    AtSlice(s, i, SkipWs(s, i));
  }

  lemma PairSound(s: seq<byte>, i: nat) returns (m: Member)
    requires i < |s| && s[i] == QUOTE && ParsePair(s, Quoted(s, i + 1)).Ok?
    ensures WellFormed(m) && m.w1 == [] && m.w4 == [] && At(s, i, Render(m))
    ensures ParsePair(s, Quoted(s, i + 1)) == Ok(PairOf(m), i + |Render(m)|)
  {
    hide Quoted, ParseValue, Render, RenderValue, StringToken, NumberToken, White, SkipWs, Find, At;
    var Ok(key, k) := Quoted(s, i + 1);
    QuotedShape(s, i + 1);
    QuotedAt(s, i + 1, key);
    var w2 := WsBefore(s, k);
    var c := k + |w2|;
    var w3 := ValueSound(s, c + 1, key);
    var p := ParseValue(s, c + 1, key).value;
    m := Member([], key, w2, w3, p.text, p.numeric, []);
    AtByte(s, i, QUOTE);
    AtByte(s, c, COLON);
    SameValue(m, Member([], key, [], w3, p.text, p.numeric, []));
    AtEmpty(s, i);
    AtEmpty(s, c + 1 + |w3| + |RenderValue(m)|);
    NothingWhite([]);
    RenderAt(s, i, m);
  }

  lemma NothingWhite(w: seq<byte>)
    requires w == []
    ensures White(w)
  {}

  lemma SameValue(m: Member, q: Member)
    requires m.text == q.text && m.numeric == q.numeric
    ensures RenderValue(m) == RenderValue(q)
  {}

  // Adding the outer white space to a member found without it.
  lemma Surround(s: seq<byte>, i: nat, m: Member, w1: seq<byte>, w4: seq<byte>)
    requires m.w1 == [] && m.w4 == [] && At(s, i, w1) && At(s, i + |w1|, Render(m))
    requires At(s, i + |w1| + |Render(m)|, w4)
    ensures At(s, i, Render(m.(w1 := w1, w4 := w4)))
    ensures |Render(m.(w1 := w1, w4 := w4))| == |w1| + |Render(m)| + |w4|
  {
    hide At, Render, RenderValue;
    var r := m.(w1 := w1, w4 := w4);
    SameValue(m, r);
    RenderAt(s, i + |w1|, m);
    RenderAt(s, i, r);
  }

  lemma MemberSound(s: seq<byte>, i: nat) returns (m: Member, p: Pair, next: nat)
    requires i <= |s| && SkipWs(s, i) < |s| && s[SkipWs(s, i)] == QUOTE
    requires ParsePair(s, Quoted(s, SkipWs(s, i) + 1)).Ok?
    ensures ParsePair(s, Quoted(s, SkipWs(s, i) + 1)) == Ok(p, next) && next <= |s|
    ensures WellFormed(m) && PairOf(m) == p && At(s, i, Render(m)) && i + |Render(m)| == SkipWs(s, next)
  {
    hide Quoted, ParsePair, Render, At;
    var j := SkipWs(s, i);
    QuotedRange(s, j + 1);
    var inner := PairSound(s, j);
    p, next := PairOf(inner), j + |Render(inner)|;
    var e := SkipWs(s, next);
    AtSlice(s, i, j);
    AtSlice(s, next, e);
    Surround(s, i, inner, s[i..j], s[next..e]);
    m := inner.(w1 := s[i..j], w4 := s[next..e]);
  }

  /** Whatever is delivered was written as the grammar prescribes. */
  lemma {:induction false} MembersSound(s: seq<byte>, i: nat, n: nat) returns (ms: seq<Member>)
    requires i <= |s| && ParseMembers(s, i, n).Ok?
    ensures 1 <= |ms| && n + |ms| <= MAX_KV
    ensures forall k :: 0 <= k < |ms| ==> WellFormed(ms[k])
    ensures At(s, i, RenderMembers(ms))
    ensures ParseMembers(s, i, n) == Ok(PairsOf(ms), i + |RenderMembers(ms)|)
    decreases |s| - i
  {
    hide Quoted, ParsePair, Render, At, WellFormed, PairOf;
    var m, p, next := MemberSound(s, i);
    assert ParseMembers(s, i, n) == ParseAfter(s, next, p, n);
    var e := SkipWs(s, next);
    if s[e] == COMMA {
      var rest := MembersSound(s, e + 1, n + 1);
      ms := [m] + rest;
      assert ms[1..] == rest;
      AtByte(s, e, COMMA);
      AtConcat(s, e, [COMMA], RenderMembers(rest));
      AtConcat(s, i, Render(m), [COMMA] + RenderMembers(rest));
    } else {
      ms := [m];
      assert PairsOf(ms) == [PairOf(m)];
      AtByte(s, e, RBRACE);
      AtConcat(s, i, Render(m), [RBRACE]);
    }
  }

  // What a search has passed over does not hold the byte.
  lemma NoneBefore(s: seq<byte>, i: nat, b: byte)
    requires i <= |s|
    ensures IndexOf(s[i..Find(s, i, b)], b) == Find(s, i, b) - i
  {
    var w := s[i..Find(s, i, b)];
    assert forall k :: 0 <= k < |w| ==> w[k] == s[i + k] != b;
  }

  /** Every document that is accepted is such a message. */
  lemma DocumentSound(s: seq<byte>, i: nat) returns (before: seq<byte>, ms: seq<Member>)
    requires i <= |s| && Document(s, i).Ok?
    ensures IndexOf(before, LBRACE) == |before| && Derivation(ms)
    ensures At(s, i, Message(before, ms))
    ensures Document(s, i) == Ok(PairsOf(ms), i + |Message(before, ms)|)
  {
    hide RenderMembers, ParseMembers, WellFormed, At, Find, IndexOf, PairsOf;
    var j := Find(s, i, LBRACE);
    before := s[i..j];
    NoneBefore(s, i, LBRACE);
    AtSlice(s, i, j);
    ms := MembersSound(s, j + 1, 0);
    AtByte(s, j, LBRACE);
    AtConcat(s, j, [LBRACE], RenderMembers(ms));
    AtConcat(s, i, before, [LBRACE] + RenderMembers(ms));
  }

  // What document i comes to, as its first outcome.
  lemma FirstOutcome(s: seq<byte>, i: nat)
    requires i <= |s| && Outcomes(s, i) != []
    ensures var o := Outcomes(s, i)[0];
      && i <= o.at < |s| && Outcomes(s, i)[1..] == Outcomes(s, o.at + 1)
      && (o.Fired? ==> Document(s, i) == Ok(o.pairs, o.at + 1) && o.msg == Capture(s[i..o.at + 1]))
  {
    hide Document, Capture;
    DocumentRange(s, i);
  }

  lemma MessageFrom(s: seq<byte>, i: nat, next: nat) returns (before: seq<byte>, ms: seq<Member>)
    requires i <= |s| && Document(s, i).Ok? && Document(s, i).next == next
    ensures IndexOf(before, LBRACE) == |before| && Derivation(ms)
    ensures i <= next <= |s| && s[i..next] == Message(before, ms) && Document(s, i) == Ok(PairsOf(ms), next)
  {
    hide Document, Message, WellFormed, PairsOf, IndexOf;
    before, ms := DocumentSound(s, i);
  }

  /** Every callback is for an object that was written as the grammar
      prescribes, ends at the reported byte and starts, with the noise before
      it, right after the previous outcome. The captured text is the first 255
      bytes of that. */
  lemma {:induction false} FiredSound(s: seq<byte>, i: nat, k: nat) returns (before: seq<byte>, ms: seq<Member>)
    requires i <= |s| && k < |Outcomes(s, i)| && Outcomes(s, i)[k].Fired?
    ensures IndexOf(before, LBRACE) == |before| && Derivation(ms)
    ensures var o := Outcomes(s, i)[k];
      var from := if k == 0 then i else Outcomes(s, i)[k - 1].at + 1;
      && from <= o.at < |s| && s[from..o.at + 1] == Message(before, ms) && o.pairs == PairsOf(ms)
      && o.msg <= s[from..o.at + 1] && |o.msg| == Min(o.at + 1 - from, 255)
    decreases |s| - i
  {
    hide Document, Message, Derivation, PairsOf, IndexOf, Outcomes, Capture;
    FirstOutcome(s, i);
    var next := Outcomes(s, i)[0].at + 1;
    if k > 0 {
      assert Outcomes(s, i)[k] == Outcomes(s, next)[k - 1];
      if k > 1 { assert Outcomes(s, i)[k - 1] == Outcomes(s, next)[k - 2]; }
      before, ms := FiredSound(s, next, k - 1);
    } else {
      before, ms := MessageFrom(s, i, next);
    }
  }
}
