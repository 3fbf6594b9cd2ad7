/** Laws of the line-by-line meaning of an NMEA stream. */
module NmeaLaws {
  import opened Machine
  import opened Text
  import opened TimeShift
  import opened NmeaSpec

  predicate NoEol(s: seq<byte>) {
    forall i :: 0 <= i < |s| ==> !IsEol(s[i])
  }

  // ---- one byte at a time ----

  lemma FirstAt(s: seq<byte>, i: nat, b: byte)
    requires i <= |s| && (i < |s| ==> s[i] == b)
    requires forall j :: 0 <= j < i ==> s[j] != b
    ensures IndexOf(s, b) == i
  {}

  lemma IndexOfSnoc(s: seq<byte>, c: byte, b: byte)
    ensures IndexOf(s + [c], b) ==
            if IndexOf(s, b) < |s| then IndexOf(s, b) else if c == b then |s| else |s| + 1
  {
    var i, j := IndexOf(s, b), IndexOf(s + [c], b);
    if i < |s| {
      assert (s + [c])[i] == b;
    } else if c == b {
      assert (s + [c])[|s|] == b;
    }
    if j < |s| { assert s[j] == b; }
  }

  function Longer(f: Framing, b: byte): Framing {
    match f
    case NoDollar => if b == DOLLAR then InBody([]) else NoDollar
    case InBody(body) => if b == STAR then InSum(body, []) else InBody(body + [b])
    case InSum(body, sum) => InSum(body, sum + [b])
  }

  /** How one more byte moves a line along. */
  lemma FramingStep(line: seq<byte>, b: byte)
    ensures FramingOf(line + [b]) == Longer(FramingOf(line), b)
  {
    hide IndexOf;
    IndexOfSnoc(line, b, DOLLAR);
    var d := IndexOf(line, DOLLAR);
    if d < |line| {
      var rest := line[d + 1..];
      assert (line + [b])[d + 1..] == rest + [b];
      IndexOfSnoc(rest, b, STAR);
      var e := IndexOf(rest, STAR);
      if e < |rest| {
        assert (rest + [b])[..e] == rest[..e];
        assert (rest + [b])[e + 1..] == rest[e + 1..] + [b];
      } else {
        assert (rest + [b])[..e] == rest;
      }
    } else {
      assert (line + [b])[d + 1..] == [];
    }
  }

  lemma LinesSnoc(s: seq<byte>, b: byte)
    ensures Lines(s + [b]) == if IsEol(b) then Lines(s) + [Tail(s)] else Lines(s)
    ensures Tail(s + [b]) == if IsEol(b) then [] else Tail(s) + [b]
  {
    assert (s + [b])[..|s + [b]| - 1] == s;
  }

  lemma AllLineEventsSnoc<D>(ops: FloatOps<D>, ls: seq<seq<byte>>, l: seq<byte>)
    ensures AllLineEvents(ops, ls + [l]) == AllLineEvents(ops, ls) + LineEvents(ops, l)
  {
    assert (ls + [l])[..|ls + [l]| - 1] == ls;
  }

  lemma LatestSnoc<D>(ops: FloatOps<D>, log: seq<Event<D>>, e: Event<D>)
    ensures Latest(ops, log + [e]) == match e
      case Rmc(r) => Latest(ops, log).(rmc := r)
      case Gga(g) => Latest(ops, log).(gga := g)
      case Gsa(s) => Latest(ops, log).(gsa := s)
  {
    assert (log + [e])[..|log + [e]| - 1] == log;
  }

  lemma XorSnoc(s: seq<byte>, b: byte)
    ensures XorAll(s + [b]) == XorAll(s) ^ b
  {
    assert (s + [b])[..|s + [b]| - 1] == s;
  }

  /** How one more byte moves a stream along. */
  lemma StreamStep<D>(ops: FloatOps<D>, s: seq<byte>, b: byte)
    ensures FramingOf(Tail(s + [b])) == if IsEol(b) then NoDollar else Longer(FramingOf(Tail(s)), b)
    ensures Events(ops, s + [b])
            == if IsEol(b) then Events(ops, s) + LineEvents(ops, Tail(s)) else Events(ops, s)
  {
    LinesSnoc(s, b);
    if IsEol(b) {
      AllLineEventsSnoc(ops, Lines(s), Tail(s));
    } else {
      FramingStep(Tail(s), b);
    }
  }

  // ---- streams ----

  lemma {:induction false} LinesAppend(a: seq<byte>, b: seq<byte>)
    requires Tail(a) == []
    ensures Lines(a + b) == Lines(a) + Lines(b) && Tail(a + b) == Tail(b)
    decreases |b|
  {
    if b == [] {
      assert a + b == a;
    } else {
      var p, c := b[..|b| - 1], b[|b| - 1];
      LinesAppend(a, p);
      assert a + b == (a + p) + [c];
      assert b == p + [c];
      LinesSnoc(a + p, c);
      LinesSnoc(p, c);
    }
  }

  lemma {:induction false} AllLineEventsAppend<D>(ops: FloatOps<D>, a: seq<seq<byte>>, b: seq<seq<byte>>)
    ensures AllLineEvents(ops, a + b) == AllLineEvents(ops, a) + AllLineEvents(ops, b)
    decreases |b|
  {
    hide LineEvents;
    if b == [] {
      assert a + b == a;
    } else {
      var p, l := b[..|b| - 1], b[|b| - 1];
      assert a + b == (a + p) + [l];
      AllLineEventsAppend(ops, a, p);
      AllLineEventsSnoc(ops, a + p, l);
    }
  }

  /** A noisy line cannot poison the next one: after a line end, what follows
      means the same as it would on its own. */
  lemma EventsAppend<D>(ops: FloatOps<D>, a: seq<byte>, b: seq<byte>)
    requires Tail(a) == []
    ensures Events(ops, a + b) == Events(ops, a) + Events(ops, b)
    ensures Tail(a + b) == Tail(b)
  {
    LinesAppend(a, b);
    AllLineEventsAppend(ops, Lines(a), Lines(b));
  }

  lemma {:induction false} OneLine(line: seq<byte>)
    requires NoEol(line)
    ensures Lines(line) == [] && Tail(line) == line
    decreases |line|
  {
    if line != [] {
      var p := line[..|line| - 1];
      OneLine(p);
      assert line == p + [line[|line| - 1]];
    }
  }

  lemma LineThenEol<D>(ops: FloatOps<D>, line: seq<byte>, eol: byte)
    requires NoEol(line) && IsEol(eol)
    ensures Events(ops, line + [eol]) == LineEvents(ops, line)
    ensures Tail(line + [eol]) == []
  {
    OneLine(line);
    LinesSnoc(line, eol);
    AllLineEventsSnoc(ops, [], line);
    assert [] + [line] == [line];
    assert AllLineEvents(ops, []) == [];
  }

  /** A line in the middle of a stream contributes exactly its own events. */
  lemma EventsAround<D>(ops: FloatOps<D>, before: seq<byte>, line: seq<byte>, eol: byte, after: seq<byte>)
    requires Tail(before) == [] && NoEol(line) && IsEol(eol)
    ensures Events(ops, before + line + [eol] + after)
            == Events(ops, before) + LineEvents(ops, line) + Events(ops, after)
  {
    var l := line + [eol];
    LineThenEol(ops, line, eol);
    EventsAppend(ops, before, l);
    assert before + l == before + line + [eol];
    EventsAppend(ops, before + l, after);
  }

  // ---- error detection ----

  lemma XorCancel(x: byte, y: byte, z: byte)
    ensures x ^ y == x ^ z ==> y == z
    ensures y ^ x == z ^ x ==> y == z
  {
    assert x ^ (x ^ y) == y;
    assert x ^ (x ^ z) == z;
    assert x ^ y == y ^ x && x ^ z == z ^ x;
  }

  lemma {:induction false} XorDetects(s: seq<byte>, i: nat, b: byte)
    requires i < |s| && s[i] != b
    ensures XorAll(s[i := b]) != XorAll(s)
    decreases |s|
  {
    var p, c := s[..|s| - 1], s[|s| - 1];
    assert s == p + [c];
    XorSnoc(p, c);
    if i == |p| {
      assert s[i := b] == p + [b];
      XorSnoc(p, b);
      XorCancel(XorAll(p), b, c);
    } else {
      assert s[i := b] == p[i := b] + [c];
      XorSnoc(p[i := b], c);
      XorDetects(p, i, b);
      XorCancel(c, XorAll(p[i := b]), XorAll(p));
    }
  }

  // Where the body of a framed line starts.
  function BodyStart(line: seq<byte>): nat { IndexOf(line, DOLLAR) + 1 }

  // A line is "noise $ body * sum" with the '$' at d and the '*' at e.
  predicate FramedAt(line: seq<byte>, d: nat, e: nat) {
    && d < e < |line| && line[d] == DOLLAR && line[e] == STAR
    && (forall j :: 0 <= j < d ==> line[j] != DOLLAR)
    && (forall j :: d < j < e ==> line[j] != STAR)
  }

  lemma FramedAtParts(line: seq<byte>, d: nat, e: nat)
    requires FramedAt(line, d, e)
    ensures IndexOf(line, DOLLAR) == d
    ensures FramingOf(line) == InSum(line[d + 1..e], line[e + 1..])
  {
    hide IndexOf;
    FirstAt(line, d, DOLLAR);
    var rest := line[d + 1..];
    FirstAt(rest, e - d - 1, STAR);
    assert rest[..e - d - 1] == line[d + 1..e];
    assert rest[e - d..] == line[e + 1..];
  }

  lemma FramedPositions(line: seq<byte>) returns (d: nat, e: nat)
    requires FramingOf(line).InSum?
    ensures d == IndexOf(line, DOLLAR) && FramedAt(line, d, e)
  {
    d := IndexOf(line, DOLLAR);
    var rest := line[d + 1..];
    e := d + 1 + IndexOf(rest, STAR);
    forall j | d < j < e ensures line[j] != STAR {
      assert line[j] == rest[j - d - 1];
    }
  }

  lemma FramingReplace(line: seq<byte>, k: nat, x: byte)
    requires FramingOf(line).InSum? && k < |FramingOf(line).body| && x != STAR
    ensures BodyStart(line) + k < |line|
    ensures line[BodyStart(line) + k] == FramingOf(line).body[k]
    ensures FramingOf(line[BodyStart(line) + k := x])
            == InSum(FramingOf(line).body[k := x], FramingOf(line).sum)
  {
    hide IndexOf, FramingOf;
    var d, e := FramedPositions(line);
    FramedAtParts(line, d, e);
    var line' := line[d + 1 + k := x];
    FramedAtParts(line', d, e);
    assert line'[d + 1..e] == line[d + 1..e][k := x];
    assert line'[e + 1..] == line[e + 1..];
  }

  /** Any single wrong byte in the body of an accepted sentence is caught. */
  lemma CorruptionDetected<D>(ops: FloatOps<D>, line: seq<byte>, k: nat, x: byte)
    requires Sentence(line).Some? && k < |Sentence(line).value|
    requires x != Sentence(line).value[k] && x != STAR
    ensures BodyStart(line) + k < |line|
    ensures line[BodyStart(line) + k] == Sentence(line).value[k]
    ensures Sentence(line[BodyStart(line) + k := x]) == None
    ensures LineEvents(ops, line[BodyStart(line) + k := x]) == []
  {
    FramingReplace(line, k, x);
    var InSum(body, sum) := FramingOf(line);
    XorDetects(body, k, x);
  }

  /** In a stream, the corrupted line is as good as absent. */
  lemma CorruptionInStream<D>(ops: FloatOps<D>, before: seq<byte>, line: seq<byte>, k: nat, x: byte,
                              eol: byte, after: seq<byte>)
    requires Tail(before) == [] && NoEol(line) && IsEol(eol)
    requires Sentence(line).Some? && k < |Sentence(line).value|
    requires x != Sentence(line).value[k] && x != STAR && !IsEol(x)
    ensures BodyStart(line) + k < |line|
    ensures Events(ops, before + line[BodyStart(line) + k := x] + [eol] + after)
            == Events(ops, before + after)
  {
    hide Events, LineEvents, Tail, Sentence;
    CorruptionDetected(ops, line, k, x);
    var line' := line[BodyStart(line) + k := x];
    EventsAround(ops, before, line', eol, after);
    EventsAppend(ops, before, after);
  }

  // ---- fields ----

  predicate NoComma(f: seq<byte>) {
    forall i :: 0 <= i < |f| ==> f[i] != COMMA
  }

  function Join(fs: seq<seq<byte>>): seq<byte>
    requires |fs| >= 1
  {
    if |fs| == 1 then fs[0] else Join(fs[..|fs| - 1]) + [COMMA] + fs[|fs| - 1]
  }

  // One more byte that is no comma lengthens the last field.
  lemma FieldsSnoc(s: seq<byte>, c: byte)
    requires c != COMMA
    ensures var fs := Fields(s);
      Fields(s + [c]) == fs[..|fs| - 1] + [fs[|fs| - 1] + [c]]
  {
    assert (s + [c])[..|s|] == s;
  }

  // A comma closes it and opens an empty one.
  lemma FieldsComma(s: seq<byte>)
    ensures Fields(s + [COMMA]) == Fields(s) + [[]]
  {
    assert (s + [COMMA])[..|s|] == s;
  }

  lemma FieldsEmpty(s: seq<byte>)
    requires s == []
    ensures Fields(s) == [[]]
  {}

  lemma LastOf<T>(a: seq<T>, x: T)
    ensures (a + [x])[..|a|] == a && (a + [x])[|a|] == x
  {}

  lemma JoinOne(f: seq<byte>)
    ensures Join([f]) == f
  {}

  lemma JoinComma(fs: seq<seq<byte>>)
    requires |fs| >= 1
    ensures Join(fs + [[]]) == Join(fs) + [COMMA]
  {
    LastOf(fs, []);
  }

  lemma JoinSnoc(init: seq<seq<byte>>, f: seq<byte>, c: byte)
    ensures Join(init + [f + [c]]) == Join(init + [f]) + [c]
  {
    LastOf(init, f);
    LastOf(init, f + [c]);
    if init != [] {
      assert Join(init) + [COMMA] + (f + [c]) == Join(init) + [COMMA] + f + [c];
    }
  }

  /** Joining the fields of a line with commas rebuilds it. */
  lemma {:induction false} JoinFields(s: seq<byte>)
    ensures Join(Fields(s)) == s
    ensures forall k :: 0 <= k < |Fields(s)| ==> NoComma(Fields(s)[k])
    decreases |s|
  {
    hide Fields, Join;
    if s == [] {
      FieldsEmpty(s);
      JoinOne(s);
    } else {
      var p, c := s[..|s| - 1], s[|s| - 1];
      JoinFields(p);
      assert s == p + [c];
      var fs := Fields(p);
      if c == COMMA {
        FieldsComma(p);
        JoinComma(fs);
      } else {
        FieldsSnoc(p, c);
        assert fs == fs[..|fs| - 1] + [fs[|fs| - 1]];
        JoinSnoc(fs[..|fs| - 1], fs[|fs| - 1], c);
      }
    }
  }

  lemma Regroup(s: seq<byte>, f: seq<byte>)
    requires f != []
    ensures s + f == (s + f[..|f| - 1]) + [f[|f| - 1]]
  {}

  lemma {:induction false} FieldsExtend(s: seq<byte>, f: seq<byte>)
    requires NoComma(f)
    ensures var fs := Fields(s);
      Fields(s + f) == fs[..|fs| - 1] + [fs[|fs| - 1] + f]
    decreases |f|
  {
    hide Fields;
    var fs := Fields(s);
    if f == [] {
      assert s + f == s;
      assert fs[|fs| - 1] + f == fs[|fs| - 1];
    } else {
      var p, c := f[..|f| - 1], f[|f| - 1];
      FieldsExtend(s, p);
      Regroup(s, f);
      FieldsSnoc(s + p, c);
      LastOf(fs[..|fs| - 1], fs[|fs| - 1] + p);
      Regroup(fs[|fs| - 1], f);
    }
  }

  /** Splitting a joined list of comma-free fields gives back the list. */
  lemma {:induction false} FieldsJoin(fs: seq<seq<byte>>)
    requires |fs| >= 1 && forall k :: 0 <= k < |fs| ==> NoComma(fs[k])
    ensures Fields(Join(fs)) == fs
    decreases |fs|
  {
    hide Fields, NoComma;
    var l := fs[|fs| - 1];
    if |fs| == 1 {
      var s: seq<byte> := [];
      FieldsEmpty(s);
      FieldsExtend(s, l);
      assert s + l == l;
    } else {
      var p := fs[..|fs| - 1];
      FieldsJoin(p);
      FieldsComma(Join(p));
      FieldsExtend(Join(p) + [COMMA], l);
      LastOf(p, []);
      assert [] + l == l;
      assert fs == p + [l];
    }
  }

  // What a scan knows about fields that are already closed by a comma.
  lemma {:induction false} FieldsPrefix(s: seq<byte>, i: nat)
    requires i <= |s|
    ensures |Fields(s[..i])| <= |Fields(s)|
    ensures forall k :: 0 <= k < |Fields(s[..i])| - 1 ==> Fields(s)[k] == Fields(s[..i])[k]
    ensures i < |s| && s[i] == COMMA ==>
              |Fields(s[..i])| < |Fields(s)|
              && Fields(s)[|Fields(s[..i])| - 1] == Fields(s[..i])[|Fields(s[..i])| - 1]
    decreases |s| - i
  {
    if i < |s| {
      FieldsPrefix(s, i + 1);
      assert s[..i + 1][..i] == s[..i];
    } else {
      assert s[..i] == s;
    }
  }

  /** A scan for commas that has read i bytes: it is in field k, which started
      at `start`. */
  ghost predicate Scanned(s: seq<byte>, i: nat, start: nat, k: nat) {
    start <= i <= |s| && |Fields(s[..i])| == k + 1 && Fields(s[..i])[k] == s[start..i]
  }

  lemma ScanStep(s: seq<byte>, i: nat, start: nat, k: nat)
    requires Scanned(s, i, start, k) && i < |s|
    ensures if s[i] == COMMA then Scanned(s, i + 1, i + 1, k + 1) else Scanned(s, i + 1, start, k)
  {
    assert s[..i + 1][..i] == s[..i];
    assert s[start..i + 1] == s[start..i] + [s[i]];
  }

  // Field k is complete when its comma, or the end, is reached.
  lemma ScanField(s: seq<byte>, i: nat, start: nat, k: nat)
    requires Scanned(s, i, start, k) && (i < |s| ==> s[i] == COMMA)
    ensures k < |Fields(s)| && Fields(s)[k] == s[start..i]
    ensures i == |s| ==> |Fields(s)| == k + 1
  {
    hide Fields;
    FieldsPrefix(s, i);
    assert s[..|s|] == s;
  }

  // ---- printing ----

  function HexDigit(n: byte): byte {
    if n < 10 then 0x30 + n else 0x41 + (n - 10)
  }

  function PrintSum(x: byte): seq<byte> { [HexDigit(x >> 4), HexDigit(x & 0xF)] }

  function PrintFrame(body: seq<byte>, sum: seq<byte>): seq<byte> {
    [DOLLAR] + body + [STAR] + sum
  }

  /** A sentence as a receiver prints it, with its checksum in upper-case hex. */
  function PrintSentence(body: seq<byte>): seq<byte> {
    PrintFrame(body, PrintSum(XorAll(body))) + [CR, LF]
  }

  lemma SumRoundTrip(body: seq<byte>)
    ensures var sum := PrintSum(XorAll(body));
      |sum| == 2 && NoEol(sum) && SumMatches(body, sum[0], sum[1])
  {
    var x := XorAll(body);
    assert ((x >> 4) << 4) | (x & 0xF) == x;
  }

  lemma NoEolAppend(a: seq<byte>, b: seq<byte>)
    requires NoEol(a) && NoEol(b)
    ensures NoEol(a + b)
  {}

  lemma PrintedFraming(noise: seq<byte>, body: seq<byte>, sum: seq<byte>)
    requires IndexOf(noise, DOLLAR) == |noise| && IndexOf(body, STAR) == |body|
    ensures FramingOf(noise + PrintFrame(body, sum)) == InSum(body, sum)
  {
    hide FramingOf, IndexOf;
    var line := noise + PrintFrame(body, sum);
    var d, e := |noise|, |noise| + 1 + |body|;
    FramedAtParts(line, d, e);
    assert line[d + 1..e] == body;
    assert line[e + 1..] == sum;
  }

  lemma PrintedLine(noise: seq<byte>, body: seq<byte>) returns (line: seq<byte>)
    requires IndexOf(noise, DOLLAR) == |noise| && NoEol(noise)
    requires |body| <= LINE_MAX && IndexOf(body, STAR) == |body| && NoEol(body)
    ensures NoEol(line) && Sentence(line) == Some(body)
    ensures noise + PrintSentence(body) == line + [CR, LF]
  {
    var sum := PrintSum(XorAll(body));
    SumRoundTrip(body);
    PrintedFraming(noise, body, sum);
    var frame := PrintFrame(body, sum);
    line := noise + frame;
    assert noise + (frame + [CR, LF]) == line + [CR, LF];
    NoEolAppend([DOLLAR], body);
    NoEolAppend([DOLLAR] + body, [STAR]);
    NoEolAppend([DOLLAR] + body + [STAR], sum);
    NoEolAppend(noise, frame);
  }

  lemma EmptyLine<D>(ops: FloatOps<D>)
    ensures Events(ops, [LF]) == []
  {
    LineThenEol(ops, [], LF);
    assert [] + [LF] == [LF];
  }

  /** A printed sentence is delivered once, whatever came before it on earlier
      lines and whatever junk without a '$' precedes it on its own. */
  lemma PrintedDelivered<D>(ops: FloatOps<D>, before: seq<byte>, noise: seq<byte>, body: seq<byte>)
    requires Tail(before) == []
    requires IndexOf(noise, DOLLAR) == |noise| && NoEol(noise)
    requires |body| <= LINE_MAX && IndexOf(body, STAR) == |body| && NoEol(body)
    ensures Events(ops, before + noise + PrintSentence(body)) == Events(ops, before) + BodyEvents(ops, body)
  {
    hide Events, Tail, BodyEvents, PrintSentence, Sentence;
    var line := PrintedLine(noise, body);
    var b := before;
    assert b + line + [CR] + [LF] == b + (line + [CR, LF]);
    assert b + noise + PrintSentence(body) == b + (noise + PrintSentence(body));
    EventsAround(ops, b, line, CR, [LF]);
    EmptyLine(ops);
  }
}
