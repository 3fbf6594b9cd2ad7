/** From a list of keys and values to JSON text, through the parser, and back
    through the lookup helpers. */
module UjsonRoundTrip {
  import opened Machine
  import opened Text
  import opened UjsonSpec
  import opened UjsonMachine
  import opened UjsonGrammar
  import opened UjsonLookup

  datatype JValue = JString(s: seq<byte>) | JInt(n: int32)
  datatype Entry = Entry(key: seq<byte>, val: JValue)

  // Text that a quoted token can carry and a C string can return.
  predicate Plain(t: seq<byte>) {
    |t| <= 63 && forall k :: 0 <= k < |t| ==> t[k] != 0x22 && t[k] != 0
  }

  function ValueText(v: JValue): seq<byte> {
    match v
    case JString(s) => s
    case JInt(n) => PrintInt(n)
  }

  /** m is a way to write e, with any white space. */
  predicate Writes(m: Member, e: Entry) {
    && White(m.w1) && White(m.w2) && White(m.w3) && White(m.w4)
    && Plain(e.key) && m.key == e.key
    && (e.val.JString? ==> Plain(e.val.s))
    && m.numeric == e.val.JInt? && m.text == ValueText(e.val)
  }

  predicate WritesAll(ms: seq<Member>, es: seq<Entry>) {
    |ms| == |es| && forall k :: 0 <= k < |ms| ==> Writes(ms[k], es[k])
  }

  /** The value of the first entry with this key. */
  function Lookup(es: seq<Entry>, name: seq<byte>): Option<JValue> {
    if es == [] then None
    else if es[0].key == name then Some(es[0].val)
    else Lookup(es[1..], name)
  }

  // ---- printed integers fit a slot ----

  function Pow10(d: nat): nat { if d == 0 then 1 else 10 * Pow10(d - 1) }

  lemma {:induction false} PrintNatLength(n: nat, d: nat)
    requires d >= 1 && n < Pow10(d)
    ensures |PrintNat(n)| <= d
    decreases d
  {
    if n >= 10 {
      if d == 1 {
        assert false;
      }
      PrintNatLength(n / 10, d - 1);
    }
  }

  lemma TenDigits(d: nat)
    requires d == 10
    ensures Pow10(d) == 10000000000
  {
    assert Pow10(d - 9) == 10;
    assert Pow10(d - 8) == 100;
    assert Pow10(d - 6) == 10000;
    assert Pow10(d - 4) == 1000000;
    assert Pow10(d - 2) == 100000000;
  }

  lemma PrintIntToken(n: int32)
    ensures NumberPrefix(PrintInt(n)) && FitsSlot(PrintInt(n))
    ensures CStr(PrintInt(n)) == PrintInt(n)
  {
    TenDigits(10);
    var k: int := n;
    PrintNatLength(if k < 0 then -k else k, 10);
    NumberNoNul(PrintInt(n));
  }

  lemma ReadPrinted(longMax: int, n: int32)
    requires IsLongMax(longMax)
    ensures ReadInt32(longMax, PrintInt(n)) == n
  {
    DecimalPrint(n);
  }

  // The conversion to int32 is the value of the same low 32 bits.
  lemma LowBits(x: int)
    ensures (Machine.I32(x) - x) % 0x1_0000_0000 == 0
  {
    var q := x / 0x1_0000_0000;
    assert x == 0x1_0000_0000 * q + U32(x);
    assert (Machine.I32(x) - x) == 0x1_0000_0000 * (-q) || (Machine.I32(x) - x) == 0x1_0000_0000 * (-q - 1);
  }

  /** Beyond the range of long, strtol saturates; the conversion to int32_t then
      keeps the low 32 bits. */
  lemma ReadAny(longMax: int, n: int)
    requires IsLongMax(longMax)
    ensures var r: int := ReadInt32(longMax, PrintInt(n));
      && (-longMax - 1 <= n <= longMax ==> (r - n) % 0x1_0000_0000 == 0)
      && (n > longMax ==> r == if longMax == 0x7FFF_FFFF then 0x7FFF_FFFF else -1)
      && (n < -longMax - 1 ==> r == if longMax == 0x7FFF_FFFF then -0x8000_0000 else 0)
  {
    hide PrintInt, Decimal, Machine.I32;
    DecimalPrint(n);
    LowBits(n);
    LowBits(0x7FFF_FFFF_FFFF_FFFF);
    LowBits(-0x8000_0000_0000_0000);
    LowBits(0x7FFF_FFFF);
    LowBits(-0x8000_0000);
  }

  lemma PlainCStr(t: seq<byte>)
    requires Plain(t)
    ensures CStr(t) == t && NoQuote(t) && FitsSlot(t)
  {}

  lemma WritesWellFormed(m: Member, e: Entry)
    requires Writes(m, e)
    ensures WellFormed(m) && CStr(m.key) == e.key && CStr(m.text) == ValueText(e.val)
  {
    PlainCStr(e.key);
    match e.val
    case JString(s) => PlainCStr(s);
    case JInt(n) => PrintIntToken(n);
  }

  // ---- parsing ----

  /** What was written for a list of entries derives from the grammar. */
  lemma WrittenDerivation(ms: seq<Member>, es: seq<Entry>)
    requires 1 <= |ms| <= 8 && WritesAll(ms, es)
    ensures Derivation(ms)
  {
    hide WellFormed, Writes;
    forall k | 0 <= k < |ms| ensures WellFormed(ms[k]) {
      WritesWellFormed(ms[k], es[k]);
    }
  }

  /** An object behind anything without '{'. */
  datatype Chunk = Chunk(before: seq<byte>, ms: seq<Member>)

  predicate ChunkOk(c: Chunk) {
    IndexOf(c.before, LBRACE) == |c.before| && Derivation(c.ms)
  }

  predicate ChunksOk(cs: seq<Chunk>) {
    forall k :: 0 <= k < |cs| ==> ChunkOk(cs[k])
  }

  function ChunkText(c: Chunk): (r: seq<byte>)
    requires ChunkOk(c)
    ensures |r| > 0
  {
    Message(c.before, c.ms)
  }

  function Stream(cs: seq<Chunk>): seq<byte>
    requires ChunksOk(cs)
  {
    if cs == [] then [] else ChunkText(cs[0]) + Stream(cs[1..])
  }

  // At most 255 bytes.
  function Start255(t: seq<byte>): seq<byte> { t[..Min(|t|, 255)] }

  /** One callback for each, at its last byte, with its pairs and the first 255
      bytes of its own text. */
  function Callbacks(cs: seq<Chunk>, i: nat): seq<Outcome>
    requires ChunksOk(cs)
  {
    if cs == [] then []
    else
      var next := i + |ChunkText(cs[0])|;
      [Fired(next - 1, PairsOf(cs[0].ms), Start255(ChunkText(cs[0])))] + Callbacks(cs[1..], next)
  }

  lemma ChunkParse(s: seq<byte>, i: nat, c: Chunk)
    requires ChunkOk(c) && At(s, i, ChunkText(c))
    ensures var next := i + |ChunkText(c)|;
      && next <= |s|
      && Outcomes(s, i) == [Fired(next - 1, PairsOf(c.ms), Start255(ChunkText(c)))] + Outcomes(s, next)
  {
    hide Document, Message, PairsOf, IndexOf, Capture, Derivation;
    DocumentComplete(s, i, c.before, c.ms);
    assert Capture(ChunkText(c)) == Start255(ChunkText(c));
  }

  /** Written objects one after another, with anything behind them. */
  lemma {:induction false} ChunksParse(s: seq<byte>, i: nat, cs: seq<Chunk>)
    requires ChunksOk(cs) && At(s, i, Stream(cs))
    ensures i + |Stream(cs)| <= |s|
    ensures Outcomes(s, i) == Callbacks(cs, i) + Outcomes(s, i + |Stream(cs)|)
    decreases |cs|
  {
    hide Outcomes, ChunkOk, At, ChunkText, PairsOf, Start255;
    if cs == [] {
      AtEmpty(s, i);
    } else {
      AtConcat(s, i, ChunkText(cs[0]), Stream(cs[1..]));
      ChunkParse(s, i, cs[0]);
      ChunksParse(s, i + |ChunkText(cs[0])|, cs[1..]);
    }
  }

  /** Printing and parsing: a stream of written objects fires once for each, in
      order, with the printed pairs, and refuses nothing. */
  lemma PrintParse(cs: seq<Chunk>)
    requires ChunksOk(cs)
    ensures Outcomes(Stream(cs), 0) == Callbacks(cs, 0)
  {
    hide Outcomes, ChunkOk, Stream;
    var s := Stream(cs);
    AtSlice(s, 0, |s|);
    assert s[0..|s|] == s;
    ChunksParse(s, 0, cs);
    NothingLeft(s);
  }

  lemma NothingLeft(s: seq<byte>)
    ensures Outcomes(s, |s|) == []
  {}

  // ---- lookup ----

  lemma {:induction false} PairsOfAt(ms: seq<Member>, k: nat)
    requires k < |ms|
    ensures PairsOf(ms)[k] == PairOf(ms[k])
    decreases |ms|
  {
    if k > 0 {
      PairsOfAt(ms[1..], k - 1);
      assert PairsOf(ms)[k] == PairsOf(ms[1..])[k - 1];
    }
  }

  // The first entry with a key, by its index.
  lemma {:induction false} LookupAt(es: seq<Entry>, name: seq<byte>, r: int)
    requires -1 <= r < |es|
    requires r >= 0 ==> es[r].key == name
    requires forall k :: 0 <= k < (if r < 0 then |es| else r) ==> es[k].key != name
    ensures Lookup(es, name) == if r < 0 then None else Some(es[r].val)
    decreases |es|
  {
    if es != [] && r != 0 {
      LookupAt(es[1..], name, if r < 0 then -1 else r - 1);
    }
  }

  lemma FoundIndex(ms: seq<Member>, es: seq<Entry>, name: seq<byte>)
    requires WritesAll(ms, es)
    ensures var r := FindKey(PairsOf(ms), name);
      && -1 <= r < |es|
      && Lookup(es, name) == (if r < 0 then None else Some(es[r].val))
      && (r >= 0 ==> es[r].key == name)
      && (forall k :: 0 <= k < r ==> es[k].key != name)
  {
    hide FindKey, Writes, PairsOf;
    var r := FindKey(PairsOf(ms), name);
    forall k | 0 <= k < |es| ensures CStr(PairsOf(ms)[k].key) == es[k].key {
      PairsOfAt(ms, k);
      WritesWellFormed(ms[k], es[k]);
    }
    LookupAt(es, name, r);
  }

  /** Inside the callback the helpers answer as the association list does:
      strings as written, integers as their decimal text and as their value. */
  lemma LookupWritten(longMax: int, ms: seq<Member>, es: seq<Entry>, name: seq<byte>)
    requires WritesAll(ms, es) && IsLongMax(longMax)
    ensures TextFor(PairsOf(ms), name) == match Lookup(es, name)
      case None => None
      case Some(v) => Some(ValueText(v))
    ensures IntFor(longMax, PairsOf(ms), name) == match Lookup(es, name)
      case Some(JInt(n)) => Some(n)
      case _ => None
  {
    hide FindKey, PairsOf, ReadInt32, Lookup;
    FoundIndex(ms, es, name);
    var r := FindKey(PairsOf(ms), name);
    if r >= 0 {
      PairsOfAt(ms, r);
      WritesWellFormed(ms[r], es[r]);
      if es[r].val.JInt? { ReadPrinted(longMax, es[r].val.n); }
    }
  }
}
