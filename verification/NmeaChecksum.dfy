/** What the two hex digits behind the '*' must be, bit by bit, and what a
    framed line in a stream then delivers. */
module NmeaChecksum {
  import opened Machine
  import opened Text
  import opened NmeaSpec
  import opened NmeaLaws

  // "0123456789ABCDEF" and "0123456789abcdef".
  const UPPER: seq<byte> :=
    [0x30, 0x31, 0x32, 0x33, 0x34, 0x35, 0x36, 0x37, 0x38, 0x39, 0x41, 0x42, 0x43, 0x44, 0x45, 0x46]
  const LOWER: seq<byte> :=
    [0x30, 0x31, 0x32, 0x33, 0x34, 0x35, 0x36, 0x37, 0x38, 0x39, 0x61, 0x62, 0x63, 0x64, 0x65, 0x66]

  /** c is the hex digit of value d, in either case. */
  predicate DigitAt(c: byte, d: nat) { d < 16 && (c == UPPER[d] || c == LOWER[d]) }

  function Mask(k: nat): byte
    requires k < 8
  {
    match k
    case 0 => 0x01 case 1 => 0x02 case 2 => 0x04 case 3 => 0x08
    case 4 => 0x10 case 5 => 0x20 case 6 => 0x40 case _ => 0x80
  }

  predicate HasBit(b: byte, k: nat)
    requires k < 8
  {
    b & Mask(k) != 0
  }

  /** How many bytes have bit k set. */
  function Ones(s: seq<byte>, k: nat): nat
    requires k < 8
  {
    if s == [] then 0 else Ones(s[..|s| - 1], k) + if HasBit(s[|s| - 1], k) then 1 else 0
  }

  // Bit k of a digit below 16.
  predicate DigitBit(d: nat, k: nat)
    requires k < 4
  {
    match k
    case 0 => d % 2 == 1 case 1 => d / 2 % 2 == 1 case 2 => d / 4 % 2 == 1 case _ => d / 8 % 2 == 1
  }

  // Bit k of the number that two hex digits write.
  predicate SumBit(hi: nat, lo: nat, k: nat)
    requires k < 8
  {
    if k < 4 then DigitBit(lo, k) else DigitBit(hi, k - 4)
  }

  /** Every bit of the digits says whether an odd number of bytes have it set. */
  predicate Parity(body: seq<byte>, hi: nat, lo: nat) {
    forall k :: 0 <= k < 8 ==> (SumBit(hi, lo, k) <==> Ones(body, k) % 2 == 1)
  }

  ghost predicate GoodSum(body: seq<byte>, c1: byte, c2: byte) {
    exists hi, lo :: DigitAt(c1, hi) && DigitAt(c2, lo) && Parity(body, hi, lo)
  }

  lemma XorBit(x: byte, y: byte, k: nat)
    requires k < 8
    ensures HasBit(x ^ y, k) <==> HasBit(x, k) != HasBit(y, k)
  {
    match k
    case 0 => case 1 => case 2 => case 3 => case 4 => case 5 => case 6 => case _ =>
  }

  lemma NoBit(k: nat)
    requires k < 8
    ensures !HasBit(0, k)
  {}

  /** The running XOR has exactly the bits of odd count. */
  lemma {:induction false} XorOnes(s: seq<byte>, k: nat)
    requires k < 8
    ensures HasBit(XorAll(s), k) <==> Ones(s, k) % 2 == 1
    decreases |s|
  {
    hide HasBit;
    if s == [] {
      NoBit(k);
    } else {
      XorOnes(s[..|s| - 1], k);
      XorBit(XorAll(s[..|s| - 1]), s[|s| - 1], k);
    }
  }

  lemma SameBits(x: byte, y: byte)
    requires forall k :: 0 <= k < 8 ==> (HasBit(x, k) <==> HasBit(y, k))
    ensures x == y
  {
    assert HasBit(x, 0) <==> HasBit(y, 0);
    assert HasBit(x, 1) <==> HasBit(y, 1);
    assert HasBit(x, 2) <==> HasBit(y, 2);
    assert HasBit(x, 3) <==> HasBit(y, 3);
    assert HasBit(x, 4) <==> HasBit(y, 4);
    assert HasBit(x, 5) <==> HasBit(y, 5);
    assert HasBit(x, 6) <==> HasBit(y, 6);
    assert HasBit(x, 7) <==> HasBit(y, 7);
  }

  // The four bits of a digit.
  function Nibble(d: nat): byte
    requires d < 16
  {
    match d
    case 0 => 0 case 1 => 1 case 2 => 2 case 3 => 3 case 4 => 4 case 5 => 5 case 6 => 6 case 7 => 7
    case 8 => 8 case 9 => 9 case 10 => 10 case 11 => 11 case 12 => 12 case 13 => 13 case 14 => 14 case _ => 15
  }

  lemma NibbleOf(c: byte, d: nat)
    requires DigitAt(c, d)
    ensures HexNibble(c) == Some(Nibble(d))
  {}

  lemma NibbleBits(d: nat, k: nat)
    requires d < 16 && k < 4
    ensures Nibble(d) < 16 && (HasBit(Nibble(d), k) <==> DigitBit(d, k))
  {
    match d
    case 0 => case 1 => case 2 => case 3 => case 4 => case 5 => case 6 => case 7 =>
    case 8 => case 9 => case 10 => case 11 => case 12 => case 13 => case 14 => case _ =>
  }

  lemma TwoNibbles(h: byte, l: byte, k: nat)
    requires h < 16 && l < 16 && k < 8
    ensures HasBit(TwoHex(h, l), k) <==> if k < 4 then HasBit(l, k) else HasBit(h, k - 4)
  {
    match k
    case 0 => case 1 => case 2 => case 3 => case 4 => case 5 => case 6 => case _ =>
  }

  // The value of a hex digit, by its position.
  function Position(c: byte): nat {
    if c <= 0x39 then DigitValue(c)
    else if c == 0x41 || c == 0x61 then 10 else if c == 0x42 || c == 0x62 then 11
    else if c == 0x43 || c == 0x63 then 12 else if c == 0x44 || c == 0x64 then 13
    else if c == 0x45 || c == 0x65 then 14 else 15
  }

  lemma DecimalDigit(c: byte)
    requires 0x30 <= c <= 0x39
    ensures DigitAt(c, Position(c))
  {}

  lemma UpperDigit(c: byte)
    requires 0x41 <= c <= 0x46
    ensures DigitAt(c, Position(c))
  {}

  lemma LowerDigit(c: byte)
    requires 0x61 <= c <= 0x66
    ensures DigitAt(c, Position(c))
  {}

  lemma NibbleDigit(c: byte)
    requires HexNibble(c).Some?
    ensures DigitAt(c, Position(c))
  {
    hide DigitAt, Position;
    if c <= 0x39 { DecimalDigit(c); } else if c <= 0x46 { UpperDigit(c); } else { LowerDigit(c); }
  }

  lemma SumBits(hi: nat, lo: nat, k: nat)
    requires hi < 16 && lo < 16 && k < 8
    ensures HasBit(TwoHex(Nibble(hi), Nibble(lo)), k) <==> SumBit(hi, lo, k)
  {
    hide HasBit, DigitBit, TwoHex, Nibble;
    NibbleBits(hi, 0);
    NibbleBits(lo, 0);
    TwoNibbles(Nibble(hi), Nibble(lo), k);
    if k < 4 { NibbleBits(lo, k); } else { NibbleBits(hi, k - 4); }
  }

  lemma DigitsMatch(body: seq<byte>, c1: byte, c2: byte, hi: nat, lo: nat)
    requires DigitAt(c1, hi) && DigitAt(c2, lo)
    ensures SumMatches(body, c1, c2) <==> Parity(body, hi, lo)
  {
    assert hi < 16 && lo < 16;
    hide HasBit, SumBit, HexNibble, TwoHex, DigitAt, Nibble, Ones, XorAll;
    NibbleOf(c1, hi);
    NibbleOf(c2, lo);
    var v := TwoHex(Nibble(hi), Nibble(lo));
    forall k | 0 <= k < 8
      ensures HasBit(v, k) <==> SumBit(hi, lo, k)
      ensures HasBit(XorAll(body), k) <==> Ones(body, k) % 2 == 1
    {
      SumBits(hi, lo, k);
      XorOnes(body, k);
    }
    if Parity(body, hi, lo) { SameBits(v, XorAll(body)); }
  }

  /** Two characters are the checksum of a body exactly when they are hex
      digits with the right bits. */
  lemma SumExact(body: seq<byte>, c1: byte, c2: byte)
    ensures SumMatches(body, c1, c2) <==> GoodSum(body, c1, c2)
  {
    hide Parity, DigitAt, XorAll;
    if SumMatches(body, c1, c2) {
      NibbleDigit(c1);
      NibbleDigit(c2);
      DigitsMatch(body, c1, c2, Position(c1), Position(c2));
    }
    if GoodSum(body, c1, c2) {
      var hi, lo :| DigitAt(c1, hi) && DigitAt(c2, lo) && Parity(body, hi, lo);
      DigitsMatch(body, c1, c2, hi, lo);
    }
  }

  // ---- a framed line in a stream ----

  predicate Without(s: seq<byte>, b: byte) {
    forall i :: 0 <= i < |s| ==> s[i] != b
  }

  predicate OneLiner(s: seq<byte>) { Without(s, 0x0D) && Without(s, 0x0A) }

  /** Noise, '$', body, '*', what follows, and one CR or LF. */
  function Framed(noise: seq<byte>, body: seq<byte>, sum: seq<byte>, eol: byte): seq<byte> {
    noise + ([0x24] + body + [0x2A] + sum) + [eol]
  }

  predicate Frameable(noise: seq<byte>, body: seq<byte>, sum: seq<byte>, eol: byte) {
    && Without(noise, 0x24) && Without(body, 0x2A) && (eol == 0x0D || eol == 0x0A)
    && OneLiner(noise) && OneLiner(body) && OneLiner(sum)
  }

  // The stream stands at the start of a line.
  predicate AtLineStart(s: seq<byte>) {
    s == [] || s[|s| - 1] == 0x0D || s[|s| - 1] == 0x0A
  }

  /** At most 96 bytes, and two characters that are their checksum. */
  ghost predicate Good(body: seq<byte>, sum: seq<byte>) {
    |body| <= 96 && |sum| >= 2 && GoodSum(body, sum[0], sum[1])
  }

  lemma OneLinerNoEol(s: seq<byte>)
    requires OneLiner(s)
    ensures NoEol(s)
  {}

  lemma WithoutIndex(s: seq<byte>, b: byte)
    requires Without(s, b)
    ensures IndexOf(s, b) == |s|
  {
    hide IndexOf;
  }

  lemma FramedLine(noise: seq<byte>, body: seq<byte>, sum: seq<byte>, eol: byte) returns (line: seq<byte>)
    requires Frameable(noise, body, sum, eol)
    ensures Framed(noise, body, sum, eol) == line + [eol] && NoEol(line) && IsEol(eol)
    ensures FramingOf(line) == InSum(body, sum)
  {
    hide FramingOf, IndexOf;
    line := noise + PrintFrame(body, sum);
    WithoutIndex(noise, 0x24);
    WithoutIndex(body, 0x2A);
    PrintedFraming(noise, body, sum);
    OneLinerNoEol(line);
  }

  /** A line in which no '*' comes after a '$' is nothing either. */
  lemma UnframedSilent<D>(ops: FloatOps<D>, before: seq<byte>, line: seq<byte>, eol: byte)
    requires AtLineStart(before) && OneLiner(line) && (eol == 0x0D || eol == 0x0A)
    requires forall i, j :: 0 <= i < j < |line| ==> !(line[i] == 0x24 && line[j] == 0x2A)
    ensures Events(ops, before + line + [eol]) == Events(ops, before)
  {
    assert Tail(before) == [];
    hide FramingOf, IndexOf, Events, Tail;
    if FramingOf(line).InSum? {
      var d, e := FramedPositions(line);
      assert false;
    }
    OneLinerNoEol(line);
    LineThenEol(ops, line, eol);
    EventsAppend(ops, before, line + [eol]);
    assert before + line + [eol] == before + (line + [eol]);
  }

  /** A framed line, with either terminator and whatever came on earlier lines,
      is delivered exactly when its checksum is good; otherwise it is nothing. */
  lemma FramedDelivered<D>(ops: FloatOps<D>, before: seq<byte>, noise: seq<byte>, body: seq<byte>,
                           sum: seq<byte>, eol: byte)
    requires AtLineStart(before) && Frameable(noise, body, sum, eol)
    ensures Events(ops, before + Framed(noise, body, sum, eol))
            == Events(ops, before) + if Good(body, sum) then BodyEvents(ops, body) else []
  {
    var line := FramedLine(noise, body, sum, eol);
    assert Tail(before) == [];
    hide FramingOf, Framed, Events, Tail, BodyEvents, GoodSum, SumMatches, Frameable;
    LineThenEol(ops, line, eol);
    EventsAppend(ops, before, line + [eol]);
    if |sum| >= 2 { SumExact(body, sum[0], sum[1]); }
  }
}
