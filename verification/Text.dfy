/** Bytes as C code sees them in text: ASCII constants, decimal numerals and
    the first-occurrence search that the specifications of lines and tokens use. */
module Text {
  import opened Machine

  type byte = bv8

  const TAB: byte := 0x09
  const LF: byte := 0x0A
  const CR: byte := 0x0D
  const SPACE: byte := 0x20
  const QUOTE: byte := 0x22
  const DOLLAR: byte := 0x24
  const STAR: byte := 0x2A
  const PLUS: byte := 0x2B
  const COMMA: byte := 0x2C
  const MINUS: byte := 0x2D
  const COLON: byte := 0x3A

  /** Index of the first b in s, or |s|. */
  function IndexOf(s: seq<byte>, b: byte): (i: nat)
    ensures i <= |s|
    ensures i < |s| ==> s[i] == b
    ensures forall j :: 0 <= j < i ==> s[j] != b
  {
    if s == [] || s[0] == b then 0 else 1 + IndexOf(s[1..], b)
  }

  predicate IsDigit(b: byte) { 0x30 <= b <= 0x39 }

  function DigitValue(b: byte): (d: int)
    ensures 0 <= d <= 9
  {
    if b == 0x31 then 1 else if b == 0x32 then 2 else if b == 0x33 then 3
    else if b == 0x34 then 4 else if b == 0x35 then 5 else if b == 0x36 then 6
    else if b == 0x37 then 7 else if b == 0x38 then 8 else if b == 0x39 then 9 else 0
  }

  // "0123456789".
  const DIGITS: seq<byte> := [0x30, 0x31, 0x32, 0x33, 0x34, 0x35, 0x36, 0x37, 0x38, 0x39]

  function DigitByte(d: int): (b: byte)
    requires 0 <= d <= 9
    ensures IsDigit(b) && DigitValue(b) == d
  {
    match d
    case 0 => 0x30 case 1 => 0x31 case 2 => 0x32 case 3 => 0x33 case 4 => 0x34
    case 5 => 0x35 case 6 => 0x36 case 7 => 0x37 case 8 => 0x38 case _ => 0x39
  }

  predicate AllDigits(s: seq<byte>) {
    forall i :: 0 <= i < |s| ==> IsDigit(s[i])
  }

  /** Value of the leading digits of s, read after the number acc. */
  function Numeral(s: seq<byte>, acc: nat): nat {
    if s == [] || !IsDigit(s[0]) then acc
    else Numeral(s[1..], acc * 10 + DigitValue(s[0]))
  }

  predicate IsSpace(b: byte) { b == SPACE || TAB <= b <= CR }

  /** The number that C's atoi and strtol (base 10) read, before any range limit. */
  function Decimal(s: seq<byte>): int {
    if s != [] && IsSpace(s[0]) then Decimal(s[1..])
    else if s != [] && s[0] == MINUS then var n: int := Numeral(s[1..], 0); -n
    else if s != [] && s[0] == PLUS then Numeral(s[1..], 0)
    else Numeral(s, 0)
  }

  function PrintNat(n: nat): (s: seq<byte>)
    ensures s != [] && AllDigits(s)
  {
    if n < 10 then [DigitByte(n)] else PrintNat(n / 10) + [DigitByte(n % 10)]
  }

  function PrintInt(n: int): seq<byte> {
    if n < 0 then [MINUS] + PrintNat(-n) else PrintNat(n)
  }

  lemma {:induction false} NumeralAppend(s: seq<byte>, t: seq<byte>, acc: nat)
    requires AllDigits(s)
    ensures Numeral(s + t, acc) == Numeral(t, Numeral(s, acc))
    decreases |s|
  {
    if s == [] {
      assert s + t == t;
    } else {
      assert (s + t)[1..] == s[1..] + t;
      NumeralAppend(s[1..], t, acc * 10 + DigitValue(s[0]));
    }
  }

  lemma {:induction false} NumeralPrint(n: nat)
    ensures Numeral(PrintNat(n), 0) == n
  {
    if n >= 10 {
      NumeralPrint(n / 10);
      var last := [DigitByte(n % 10)];
      NumeralAppend(PrintNat(n / 10), last, 0);
      assert Numeral(last, n / 10) == Numeral(last[1..], n / 10 * 10 + n % 10);
    }
  }

  /** Reading back a printed integer. */
  lemma DecimalPrint(n: int)
    ensures Decimal(PrintInt(n)) == n
  {
    if n < 0 {
      assert PrintInt(n)[1..] == PrintNat(-n);
      NumeralPrint(-n);
    } else {
      NumeralPrint(n);
    }
  }
}
