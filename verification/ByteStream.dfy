/** byte_stream/byte_stream.h: typed reads and writes through a moving offset. */
module ByteStream {
  import opened Machine

  /** A buffer with `bytes` written at `off` and everything else untouched. */
  function Splice(before: seq<uint8>, off: nat, bytes: seq<uint8>): (after: seq<uint8>)
    requires off + |bytes| <= |before|
    ensures |after| == |before|
  {
    before[..off] + bytes + before[off + |bytes|..]
  }

  /** Writing x and then y right behind it is one write of x + y. */
  lemma SpliceTwice(before: seq<uint8>, off: nat, x: seq<uint8>, y: seq<uint8>)
    requires off + |x| + |y| <= |before|
    ensures Splice(Splice(before, off, x), off + |x|, y) == Splice(before, off, x + y)
  {
    var mid := Splice(before, off, x);
    assert mid[..off + |x|] == before[..off] + x;
    assert mid[off + |x| + |y|..] == before[off + |x| + |y|..];
  }

  // The three parts of a buffer after a write.
  lemma SpliceAround(before: seq<uint8>, off: nat, w: seq<uint8>)
    requires off + |w| <= |before|
    ensures Splice(before, off, w)[..off] == before[..off]
    ensures Splice(before, off, w)[off..off + |w|] == w
    ensures Splice(before, off, w)[off + |w|..] == before[off + |w|..]
  {}

  // ---- encodings ----

  function U16BE(v: uint16): seq<uint8> { [v / 0x100, v % 0x100] }
  function U16LE(v: uint16): seq<uint8> { [v % 0x100, v / 0x100] }
  function U32BE(v: uint32): seq<uint8> {
    [v / 0x100_0000 % 0x100, v / 0x1_0000 % 0x100, v / 0x100 % 0x100, v % 0x100]
  }
  function U32LE(v: uint32): seq<uint8> {
    [v % 0x100, v / 0x100 % 0x100, v / 0x1_0000 % 0x100, v / 0x100_0000 % 0x100]
  }

  // C's conversions from unsigned to signed of the same width.
  function AsI8(v: uint8): int8 { if v < 0x80 then v else v - 0x100 }
  function AsI16(v: uint16): int16 { if v < 0x8000 then v else v - 0x1_0000 }

  method PutU8(buf: array<uint8>, off: nat, v: uint8) returns (off': nat)
    requires off < buf.Length
    modifies buf
    ensures off' == off + 1 && buf[..] == Splice(old(buf[..]), off, [v])
  {
    buf[off] := v;
    off' := off + 1;
  }

  method GetU8(buf: array<uint8>, off: nat) returns (v: uint8, off': nat)
    requires off < buf.Length
    ensures off' == off + 1 && buf[off..off'] == [v]
  {
    v, off' := buf[off], off + 1;
  }

  method PutU16BE(buf: array<uint8>, off: nat, v: uint16) returns (off': nat)
    requires off + 2 <= buf.Length
    modifies buf
    ensures off' == off + 2 && buf[..] == Splice(old(buf[..]), off, U16BE(v))
  {
    buf[off] := v / 0x100 % 0x100;
    buf[off + 1] := v % 0x100;
    off' := off + 2;
  }

  method GetU16BE(buf: array<uint8>, off: nat) returns (v: uint16, off': nat)
    requires off + 2 <= buf.Length
    ensures off' == off + 2 && buf[off..off'] == U16BE(v)
  {
    var hi: int, lo: int := buf[off], buf[off + 1];
    v := hi * 0x100 + lo;
    off' := off + 2;
  }

  method PutU16LE(buf: array<uint8>, off: nat, v: uint16) returns (off': nat)
    requires off + 2 <= buf.Length
    modifies buf
    ensures off' == off + 2 && buf[..] == Splice(old(buf[..]), off, U16LE(v))
  {
    buf[off] := v % 0x100;
    buf[off + 1] := v / 0x100 % 0x100;
    off' := off + 2;
  }

  method GetU16LE(buf: array<uint8>, off: nat) returns (v: uint16, off': nat)
    requires off + 2 <= buf.Length
    ensures off' == off + 2 && buf[off..off'] == U16LE(v)
  {
    var lo: int, hi: int := buf[off], buf[off + 1];
    v := lo + hi * 0x100;
    off' := off + 2;
  }

  lemma DivChain(v: uint32)
    ensures v / 0x1_0000 == v / 0x100 / 0x100
    ensures v / 0x100_0000 == v / 0x100 / 0x100 / 0x100
  {}

  /** A 32-bit value is its four bytes put together. */
  lemma WordParts(v: uint32)
    ensures v == v / 0x100_0000 % 0x100 * 0x100_0000 + v / 0x1_0000 % 0x100 * 0x1_0000
                 + v / 0x100 % 0x100 * 0x100 + v % 0x100
  {
    DivChain(v);
    var q := v / 0x100;
    var r := q / 0x100;
    assert v == q * 0x100 + v % 0x100;
    assert q == r * 0x100 + q % 0x100;
    assert r == r / 0x100 * 0x100 + r % 0x100;
  }

  lemma LastByte(q: int, r: int)
    requires 0 <= r < 0x100
    ensures (q * 0x100 + r) / 0x100 == q && (q * 0x100 + r) % 0x100 == r
  {}

  lemma FromFourBytes(a: int, b: int, c: int, d: int)
    requires 0 <= a < 0x100 && 0 <= b < 0x100 && 0 <= c < 0x100 && 0 <= d < 0x100
    ensures var v := a * 0x100_0000 + b * 0x1_0000 + c * 0x100 + d;
      0 <= v < 0x1_0000_0000 && U32BE(v) == [a, b, c, d] && U32LE(v) == [d, c, b, a]
  {
    var ab := a * 0x100 + b;
    var abc := ab * 0x100 + c;
    var v := abc * 0x100 + d;
    LastByte(abc, d);
    LastByte(ab, c);
    LastByte(a, b);
    DivChain(v);
  }

  /** The number whose base-256 digits are bs, most or least significant first. */
  function BigEndian(bs: seq<uint8>): int {
    if bs == [] then 0
    else var last: int := bs[|bs| - 1]; BigEndian(bs[..|bs| - 1]) * 0x100 + last
  }

  function LittleEndian(bs: seq<uint8>): int {
    if bs == [] then 0 else var first: int := bs[0]; first + LittleEndian(bs[1..]) * 0x100
  }

  lemma FourDigits(a: uint8, b: uint8, c: uint8, d: uint8)
    ensures var w: int, x: int, y: int, z: int := a, b, c, d;
      && BigEndian([a, b]) == w * 0x100 + x == LittleEndian([b, a])
      && BigEndian([a, b, c, d]) == ((w * 0x100 + x) * 0x100 + y) * 0x100 + z == LittleEndian([d, c, b, a])
  {
    assert [a, b][..1] == [a] && [a][..0] == [];
    assert [a, b, c, d][..3] == [a, b, c] && [a, b, c][..2] == [a, b];
    assert [b, a][1..] == [a] && [a][1..] == [];
    assert [d, c, b, a][1..] == [c, b, a] && [c, b, a][1..] == [b, a];
    assert BigEndian([a]) == a as int && LittleEndian([a]) == a as int;
    assert BigEndian([a, b, c]) == BigEndian([a, b]) * 0x100 + c as int;
    assert LittleEndian([c, b, a]) == c as int + LittleEndian([b, a]) * 0x100;
  }

  /** The encodings are the base-256 digits of the value, in the named order. */
  lemma PlaceValues(u: uint16, v: uint32)
    ensures BigEndian(U16BE(u)) == u && LittleEndian(U16LE(u)) == u
    ensures BigEndian(U32BE(v)) == v && LittleEndian(U32LE(v)) == v
  {
    hide BigEndian, LittleEndian;
    FourDigits(u / 0x100, u % 0x100, 0, 0);
    WordParts(v);
    FourDigits(v / 0x100_0000 % 0x100, v / 0x1_0000 % 0x100, v / 0x100 % 0x100, v % 0x100);
  }

  method PutU32BE(buf: array<uint8>, off: nat, v: uint32) returns (off': nat)
    requires off + 4 <= buf.Length
    modifies buf
    ensures off' == off + 4 && buf[..] == Splice(old(buf[..]), off, U32BE(v))
  {
    buf[off] := v / 0x100_0000 % 0x100;
    buf[off + 1] := v / 0x1_0000 % 0x100;
    buf[off + 2] := v / 0x100 % 0x100;
    buf[off + 3] := v % 0x100;
    off' := off + 4;
  }

  method GetU32BE(buf: array<uint8>, off: nat) returns (v: uint32, off': nat)
    requires off + 4 <= buf.Length
    ensures off' == off + 4 && buf[off..off'] == U32BE(v)
  {
    var a: int, b: int, c: int, d: int := buf[off], buf[off + 1], buf[off + 2], buf[off + 3];
    FromFourBytes(a, b, c, d);
    v := a * 0x100_0000 + b * 0x1_0000 + c * 0x100 + d;
    off' := off + 4;
  }

  method PutU32LE(buf: array<uint8>, off: nat, v: uint32) returns (off': nat)
    requires off + 4 <= buf.Length
    modifies buf
    ensures off' == off + 4 && buf[..] == Splice(old(buf[..]), off, U32LE(v))
  {
    buf[off] := v % 0x100;
    buf[off + 1] := v / 0x100 % 0x100;
    buf[off + 2] := v / 0x1_0000 % 0x100;
    buf[off + 3] := v / 0x100_0000 % 0x100;
    off' := off + 4;
  }

  method GetU32LE(buf: array<uint8>, off: nat) returns (v: uint32, off': nat)
    requires off + 4 <= buf.Length
    ensures off' == off + 4 && buf[off..off'] == U32LE(v)
  {
    var d: int, c: int, b: int, a: int := buf[off], buf[off + 1], buf[off + 2], buf[off + 3];
    FromFourBytes(a, b, c, d);
    v := d + c * 0x100 + b * 0x1_0000 + a * 0x100_0000;
    off' := off + 4;
  }

  /** memcpy of a whole source into the buffer. */
  method PutBytes(buf: array<uint8>, off: nat, src: seq<uint8>) returns (off': nat)
    requires off + |src| <= buf.Length
    modifies buf
    ensures off' == off + |src| && buf[..] == Splice(old(buf[..]), off, src)
  {
    forall i | 0 <= i < |src| {
      buf[off + i] := src[i];
    }
    off' := off + |src|;
  }

  method GetBytes(dst: array<uint8>, buf: array<uint8>, off: nat, len: nat) returns (off': nat)
    requires off + len <= buf.Length && len <= dst.Length && dst != buf
    modifies dst
    ensures off' == off + len && dst[..] == Splice(old(dst[..]), 0, buf[off..off'])
  {
    forall i | 0 <= i < len {
      dst[i] := buf[off + i];
    }
    off' := off + len;
  }

  /** A string behind its 16-bit big-endian length. */
  function Str16(s: seq<uint8>): seq<uint8> { U16BE(U16(|s|)) + s }

  method PutStrU16BE(buf: array<uint8>, off: nat, s: seq<uint8>) returns (off': nat)
    requires off + 2 + |s| <= buf.Length
    modifies buf
    ensures off' == off + 2 + |s| && buf[..] == Splice(old(buf[..]), off, Str16(s))
  {
    SpliceTwice(buf[..], off, U16BE(U16(|s|)), s);
    off' := PutU16BE(buf, off, U16(|s|));
    off' := PutBytes(buf, off', s);
  }

  lemma SignedWord(u: uint32)
    ensures U32(Machine.I32(u)) == u
  {}

  // ---- mixed sequences of typed values ----

  datatype Order = BE | LE

  datatype Item =
    | Byte(b: uint8) | I8(i8: int8)
    | Half(u16: uint16, order: Order) | I16(i16: int16, order: Order)
    | Word(u32: uint32, order: Order) | I32(i32: int32, order: Order)
    | Raw(bytes: seq<uint8>)

  /** What the put of an item writes. */
  function Encode(x: Item): seq<uint8> {
    match x
    case Byte(v) => [v]
    case I8(v) => [U8(v)]
    case Half(v, o) => if o == BE then U16BE(v) else U16LE(v)
    case I16(v, o) => if o == BE then U16BE(U16(v)) else U16LE(U16(v))
    case Word(v, o) => if o == BE then U32BE(v) else U32LE(v)
    case I32(v, o) => if o == BE then U32BE(U32(v)) else U32LE(U32(v))
    case Raw(bs) => bs
  }

  // ---- signed wrappers ----

  /** A signed value is put as the unsigned value that differs by a power of 2
      when it is negative. */
  lemma TwosComplement(a: int8, b: int16, c: int32, o: Order)
    ensures Encode(I8(a)) == Encode(Byte(if a < 0 then a + 0x100 else a))
    ensures Encode(I16(b, o)) == Encode(Half(if b < 0 then b + 0x1_0000 else b, o))
    ensures Encode(I32(c, o)) == Encode(Word(if c < 0 then c + 0x1_0000_0000 else c, o))
  {
    hide U16BE, U16LE, U32BE, U32LE;
  }

  method PutI8(buf: array<uint8>, off: nat, v: int8) returns (off': nat)
    requires off < buf.Length
    modifies buf
    ensures off' == off + 1 && buf[..] == Splice(old(buf[..]), off, Encode(I8(v)))
  {
    off' := PutU8(buf, off, U8(v));
  }

  method GetI8(buf: array<uint8>, off: nat) returns (v: int8, off': nat)
    requires off < buf.Length
    ensures off' == off + 1 && buf[off..off'] == Encode(I8(v))
  {
    var u: uint8;
    u, off' := GetU8(buf, off);
    v := AsI8(u);
  }

  method PutI16(buf: array<uint8>, off: nat, v: int16, order: Order) returns (off': nat)
    requires off + 2 <= buf.Length
    modifies buf
    ensures off' == off + 2 && buf[..] == Splice(old(buf[..]), off, Encode(I16(v, order)))
  {
    if order == BE { off' := PutU16BE(buf, off, U16(v)); } else { off' := PutU16LE(buf, off, U16(v)); }
  }

  method GetI16(buf: array<uint8>, off: nat, order: Order) returns (v: int16, off': nat)
    requires off + 2 <= buf.Length
    ensures off' == off + 2 && buf[off..off'] == Encode(I16(v, order))
  {
    var u: uint16;
    if order == BE { u, off' := GetU16BE(buf, off); } else { u, off' := GetU16LE(buf, off); }
    v := AsI16(u);
  }

  method PutI32(buf: array<uint8>, off: nat, v: int32, order: Order) returns (off': nat)
    requires off + 4 <= buf.Length
    modifies buf
    ensures off' == off + 4 && buf[..] == Splice(old(buf[..]), off, Encode(I32(v, order)))
  {
    if order == BE { off' := PutU32BE(buf, off, U32(v)); } else { off' := PutU32LE(buf, off, U32(v)); }
  }

  method GetI32(buf: array<uint8>, off: nat, order: Order) returns (v: int32, off': nat)
    requires off + 4 <= buf.Length
    ensures off' == off + 4 && buf[off..off'] == Encode(I32(v, order))
  {
    var u: uint32;
    if order == BE { u, off' := GetU32BE(buf, off); } else { u, off' := GetU32LE(buf, off); }
    v := Machine.I32(u);
    SignedWord(u);
  }

  // What selects a get: the type of the item, and for raw bytes their number.
  datatype Kind =
    | ByteKind | I8Kind
    | HalfKind(order: Order) | I16Kind(order: Order)
    | WordKind(order: Order) | I32Kind(order: Order)
    | RawKind(len: nat)

  function KindOf(x: Item): Kind {
    match x
    case Byte(_) => ByteKind
    case I8(_) => I8Kind
    case Half(_, o) => HalfKind(o)
    case I16(_, o) => I16Kind(o)
    case Word(_, o) => WordKind(o)
    case I32(_, o) => I32Kind(o)
    case Raw(bs) => RawKind(|bs|)
  }

  function Width(k: Kind): nat {
    match k
    case ByteKind => 1
    case I8Kind => 1
    case HalfKind(_) => 2
    case I16Kind(_) => 2
    case WordKind(_) => 4
    case I32Kind(_) => 4
    case RawKind(n) => n
  }

  lemma EncodeWidth(x: Item)
    ensures |Encode(x)| == Width(KindOf(x))
  {}

  lemma U16Inverse(v: uint16)
    ensures v == v / 0x100 * 0x100 + v % 0x100
  {}

  lemma HalfInjective(v: uint16, w: uint16, o: Order)
    requires Encode(Half(v, o)) == Encode(Half(w, o))
    ensures v == w
  {
    U16Inverse(v);
    U16Inverse(w);
    assert Encode(Half(v, o))[0] == Encode(Half(w, o))[0];
    assert Encode(Half(v, o))[1] == Encode(Half(w, o))[1];
  }

  lemma WordInjective(v: uint32, w: uint32, o: Order)
    requires Encode(Word(v, o)) == Encode(Word(w, o))
    ensures v == w
  {
    WordParts(v);
    WordParts(w);
    var e, f := Encode(Word(v, o)), Encode(Word(w, o));
    assert e[0] == f[0] && e[1] == f[1] && e[2] == f[2] && e[3] == f[3];
  }

  // Conversion to unsigned loses nothing within the signed range.
  lemma SignedInjective(v: int, w: int, half: int)
    requires half == 0x80 || half == 0x8000 || half == 0x8000_0000
    requires -half <= v < half && -half <= w < half && v % (2 * half) == w % (2 * half)
    ensures v == w
  {}

  /** The matching get can return nothing but the value that was put. */
  lemma EncodeInjective(x: Item, y: Item)
    requires KindOf(x) == KindOf(y) && Encode(x) == Encode(y)
    ensures x == y
  {
    hide U16BE, U16LE, U32BE, U32LE;
    match x
    case Byte(_) =>
    case I8(v) => SignedInjective(v, y.i8, 0x80);
    case Half(v, o) => HalfInjective(v, y.u16, o);
    case I16(v, o) =>
      HalfInjective(U16(v), U16(y.i16), o);
      SignedInjective(v, y.i16, 0x8000);
    case Word(v, o) => WordInjective(v, y.u32, o);
    case I32(v, o) =>
      WordInjective(U32(v), U32(y.i32), o);
      SignedInjective(v, y.i32, 0x8000_0000);
    case Raw(_) =>
  }

  // ---- lists of typed values ----

  function EncodeAll(xs: seq<Item>): seq<uint8> {
    if xs == [] then [] else Encode(xs[0]) + EncodeAll(xs[1..])
  }

  function Kinds(xs: seq<Item>): seq<Kind> {
    if xs == [] then [] else [KindOf(xs[0])] + Kinds(xs[1..])
  }

  function Widths(ks: seq<Kind>): nat {
    if ks == [] then 0 else Width(ks[0]) + Widths(ks[1..])
  }

  lemma {:induction false} EncodeAllWidth(xs: seq<Item>)
    ensures |EncodeAll(xs)| == Widths(Kinds(xs))
  {
    if xs != [] {
      EncodeWidth(xs[0]);
      EncodeAllWidth(xs[1..]);
      assert Kinds(xs)[1..] == Kinds(xs[1..]);
    }
  }

  lemma SplitEqual(a: seq<uint8>, b: seq<uint8>, c: seq<uint8>, d: seq<uint8>)
    requires a + b == c + d && |a| == |c|
    ensures a == c && b == d
  {
    assert (a + b)[..|a|] == a && (a + b)[|a|..] == b;
    assert (c + d)[..|c|] == c && (c + d)[|c|..] == d;
  }

  /** The matching gets can return nothing but the list that was put. */
  lemma {:induction false} EncodeAllInjective(xs: seq<Item>, ys: seq<Item>)
    requires Kinds(xs) == Kinds(ys) && EncodeAll(xs) == EncodeAll(ys)
    ensures xs == ys
    decreases |xs|
  {
    hide Encode, KindOf;
    if xs != [] && ys != [] {
      assert KindOf(xs[0]) == Kinds(xs)[0] == Kinds(ys)[0] == KindOf(ys[0]);
      EncodeWidth(xs[0]);
      EncodeWidth(ys[0]);
      SplitEqual(Encode(xs[0]), EncodeAll(xs[1..]), Encode(ys[0]), EncodeAll(ys[1..]));
      EncodeInjective(xs[0], ys[0]);
      assert Kinds(xs)[1..] == Kinds(xs[1..]) && Kinds(ys)[1..] == Kinds(ys[1..]);
      EncodeAllInjective(xs[1..], ys[1..]);
      assert xs == [xs[0]] + xs[1..] && ys == [ys[0]] + ys[1..];
    }
  }

  /** The put for an item of any type. */
  method PutItem(buf: array<uint8>, off: nat, x: Item) returns (off': nat)
    requires off + |Encode(x)| <= buf.Length
    modifies buf
    ensures off' == off + |Encode(x)| && buf[..] == Splice(old(buf[..]), off, Encode(x))
  {
    hide Splice;
    match x
    case Byte(v) => off' := PutU8(buf, off, v);
    case I8(v) => off' := PutI8(buf, off, v);
    case Half(v, o) =>
      if o == BE { off' := PutU16BE(buf, off, v); } else { off' := PutU16LE(buf, off, v); }
    case I16(v, o) => off' := PutI16(buf, off, v, o);
    case Word(v, o) =>
      if o == BE { off' := PutU32BE(buf, off, v); } else { off' := PutU32LE(buf, off, v); }
    case I32(v, o) => off' := PutI32(buf, off, v, o);
    case Raw(bs) => off' := PutBytes(buf, off, bs);
  }

  // Raw bytes go to an array of their own.
  method GetRaw(buf: array<uint8>, off: nat, n: nat) returns (x: Item, off': nat)
    requires off + n <= buf.Length
    ensures KindOf(x) == RawKind(n) && off' == off + n && buf[off..off'] == Encode(x)
  {
    var dst := new uint8[n];
    off' := GetBytes(dst, buf, off, n);
    x := Raw(dst[..]);
  }

  /** The get for any type. */
  method GetItem(buf: array<uint8>, off: nat, k: Kind) returns (x: Item, off': nat)
    requires off + Width(k) <= buf.Length
    ensures KindOf(x) == k && off' == off + Width(k) && buf[off..off'] == Encode(x)
  {
    hide U16BE, U16LE, U32BE, U32LE, U8, U16, U32;
    match k
    case ByteKind =>
      var v; v, off' := GetU8(buf, off); x := Byte(v);
    case I8Kind =>
      var v; v, off' := GetI8(buf, off); x := I8(v);
    case HalfKind(o) =>
      var v;
      if o == BE { v, off' := GetU16BE(buf, off); } else { v, off' := GetU16LE(buf, off); }
      x := Half(v, o);
    case I16Kind(o) =>
      var v; v, off' := GetI16(buf, off, o); x := I16(v, o);
    case WordKind(o) =>
      var v;
      if o == BE { v, off' := GetU32BE(buf, off); } else { v, off' := GetU32LE(buf, off); }
      x := Word(v, o);
    case I32Kind(o) =>
      var v; v, off' := GetI32(buf, off, o); x := I32(v, o);
    case RawKind(n) => x, off' := GetRaw(buf, off, n);
  }

  /** Puts of a list, each where the one before it ended. */
  method PutAll(buf: array<uint8>, off: nat, xs: seq<Item>) returns (off': nat)
    requires off + |EncodeAll(xs)| <= buf.Length
    modifies buf
    ensures off' == off + |EncodeAll(xs)| && buf[..] == Splice(old(buf[..]), off, EncodeAll(xs))
    decreases |xs|
  {
    hide Encode;
    off' := off;
    if xs != [] {
      SpliceTwice(buf[..], off, Encode(xs[0]), EncodeAll(xs[1..]));
      off' := PutItem(buf, off, xs[0]);
      off' := PutAll(buf, off', xs[1..]);
    }
  }

  /** Gets of a list of types, each where the one before it ended. */
  method GetAll(buf: array<uint8>, off: nat, ks: seq<Kind>) returns (xs: seq<Item>, off': nat)
    requires off + Widths(ks) <= buf.Length
    ensures Kinds(xs) == ks && off' == off + Widths(ks) && buf[off..off'] == EncodeAll(xs)
    decreases |ks|
  {
    hide Encode, KindOf, Width;
    xs, off' := [], off;
    if ks != [] {
      var x, mid := GetItem(buf, off, ks[0]);
      var rest;
      rest, off' := GetAll(buf, mid, ks[1..]);
      xs := [x] + rest;
      assert xs[1..] == rest;
      assert buf[off..off'] == buf[off..mid] + buf[mid..off'];
    }
  }

  /** Any list of typed values, put one after another and got back from the
      same offset, returns the same values and ends at the same place; the bytes
      outside the written range are the old ones. */
  method PutGetAll(buf: array<uint8>, off: nat, xs: seq<Item>) returns (ys: seq<Item>, putEnd: nat, getEnd: nat)
    requires off + |EncodeAll(xs)| <= buf.Length
    modifies buf
    ensures ys == xs && putEnd == getEnd == off + |EncodeAll(xs)|
    ensures buf[off..putEnd] == EncodeAll(xs)
    ensures buf[..off] == old(buf[..off]) && buf[putEnd..] == old(buf[putEnd..])
  {
    hide Kinds, Widths, EncodeAll;
    EncodeAllWidth(xs);
    putEnd := PutAll(buf, off, xs);
    SpliceAround(old(buf[..]), off, EncodeAll(xs));
    ys, getEnd := GetAll(buf, off, Kinds(xs));
    EncodeAllInjective(xs, ys);
  }
}
