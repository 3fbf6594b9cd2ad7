/** The Remaining Length field of section 2.2.3 of MQTT 3.1.1, and the two C
    functions that write and size it. */
module Varint {
  import opened Machine
  import opened ByteStream

  const LIMIT := 0x1000_0000  // 2^28, one past the largest encodable length

  /** Seven bits a byte, least significant first, bit 7 set on all but the last. */
  function Encoding(v: nat): (s: seq<uint8>)
    ensures s != []
  {
    if v < 128 then [v] else [v % 128 + 128] + Encoding(v / 128)
  }

  /** The decoding algorithm of the standard: the value and the bytes used, or
      nothing when input runs out or more than `most` bytes would be needed. */
  function DecodeLength(s: seq<uint8>, most: nat): Option<(nat, nat)>
    decreases most
  {
    if most == 0 || s == [] then None
    else if s[0] < 128 then Some((s[0], 1))
    else match DecodeLength(s[1..], most - 1)
      case None => None
      case Some((v, used)) => Some((s[0] - 128 + 128 * v, 1 + used))
  }

  function Capacity(most: nat): nat {
    if most == 0 then 1 else 128 * Capacity(most - 1)
  }

  lemma FourBytesCapacity()
    ensures Capacity(4) == LIMIT
  {
    assert Capacity(1) == 128;
    assert Capacity(2) == 16384;
    assert Capacity(3) == 2097152;
  }

  lemma {:induction false} DecodeEncoding(v: nat, most: nat, rest: seq<uint8>)
    requires v < Capacity(most) && most >= 1
    ensures DecodeLength(Encoding(v) + rest, most) == Some((v, |Encoding(v)|))
    ensures |Encoding(v)| <= most
    decreases most
  {
    if v >= 128 {
      if most == 1 {
        assert false;
      }
      DecodeEncoding(v / 128, most - 1, rest);
      assert (Encoding(v) + rest)[1..] == Encoding(v / 128) + rest;
    }
  }

  /** The standard's decoder inverts the encoder on every length below 2^28. */
  lemma RoundTrip(v: nat, rest: seq<uint8>)
    requires v < LIMIT
    ensures DecodeLength(Encoding(v) + rest, 4) == Some((v, |Encoding(v)|))
    ensures |Encoding(v)| <= 4
  {
    FourBytesCapacity();
    DecodeEncoding(v, 4, rest);
  }

  lemma {:induction false} ShortestGeneral(s: seq<uint8>, most: nat)
    requires DecodeLength(s, most).Some?
    ensures var (v, used) := DecodeLength(s, most).value;
      |Encoding(v)| <= used <= |s| && v < Capacity(most)
    decreases most
  {
    if s[0] >= 128 {
      ShortestGeneral(s[1..], most - 1);
    } else {
      CapacityPositive(most - 1);
    }
  }

  lemma {:induction false} CapacityPositive(most: nat)
    ensures Capacity(most) >= 1
  {
    if most > 0 { CapacityPositive(most - 1); }
  }

  /** No byte string that decodes to v is shorter than the encoding of v, and
      nothing decodes to 2^28 or more. */
  lemma Shortest(s: seq<uint8>)
    requires DecodeLength(s, 4).Some?
    ensures |Encoding(DecodeLength(s, 4).value.0)| <= DecodeLength(s, 4).value.1
    ensures DecodeLength(s, 4).value.0 < LIMIT
  {
    ShortestGeneral(s, 4);
    FourBytesCapacity();
  }

  /** No encoding is a proper prefix of another. */
  lemma PrefixFree(v: nat, w: nat)
    requires v < LIMIT && w < LIMIT && Encoding(v) <= Encoding(w)
    ensures v == w
  {
    RoundTrip(v, Encoding(w)[|Encoding(v)|..]);
    RoundTrip(w, []);
    assert Encoding(w) == Encoding(v) + Encoding(w)[|Encoding(v)|..];
    assert Encoding(w) + [] == Encoding(w);
  }

  function VarintSize(value: uint32): int {
    if value < 128 then 1
    else if value < 16384 then 2
    else if value < 2097152 then 3
    else if value < 268435456 then 4
    else 0
  }

  /** The smallest and the largest length of each size, as in table 2.4 of the
      standard. */
  lemma SizeTable()
    ensures Encoding(0) == [0x00] && Encoding(127) == [0x7F]
    ensures Encoding(128) == [0x80, 0x01] && Encoding(16383) == [0xFF, 0x7F]
    ensures Encoding(16384) == [0x80, 0x80, 0x01] && Encoding(2097151) == [0xFF, 0xFF, 0x7F]
    ensures Encoding(2097152) == [0x80, 0x80, 0x80, 0x01] && Encoding(268435455) == [0xFF, 0xFF, 0xFF, 0x7F]
  {
    assert Encoding(128) == [0x80] + Encoding(1);
    assert Encoding(16384) == [0x80] + Encoding(128);
    assert Encoding(2097152) == [0x80] + Encoding(16384);
    assert Encoding(16383) == [0xFF] + Encoding(127);
    assert Encoding(2097151) == [0xFF] + Encoding(16383);
    assert Encoding(268435455) == [0xFF] + Encoding(2097151);
  }

  /** `varint_size` is the length of the encoding, or 0 when there is none. */
  lemma SizeIsLength(v: uint32)
    ensures VarintSize(v) == if v < LIMIT then |Encoding(v)| else 0
    ensures v >= LIMIT ==> |Encoding(v)| == 5
  {
    var a, b, c, d := v / 128, v / 128 / 128, v / 128 / 128 / 128, v / 128 / 128 / 128 / 128;
    assert v >= 128 ==> |Encoding(v)| == 1 + |Encoding(a)|;
    assert a >= 128 ==> |Encoding(a)| == 1 + |Encoding(b)|;
    assert b >= 128 ==> |Encoding(b)| == 1 + |Encoding(c)|;
    assert c >= 128 ==> |Encoding(c)| == 1 + |Encoding(d)|;
  }

  lemma EncodingTail(w: seq<uint8>, n: nat, v: nat)
    requires n <= |w| && Encoding(v) == w[n..]
    ensures n < |w| && w[n] == v % 128 + if v / 128 > 0 then 128 else 0
    ensures if v / 128 > 0 then n + 1 < |w| && Encoding(v / 128) == w[n + 1..] else n + 1 == |w|
  {
    assert w[n] == w[n..][0];
    assert w[n..][1..] == w[n + 1..];
  }

  lemma SpliceNext(before: seq<uint8>, off: nat, w: seq<uint8>, n: nat)
    requires n < |w| && off + n < |before|
    ensures Splice(before, off, w[..n])[off + n := w[n]] == Splice(before, off, w[..n + 1])
  {
    assert w[..n + 1] == w[..n] + [w[n]];
  }

  // out[n] = b, where b is the next byte of w.
  method PutNext(buf: array<uint8>, off: nat, b: uint8, n: nat, ghost was: seq<uint8>, ghost w: seq<uint8>)
    requires n < |w| && off + n < buf.Length == |was| && b == w[n]
    requires buf[..] == Splice(was, off, w[..n])
    modifies buf
    ensures buf[..] == Splice(was, off, w[..n + 1])
  {
    SpliceNext(was, off, w, n);
    hide Splice;
    buf[off + n] := b;
  }

  // Bytes that put_varint leaves in the buffer; too large a value gets four.
  function Written(v: uint32): (s: seq<uint8>)
    ensures |s| <= 4
  {
    SizeIsLength(v);
    if v < LIMIT then Encoding(v) else Encoding(v)[..4]
  }

  method PutVarint(buf: array<uint8>, off: nat, value: uint32) returns (n: nat)
    requires off + |Written(value)| <= buf.Length
    modifies buf
    ensures n == if value < LIMIT then |Encoding(value)| else 0
    ensures buf[..] == Splice(old(buf[..]), off, Written(value))
  {
    SizeIsLength(value);
    ghost var w := Encoding(value);
    assert w[..0] == [];
    assert buf[..] == Splice(buf[..], off, []);
    assert Written(value) == if value < LIMIT then w else w[..4];
    hide Splice, VarintSize, Written, Encoding;
    n := 0;
    var v := value;
    var more := true;
    while more
      invariant n <= 4 && n <= |w| && off + n <= buf.Length
      invariant more ==> n < 4 && Encoding(v) == w[n..]
      invariant !more && v > 0 ==> n == 4 && n < |w|
      invariant !more && v == 0 ==> n == |w|
      invariant buf[..] == Splice(old(buf[..]), off, w[..n])
      decreases 4 - n, more
    {
      EncodingTail(w, n, v);
      var b := v % 128;
      v := v / 128;
      if v > 0 { b := b + 128; }
      PutNext(buf, off, b, n, old(buf[..]), w);
      n := n + 1;
      more := v > 0 && n < 4;
    }
    assert w[..|w|] == w;
    n := if v > 0 then 0 else n;
  }
}
