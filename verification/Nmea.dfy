/** The byte-fed parser of nmea/nmea.c, proved against NmeaSpec. */
module Nmea {
  import opened Machine
  import opened Text
  import opened TimeShift
  import opened NmeaSpec
  import opened NmeaLaws

  datatype State = WAIT_DOLLAR | IN_BODY | AFTER_STAR | AFTER_CSUM

  lemma SubSlice(a: array<byte>, n: nat, i: nat, j: nat)
    requires i <= j <= n <= a.Length
    ensures a[i..j] == a[..n][i..j]
  {}

  /** `field_at`: the field with index `which` is line[start..start + len]. */
  method FieldAt(line: array<byte>, lineLen: nat, which: nat) returns (found: bool, start: nat, len: nat)
    requires lineLen <= line.Length && lineLen < 0xFFFF
    ensures found <==> which < |Fields(line[..lineLen])|
    ensures found ==> start + len <= lineLen
                      && line[start..start + len] == Fields(line[..lineLen])[which]
  {
    ghost var s := line[..lineLen];
    start := 0;
    var k := 0;
    var i := 0;
    assert Scanned(s, i, start, k);
    hide Fields, Scanned;
    while i <= lineLen
      invariant 0 <= start <= i <= lineLen + 1
      invariant i <= lineLen ==> Scanned(s, i, start, k)
      invariant i == lineLen + 1 ==> k == |Fields(s)|
      invariant k <= which
    {
      if i == lineLen || line[i] == COMMA {
        ScanField(s, i, start, k);
        if k == which {
          SubSlice(line, lineLen, start, i);
          return true, start, i - start;
        }
        if i < lineLen { ScanStep(s, i, start, k); }
        k := k + 1;
        start := i + 1;
      } else {
        ScanStep(s, i, start, k);
      }
      i := i + 1;
    }
    return false, 0, 0;
  }

  class Parser<D> {
    const ops: FloatOps<D>
    var rmc: RmcFix<D>
    var gga: GgaFix<D>
    var gsa: GsaFix<D>
    var state: State
    const line: array<byte>
    var lineLen: uint16
    var overflow: bool
    var computedCsum: byte
    const csumBuf: array<byte>
    var csumLen: uint8
    ghost var fed: seq<byte>        // every byte fed since Init
    ghost var log: seq<Event<D>>    // what the callback was told

    ghost predicate Shape()
      reads this
    {
      line.Length == LINE_MAX + 1 && csumBuf.Length == 2 && line != csumBuf
    }

    /** The fields hold the line that has been framed so far, capped. */
    ghost predicate Holds(f: Framing)
      reads this, line, csumBuf
    {
      Shape() && match f
      case NoDollar => state == WAIT_DOLLAR
      case InBody(body) => state == IN_BODY && HoldsBody(body) && csumLen == 0
      case InSum(body, sum) =>
        HoldsBody(body)
        && state == (if |sum| < 2 then AFTER_STAR else AFTER_CSUM)
        && csumLen == Min(|sum|, 2) && csumBuf[..csumLen] == sum[..csumLen]
    }

    ghost predicate HoldsBody(body: seq<byte>)
      requires Shape()
      reads this, line
    {
      && lineLen == Min(|body|, LINE_MAX)
      && line[..lineLen] == body[..lineLen]
      && computedCsum == XorAll(body[..lineLen])
      && overflow == (|body| > LINE_MAX)
    }

    ghost predicate HoldsSnapshots()
      reads this
    {
      Snapshots(rmc, gga, gsa) == Latest(ops, log)
    }

    /** The parser stands for the stream it was fed: its callbacks are those of
        the finished lines, and its buffers hold the unfinished one. */
    ghost predicate Valid()
      reads this, line, csumBuf
    {
      && Holds(FramingOf(Tail(fed)))
      && log == Events(ops, fed)
      && HoldsSnapshots()
    }

    constructor Init(ops: FloatOps<D>)
      ensures Valid() && fresh(line) && fresh(csumBuf)
      ensures fed == [] && log == [] && this.ops == ops
      ensures var z := ops.zero;
        && rmc == RmcFix(Time(0, 0, 0), Date(0, 0, 0), 0, 0, 0, 0, z, z, z, z)
        && gga == GgaFix(Time(0, 0, 0), 0, 0, 0, z, z, 0, z, z) && gsa == GsaFix(0, 0, z, z, z)
    {
      this.ops := ops;
      var none := NoFix(ops);
      rmc, gga, gsa := none.rmc, none.gga, none.gsa;
      state := WAIT_DOLLAR;
      line := new byte[LINE_MAX + 1](_ => 0);
      csumBuf := new byte[2](_ => 0);
      lineLen, overflow, computedCsum, csumLen := 0, false, 0, 0;
      fed, log := [], [];
    }

    method ResetState()
      requires Shape()
      modifies this`state, this`lineLen, this`overflow, this`computedCsum, this`csumLen
      ensures Holds(NoDollar)
    {
      state := WAIT_DOLLAR;
      lineLen, overflow, computedCsum, csumLen := 0, false, 0, 0;
    }

    // The pattern "field_at returned a field and it is not empty".
    method GetField(which: nat) returns (f: seq<byte>)
      requires Shape() && lineLen <= LINE_MAX
      ensures f == Field(line[..lineLen], which)
    {
      var found, start, len := FieldAt(line, lineLen, which);
      f := if found then line[start..start + len] else [];
    }

    method DecodeRmc()
      requires Shape() && lineLen <= LINE_MAX
      modifies this`rmc
      ensures rmc == RmcOf(ops, line[..lineLen])
    {
      var time := GetField(1);
      var valid := GetField(2);
      var lat := GetField(3);
      var ns := GetField(4);
      var lon := GetField(5);
      var ew := GetField(6);
      var speed := GetField(7);
      var course := GetField(8);
      var date := GetField(9);
      var posMode := GetField(12);
      rmc := RmcFix(HmsOf(time), DmyOf(date), First(valid), First(posMode), First(ns), First(ew),
                    AngleOf(ops, lat, First(ns), SOUTH), AngleOf(ops, lon, First(ew), WEST),
                    NumberOf(ops, speed), NumberOf(ops, course));
    }

    method DecodeGga()
      requires Shape() && lineLen <= LINE_MAX
      modifies this`gga
      ensures gga == GgaOf(ops, line[..lineLen])
    {
      var time := GetField(1);
      var lat := GetField(2);
      var ns := GetField(3);
      var lon := GetField(4);
      var ew := GetField(5);
      var fix := GetField(6);
      var sats := GetField(7);
      var hdop := GetField(8);
      var altitude := GetField(9);
      gga := GgaFix(HmsOf(time), First(ns), First(ew), First(fix),
                    AngleOf(ops, lat, First(ns), SOUTH), AngleOf(ops, lon, First(ew), WEST),
                    if sats == [] then 0 else CountOf(sats),
                    NumberOf(ops, hdop), NumberOf(ops, altitude));
    }

    method DecodeGsa()
      requires Shape() && lineLen <= LINE_MAX
      modifies this`gsa
      ensures gsa == GsaOf(ops, line[..lineLen])
    {
      var mode := GetField(1);
      var fix := GetField(2);
      var pdop := GetField(15);
      var hdop := GetField(16);
      var vdop := GetField(17);
      gsa := GsaFix(First(mode), First(fix), NumberOf(ops, pdop), NumberOf(ops, hdop), NumberOf(ops, vdop));
    }

    /** Decodes an accepted line and tells the callback. */
    method DispatchLine()
      requires Shape() && lineLen <= LINE_MAX && HoldsSnapshots()
      modifies this`rmc, this`gga, this`gsa, this`log
      ensures log == old(log) + BodyEvents(ops, line[..lineLen])
      ensures HoldsSnapshots()
    {
      hide RmcOf, GgaOf, GsaOf, NoFix, Latest;
      ghost var body := line[..lineLen];
      if lineLen < 6 { return; }
      if line[5] != COMMA { return; }
      assert body[2..5] == [line[2], line[3], line[4]];
      ghost var e: Event<D>;
      if line[2] == 0x52 && line[3] == 0x4D && line[4] == 0x43 {
        DecodeRmc();
        e := Rmc(rmc);
      } else if line[2] == 0x47 && line[3] == 0x47 && line[4] == 0x41 {
        DecodeGga();
        e := Gga(gga);
      } else if line[2] == 0x47 && line[3] == 0x53 && line[4] == 0x41 {
        DecodeGsa();
        e := Gsa(gsa);
      } else {
        return;
      }
      LatestSnoc(ops, log, e);
      log := log + [e];
    }

    /** The CR or LF that ends a complete sentence. */
    method FinishSentence(ghost body: seq<byte>, ghost sum: seq<byte>)
      requires Holds(InSum(body, sum)) && |sum| >= 2 && HoldsSnapshots()
      modifies this
      ensures Holds(NoDollar) && HoldsSnapshots()
      ensures fed == old(fed)
      ensures log == old(log) + if |body| <= LINE_MAX && SumMatches(body, sum[0], sum[1])
                                then BodyEvents(ops, body) else []
    {
      assert csumBuf[0] == csumBuf[..csumLen][0] && csumBuf[1] == csumBuf[..csumLen][1];
      if !overflow {
        assert body[..lineLen] == body;
        var hi, lo := HexNibble(csumBuf[0]), HexNibble(csumBuf[1]);
        if hi.Some? && lo.Some? {
          var expected := TwoHex(hi.value, lo.value);
          if expected == computedCsum {
            DispatchLine();
          }
        }
      }
      ResetState();
    }

    /** One more body byte: kept while there is room, counted as overflow after. */
    method AppendBody(b: byte, ghost body: seq<byte>)
      requires Holds(InBody(body)) && b != STAR && !IsEol(b)
      modifies this`lineLen, this`computedCsum, this`overflow, line
      ensures Holds(InBody(body + [b]))
    {
      if lineLen < LINE_MAX {
        line[lineLen] := b;
        lineLen := lineLen + 1;
        computedCsum := computedCsum ^ b;
        assert (body + [b])[..lineLen] == body[..lineLen - 1] + [b];
        XorSnoc(body, b);
        assert body[..lineLen - 1] == body;
      } else {
        overflow := true;
        assert (body + [b])[..lineLen] == body[..lineLen];
      }
    }

    /** One more byte after the '*': the first two are kept. */
    method AppendSum(b: byte, ghost body: seq<byte>, ghost sum: seq<byte>)
      requires Holds(InSum(body, sum)) && |sum| < 2
      modifies this`state, this`csumLen, csumBuf
      ensures Holds(InSum(body, sum + [b]))
    {
      if csumLen < 2 {
        csumBuf[csumLen] := b;
        csumLen := csumLen + 1;
        if csumLen == 2 { state := AFTER_CSUM; }
      }
    }

    /** The switch on the state: f is the framing of the unfinished line. */
    method FrameByte(b: byte, ghost f: Framing)
      requires Holds(f) && HoldsSnapshots()
      modifies this, line, csumBuf
      ensures Holds(if IsEol(b) then NoDollar else Longer(f, b)) && HoldsSnapshots()
      ensures log == old(log) + if IsEol(b) then AcceptedEvents(ops, Accepted(f)) else []
      ensures fed == old(fed)
    {
      hide SumMatches, BodyEvents, Latest;
      match state
      case WAIT_DOLLAR =>
        if b == DOLLAR {
          state := IN_BODY;
          lineLen, overflow, computedCsum, csumLen := 0, false, 0, 0;
        }
      case IN_BODY =>
        if b == STAR {
          state := AFTER_STAR;
        } else if b == CR || b == LF {
          ResetState();
        } else {
          AppendBody(b, f.body);
        }
      case AFTER_STAR =>
        if b == CR || b == LF {
          ResetState();
        } else {
          AppendSum(b, f.body, f.sum);
        }
      case AFTER_CSUM =>
        if b == CR || b == LF {
          FinishSentence(f.body, f.sum);
        } else {
          assert (f.sum + [b])[..csumLen] == f.sum[..csumLen];
        }
    }

    method FeedByte(b: byte)
      requires Valid()
      modifies this, line, csumBuf
      ensures Valid()
      ensures fed == old(fed) + [b]
      ensures log == Events(ops, fed) && Snapshots(rmc, gga, gsa) == Latest(ops, Events(ops, fed))
    {
      hide FramingOf, Tail, Lines, Events, Latest, Accepted;
      StreamStep(ops, fed, b);
      FrameByte(b, FramingOf(Tail(fed)));
      fed := fed + [b];
    }

    method Feed(buf: array<byte>, len: nat) returns (count: nat)
      requires Valid() && len <= buf.Length && buf != line && buf != csumBuf
      modifies this, line, csumBuf
      ensures Valid() && fed == old(fed) + old(buf[..len])
      ensures log == Events(ops, fed) && Snapshots(rmc, gga, gsa) == Latest(ops, Events(ops, fed))
      ensures count == 0
    {
      hide FramingOf, Tail, Events, Latest;
      for i := 0 to len
        invariant Valid() && fed == old(fed) + buf[..i]
      {
        FeedByte(buf[i]);
      }
      return 0;
    }
  }
}
