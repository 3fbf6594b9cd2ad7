/** From a time and a date to RMC text and back through the decoder. */
module NmeaRoundTrip {
  import opened Machine
  import opened Text
  import opened TimeShift
  import opened NmeaSpec
  import opened NmeaLaws

  function Pad2(n: int): seq<byte>
    requires 0 <= n < 100
  {
    [DigitByte(n / 10), DigitByte(n % 10)]
  }

  lemma DecimalPad2(n: int)
    requires 0 <= n < 100
    ensures Decimal(Pad2(n)) == n
  {
    var s := Pad2(n);
    assert Decimal(s) == Numeral(s, 0);
    assert Numeral(s, 0) == Numeral(s[1..], n / 10);
    assert s[1..] == [DigitByte(n % 10)];
    assert Numeral(s[1..], n / 10) == Numeral(s[1..][1..], n);
  }

  function PrintSix(a: int, b: int, c: int): seq<byte>
    requires 0 <= a < 100 && 0 <= b < 100 && 0 <= c < 100
  {
    Pad2(a) + Pad2(b) + Pad2(c)
  }

  lemma SixRoundTrip(a: int, b: int, c: int, rest: seq<byte>)
    requires 0 <= a < 100 && 0 <= b < 100 && 0 <= c < 100
    ensures var f := PrintSix(a, b, c) + rest;
      HmsOf(f) == Time(a, b, c) && DmyOf(f) == Date(a, b, c)
  {
    var f := PrintSix(a, b, c) + rest;
    DecimalPad2(a);
    DecimalPad2(b);
    DecimalPad2(c);
    assert f[0..2] == Pad2(a);
    assert f[2..4] == Pad2(b);
    assert f[4..6] == Pad2(c);
  }

  lemma {:induction false} JoinStart(fs: seq<seq<byte>>)
    requires |fs| >= 2
    ensures |Join(fs)| > |fs[0]|
    ensures Join(fs)[..|fs[0]| + 1] == fs[0] + [COMMA]
    decreases |fs|
  {
    var p := fs[..|fs| - 1];
    if |fs| > 2 {
      JoinStart(p);
      assert Join(fs)[..|fs[0]| + 1] == Join(p)[..|fs[0]| + 1];
    } else {
      assert Join(p) == fs[0];
    }
  }

  const RMC_ID: seq<byte> := [0x52, 0x4D, 0x43]

  /** The fields of an RMC sentence that carries time t and date d. */
  predicate RmcFields(fs: seq<seq<byte>>, t: Time, d: Date) {
    && |fs| >= 10
    && (forall k :: 0 <= k < |fs| ==> NoComma(fs[k]))
    && |fs[0]| == 5 && fs[0][2..] == RMC_ID
    && ValidTime(t) && t.s < 100 && PrintSix(t.h, t.m, t.s) <= fs[1]
    && d.d < 100 && d.m < 100 && d.y < 100 && PrintSix(d.d, d.m, d.y) <= fs[9]
  }

  lemma RmcKind(fs: seq<seq<byte>>, t: Time, d: Date)
    requires RmcFields(fs, t, d)
    ensures KindOf(Join(fs)) == Some(RMC)
  {
    JoinStart(fs);
    var b := Join(fs);
    assert b[..6] == fs[0] + [COMMA];
    assert b[2..5] == b[..6][2..5];
    assert b[2..5] == fs[0][2..];
    assert b[5] == b[..6][5];
  }

  lemma RmcDecodes<D>(ops: FloatOps<D>, fs: seq<seq<byte>>, t: Time, d: Date)
    requires RmcFields(fs, t, d)
    ensures BodyEvents(ops, Join(fs)) == [Rmc(RmcOf(ops, Join(fs)))]
    ensures RmcOf(ops, Join(fs)).time == t && RmcOf(ops, Join(fs)).date == d
    ensures var r := RmcOf(ops, Join(fs));
      r.valid == First(fs[2]) && r.ns == First(fs[4]) && r.ew == First(fs[6])
  {
    RmcKind(fs, t, d);
    FieldsJoin(fs);
    SixRoundTrip(t.h, t.m, t.s, fs[1][6..]);
    SixRoundTrip(d.d, d.m, d.y, fs[9][6..]);
    assert fs[1] == PrintSix(t.h, t.m, t.s) + fs[1][6..];
    assert fs[9] == PrintSix(d.d, d.m, d.y) + fs[9][6..];
  }

  /** A printed RMC sentence fires one RMC event that holds its time and date. */
  lemma RmcRoundTrip<D>(ops: FloatOps<D>, before: seq<byte>, fs: seq<seq<byte>>, t: Time, d: Date)
    returns (r: RmcFix<D>)
    requires Tail(before) == [] && RmcFields(fs, t, d)
    requires |Join(fs)| <= LINE_MAX && IndexOf(Join(fs), STAR) == |Join(fs)| && NoEol(Join(fs))
    ensures Events(ops, before + PrintSentence(Join(fs))) == Events(ops, before) + [Rmc(r)]
    ensures r.time == t && r.date == d
    ensures r.valid == First(fs[2]) && r.ns == First(fs[4]) && r.ew == First(fs[6])
    ensures Latest(ops, Events(ops, before) + [Rmc(r)]).rmc == r
  {
    r := RmcOf(ops, Join(fs));
    RmcDecodes(ops, fs, t, d);
    PrintedDelivered(ops, before, [], Join(fs));
    assert before + [] == before;
    LatestSnoc(ops, Events(ops, before), Rmc(r));
  }
}
