/** What each sentence decodes to, told on its list of fields. */
module NmeaDecode {
  import opened Machine
  import opened Text
  import opened TimeShift
  import opened NmeaSpec
  import opened NmeaLaws
  import opened NmeaChecksum
  import NmeaRoundTrip

  // A field that is not there reads as empty.
  function Nth(fs: seq<seq<byte>>, k: nat): seq<byte> { if k < |fs| then fs[k] else [] }

  /** The first byte of the field, 0 when there is none. */
  predicate Lead(f: seq<byte>, b: byte) { b == if f == [] then 0 else f[0] }

  // The number 0-99 as two digits at i.
  predicate TwoAt(f: seq<byte>, i: nat, n: int) {
    0 <= n < 100 && i + 2 <= |f| && f[i] == DIGITS[n / 10] && f[i + 1] == DIGITS[n % 10]
  }

  predicate SixAt(f: seq<byte>, a: int, b: int, c: int) {
    TwoAt(f, 0, a) && TwoAt(f, 2, b) && TwoAt(f, 4, c)
  }

  ghost predicate TimeMeans(f: seq<byte>, t: Time) {
    && (|f| < 6 ==> t == Time(0, 0, 0))
    && forall h, m, s :: SixAt(f, h, m, s) ==> t == Time(h, m, s)
  }

  ghost predicate DateMeans(f: seq<byte>, t: Date) {
    && (|f| < 6 ==> t == Date(0, 0, 0))
    && forall d, m, y :: SixAt(f, d, m, y) ==> t == Date(d, m, y)
  }

  predicate Zeros(z: seq<byte>) { forall i :: 0 <= i < |z| ==> z[i] == 0x30 }

  // f is k in decimal, zeros in front allowed.
  predicate Prints(f: seq<byte>, z: seq<byte>, k: nat) {
    Zeros(z) && k < 0x8000_0000 && f == z + PrintNat(k)
  }

  /** A count is kept in 8 bits; a field of 12 bytes or more is not read. */
  ghost predicate CountMeans(f: seq<byte>, n: uint8) {
    && (f == [] || |f| >= 12 ==> n == 0)
    && (|f| <= 11 ==> forall z, k: nat :: Prints(f, z, k) ==> n == k % 256)
  }

  ghost predicate ValueMeans<D>(ops: FloatOps<D>, f: seq<byte>, x: D) {
    x == if f == [] then ops.zero else ops.number(f)
  }

  // Negated behind the given letter, in either case.
  ghost predicate AngleMeans<D>(ops: FloatOps<D>, f: seq<byte>, hemi: seq<byte>, upper: byte, lower: byte, x: D) {
    x == if f == [] then ops.zero
         else if hemi != [] && (hemi[0] == upper || hemi[0] == lower) then ops.neg(ops.angle(f))
         else ops.angle(f)
  }

  ghost predicate RmcMeans<D>(ops: FloatOps<D>, fs: seq<seq<byte>>, r: RmcFix<D>) {
    && TimeMeans(Nth(fs, 1), r.time) && Lead(Nth(fs, 2), r.valid)
    && AngleMeans(ops, Nth(fs, 3), Nth(fs, 4), 0x53, 0x73, r.lat) && Lead(Nth(fs, 4), r.ns)
    && AngleMeans(ops, Nth(fs, 5), Nth(fs, 6), 0x57, 0x77, r.lon) && Lead(Nth(fs, 6), r.ew)
    && ValueMeans(ops, Nth(fs, 7), r.speed) && ValueMeans(ops, Nth(fs, 8), r.course)
    && DateMeans(Nth(fs, 9), r.date) && Lead(Nth(fs, 12), r.posMode)
  }

  ghost predicate GgaMeans<D>(ops: FloatOps<D>, fs: seq<seq<byte>>, g: GgaFix<D>) {
    && TimeMeans(Nth(fs, 1), g.time)
    && AngleMeans(ops, Nth(fs, 2), Nth(fs, 3), 0x53, 0x73, g.lat) && Lead(Nth(fs, 3), g.ns)
    && AngleMeans(ops, Nth(fs, 4), Nth(fs, 5), 0x57, 0x77, g.lon) && Lead(Nth(fs, 5), g.ew)
    && Lead(Nth(fs, 6), g.fixStatus) && CountMeans(Nth(fs, 7), g.satsUsed)
    && ValueMeans(ops, Nth(fs, 8), g.hdop) && ValueMeans(ops, Nth(fs, 9), g.altitude)
  }

  ghost predicate GsaMeans<D>(ops: FloatOps<D>, fs: seq<seq<byte>>, s: GsaFix<D>) {
    && Lead(Nth(fs, 1), s.mode) && Lead(Nth(fs, 2), s.fix3d)
    && ValueMeans(ops, Nth(fs, 15), s.pdop) && ValueMeans(ops, Nth(fs, 16), s.hdop)
    && ValueMeans(ops, Nth(fs, 17), s.vdop)
  }

  /** Two bytes of talker, these three letters, and a comma. */
  predicate Tagged(body: seq<byte>, a: byte, b: byte, c: byte) {
    |body| >= 6 && body[2] == a && body[3] == b && body[4] == c && body[5] == 0x2C
  }

  predicate IsRmc(body: seq<byte>) { Tagged(body, 0x52, 0x4D, 0x43) }
  predicate IsGga(body: seq<byte>) { Tagged(body, 0x47, 0x47, 0x41) }
  predicate IsGsa(body: seq<byte>) { Tagged(body, 0x47, 0x53, 0x41) }

  ghost predicate EventMeans<D>(ops: FloatOps<D>, fs: seq<seq<byte>>, e: Event<D>)
    requires |fs| >= 1
  {
    match e
    case Rmc(r) => IsRmc(Join(fs)) && RmcMeans(ops, fs, r)
    case Gga(g) => IsGga(Join(fs)) && GgaMeans(ops, fs, g)
    case Gsa(s) => IsGsa(Join(fs)) && GsaMeans(ops, fs, s)
  }

  lemma DigitsPad(f: seq<byte>, i: nat, n: int)
    requires TwoAt(f, i, n)
    ensures 0 <= n < 100 && i + 2 <= |f| && f[i..i + 2] == NmeaRoundTrip.Pad2(n)
  {}

  lemma SixSplit(f: seq<byte>)
    requires |f| >= 6
    ensures f == f[0..2] + f[2..4] + f[4..6] + f[6..]
  {}

  lemma SixSlices(f: seq<byte>, a: int, b: int, c: int)
    requires |f| >= 6 && 0 <= a < 100 && 0 <= b < 100 && 0 <= c < 100
    requires f[0..2] == NmeaRoundTrip.Pad2(a) && f[2..4] == NmeaRoundTrip.Pad2(b)
    requires f[4..6] == NmeaRoundTrip.Pad2(c)
    ensures HmsOf(f) == Time(a, b, c) && DmyOf(f) == Date(a, b, c)
  {
    hide HmsOf, DmyOf, NmeaRoundTrip.Pad2;
    SixSplit(f);
    NmeaRoundTrip.SixRoundTrip(a, b, c, f[6..]);
  }

  lemma SixPrinted(f: seq<byte>, a: int, b: int, c: int)
    requires SixAt(f, a, b, c)
    ensures HmsOf(f) == Time(a, b, c) && DmyOf(f) == Date(a, b, c)
  {
    hide TwoAt, HmsOf, DmyOf, NmeaRoundTrip.Pad2;
    DigitsPad(f, 0, a);
    DigitsPad(f, 2, b);
    DigitsPad(f, 4, c);
    SixSlices(f, a, b, c);
  }

  lemma HmsMeans(f: seq<byte>)
    ensures TimeMeans(f, HmsOf(f)) && DateMeans(f, DmyOf(f))
  {
    assert |f| < 6 ==> HmsOf(f) == Time(0, 0, 0) && DmyOf(f) == Date(0, 0, 0);
    hide HmsOf, DmyOf, SixAt;
    forall a, b, c | SixAt(f, a, b, c) ensures HmsOf(f) == Time(a, b, c) && DmyOf(f) == Date(a, b, c) {
      SixPrinted(f, a, b, c);
    }
  }

  lemma {:induction false} NumeralZeros(z: seq<byte>)
    requires Zeros(z)
    ensures AllDigits(z) && Numeral(z, 0) == 0
    decreases |z|
  {
    if z != [] { NumeralZeros(z[1..]); }
  }

  lemma DigitsDecimal(f: seq<byte>)
    requires AllDigits(f)
    ensures Decimal(f) == Numeral(f, 0)
  {}

  lemma DigitsAppend(a: seq<byte>, b: seq<byte>)
    requires AllDigits(a) && AllDigits(b)
    ensures AllDigits(a + b)
  {}

  lemma CountPrinted(f: seq<byte>, z: seq<byte>, k: nat)
    requires Prints(f, z, k) && |f| <= 11
    ensures CountOf(f) == k % 256 && f != []
  {
    hide PrintNat, Zeros, Numeral, Decimal, AllDigits;
    NumeralZeros(z);
    NumeralAppend(z, PrintNat(k), 0);
    NumeralPrint(k);
    DigitsAppend(z, PrintNat(k));
    DigitsDecimal(f);
  }

  lemma CountOfMeans(f: seq<byte>)
    ensures CountMeans(f, if f == [] then 0 else CountOf(f))
  {
    assert |f| >= 12 ==> CountOf(f) == 0;
    hide CountOf, Prints;
    forall z, k: nat | Prints(f, z, k) && |f| <= 11 ensures f != [] && CountOf(f) == k % 256 {
      CountPrinted(f, z, k);
    }
  }

  lemma FieldNth(fs: seq<seq<byte>>, k: nat)
    requires |fs| >= 1 && forall i :: 0 <= i < |fs| ==> NoComma(fs[i])
    ensures Field(Join(fs), k) == Nth(fs, k)
  {
    FieldsJoin(fs);
  }

  lemma AnglesMean<D>(ops: FloatOps<D>, f: seq<byte>, hemi: seq<byte>)
    ensures AngleMeans(ops, f, hemi, 0x53, 0x73, AngleOf(ops, f, First(hemi), SOUTH))
    ensures AngleMeans(ops, f, hemi, 0x57, 0x77, AngleOf(ops, f, First(hemi), WEST))
    ensures ValueMeans(ops, f, NumberOf(ops, f)) && Lead(f, First(f))
  {}

  lemma RmcDecoded<D>(ops: FloatOps<D>, fs: seq<seq<byte>>)
    requires |fs| >= 1 && forall i :: 0 <= i < |fs| ==> NoComma(fs[i])
    ensures RmcMeans(ops, fs, RmcOf(ops, Join(fs)))
  {
    hide Field, Join, HmsOf, DmyOf, AngleOf, NumberOf, First, AngleMeans, ValueMeans, Lead, TimeMeans, DateMeans, NoComma, Nth;
    forall k: nat ensures Field(Join(fs), k) == Nth(fs, k) { FieldNth(fs, k); }
    forall f ensures TimeMeans(f, HmsOf(f)) && DateMeans(f, DmyOf(f)) { HmsMeans(f); }
    AnglesMean(ops, Nth(fs, 3), Nth(fs, 4));
    AnglesMean(ops, Nth(fs, 5), Nth(fs, 6));
    AnglesMean(ops, Nth(fs, 2), []);
    AnglesMean(ops, Nth(fs, 4), []);
    AnglesMean(ops, Nth(fs, 6), []);
    AnglesMean(ops, Nth(fs, 7), []);
    AnglesMean(ops, Nth(fs, 8), []);
    AnglesMean(ops, Nth(fs, 12), []);
  }

  lemma GgaDecoded<D>(ops: FloatOps<D>, fs: seq<seq<byte>>)
    requires |fs| >= 1 && forall i :: 0 <= i < |fs| ==> NoComma(fs[i])
    ensures GgaMeans(ops, fs, GgaOf(ops, Join(fs)))
  {
    hide Field, Join, HmsOf, CountOf, AngleOf, NumberOf, First, AngleMeans, ValueMeans, Lead, TimeMeans, CountMeans, NoComma, Nth;
    forall k: nat ensures Field(Join(fs), k) == Nth(fs, k) { FieldNth(fs, k); }
    HmsMeans(Nth(fs, 1));
    CountOfMeans(Nth(fs, 7));
    AnglesMean(ops, Nth(fs, 2), Nth(fs, 3));
    AnglesMean(ops, Nth(fs, 4), Nth(fs, 5));
    AnglesMean(ops, Nth(fs, 3), []);
    AnglesMean(ops, Nth(fs, 5), []);
    AnglesMean(ops, Nth(fs, 6), []);
    AnglesMean(ops, Nth(fs, 8), []);
    AnglesMean(ops, Nth(fs, 9), []);
  }

  lemma GsaDecoded<D>(ops: FloatOps<D>, fs: seq<seq<byte>>)
    requires |fs| >= 1 && forall i :: 0 <= i < |fs| ==> NoComma(fs[i])
    ensures GsaMeans(ops, fs, GsaOf(ops, Join(fs)))
  {
    hide Field, Join, NumberOf, First, ValueMeans, Lead, NoComma, Nth, AngleMeans;
    forall k: nat ensures Field(Join(fs), k) == Nth(fs, k) { FieldNth(fs, k); }
    AnglesMean(ops, Nth(fs, 1), []);
    AnglesMean(ops, Nth(fs, 2), []);
    AnglesMean(ops, Nth(fs, 15), []);
    AnglesMean(ops, Nth(fs, 16), []);
    AnglesMean(ops, Nth(fs, 17), []);
  }

  lemma TagOf(body: seq<byte>)
    ensures KindOf(body) == if IsRmc(body) then Some(RMC) else if IsGga(body) then Some(GGA)
                            else if IsGsa(body) then Some(GSA) else None
  {
    if |body| >= 6 { assert body[2..5] == [body[2], body[3], body[4]]; }
  }

  predicate Known(body: seq<byte>) { IsRmc(body) || IsGga(body) || IsGsa(body) }

  /** A body with a known tag is one event, whose members come from the fields
      of the layout; any other body is none. */
  lemma BodyMeans<D>(ops: FloatOps<D>, fs: seq<seq<byte>>)
    requires |fs| >= 1 && forall i :: 0 <= i < |fs| ==> NoComma(fs[i])
    ensures var es := BodyEvents(ops, Join(fs));
      |es| == (if Known(Join(fs)) then 1 else 0) && forall k :: 0 <= k < |es| ==> EventMeans(ops, fs, es[k])
  {
    hide Join, RmcOf, GgaOf, GsaOf, RmcMeans, GgaMeans, GsaMeans, NoComma, KindOf, Tagged;
    TagOf(Join(fs));
    RmcDecoded(ops, fs);
    GgaDecoded(ops, fs);
    GsaDecoded(ops, fs);
  }

  /** What the snapshots become. */
  ghost predicate Polled<D>(was: Snapshots<D>, e: Event<D>, now: Snapshots<D>) {
    match e
    case Rmc(r) => now.rmc == r && now.gga == was.gga && now.gsa == was.gsa
    case Gga(g) => now.rmc == was.rmc && now.gga == g && now.gsa == was.gsa
    case Gsa(s) => now.rmc == was.rmc && now.gga == was.gga && now.gsa == s
  }

  /** A sentence in a stream, from its fields to the callback and the snapshot:
      with a known tag and a good checksum it fires once, with the fields
      decoded; otherwise nothing fires. */
  lemma SentenceDecoded<D>(ops: FloatOps<D>, before: seq<byte>, noise: seq<byte>, fs: seq<seq<byte>>,
                           sum: seq<byte>, eol: byte) returns (es: seq<Event<D>>)
    requires AtLineStart(before)
    requires |fs| >= 1 && forall i :: 0 <= i < |fs| ==> NoComma(fs[i])
    requires Frameable(noise, Join(fs), sum, eol)
    ensures Events(ops, before + Framed(noise, Join(fs), sum, eol)) == Events(ops, before) + es
    ensures |es| == if Good(Join(fs), sum) && Known(Join(fs)) then 1 else 0
    ensures |es| == 1 ==> EventMeans(ops, fs, es[0])
    ensures |es| == 1 ==> Polled(Latest(ops, Events(ops, before)), es[0], Latest(ops, Events(ops, before) + es))
  {
    hide Events, BodyEvents, Framed, Frameable, Good, Known, EventMeans, Join, AtLineStart, NoComma, Latest;
    FramedDelivered(ops, before, noise, Join(fs), sum, eol);
    BodyMeans(ops, fs);
    es := if Good(Join(fs), sum) then BodyEvents(ops, Join(fs)) else [];
    if |es| == 1 {
      assert es == [es[0]];
      LatestSnoc(ops, Events(ops, before), es[0]);
    }
  }
}
