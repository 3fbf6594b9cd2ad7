/** What a stream of NMEA 0183 bytes means: the stream is cut into lines, and
    each line is checked as a whole. Nothing here runs byte by byte. */
module NmeaSpec {
  import opened Machine
  import opened Text
  import opened TimeShift

  const LINE_MAX := 96

  predicate IsEol(b: byte) { b == CR || b == LF }

  /** The lines ended by a CR or LF, in order, without their terminators. */
  function Lines(s: seq<byte>): seq<seq<byte>> {
    if s == [] then []
    else
      var p := s[..|s| - 1];
      if IsEol(s[|s| - 1]) then Lines(p) + [Tail(p)] else Lines(p)
  }

  /** The bytes after the last CR or LF. */
  function Tail(s: seq<byte>): seq<byte> {
    if s == [] || IsEol(s[|s| - 1]) then [] else Tail(s[..|s| - 1]) + [s[|s| - 1]]
  }

  /** How far a line has come: which parts of "$body*hh" it holds. */
  datatype Framing =
    | NoDollar
    | InBody(body: seq<byte>)
    | InSum(body: seq<byte>, sum: seq<byte>)

  function FramingOf(line: seq<byte>): Framing {
    var d := IndexOf(line, DOLLAR);
    if d == |line| then NoDollar
    else
      var rest := line[d + 1..];
      var e := IndexOf(rest, STAR);
      if e == |rest| then InBody(rest) else InSum(rest[..e], rest[e + 1..])
  }

  function XorAll(s: seq<byte>): byte {
    if s == [] then 0 else XorAll(s[..|s| - 1]) ^ s[|s| - 1]
  }

  function HexNibble(c: byte): Option<byte> {
    if 0x30 <= c <= 0x39 then Some(c - 0x30)
    else if 0x41 <= c <= 0x46 then Some(c - 0x41 + 10)
    else if 0x61 <= c <= 0x66 then Some(c - 0x61 + 10)
    else None
  }

  function TwoHex(hi: byte, lo: byte): byte { (hi << 4) | lo }

  predicate SumMatches(body: seq<byte>, hi: byte, lo: byte) {
    HexNibble(hi).Some? && HexNibble(lo).Some?
    && TwoHex(HexNibble(hi).value, HexNibble(lo).value) == XorAll(body)
  }

  /** The body of a line that is a well-formed sentence with a good checksum. */
  function Sentence(line: seq<byte>): Option<seq<byte>> { Accepted(FramingOf(line)) }

  function Accepted(f: Framing): Option<seq<byte>> {
    match f
    case InSum(body, sum) =>
      if |body| <= LINE_MAX && |sum| >= 2 && SumMatches(body, sum[0], sum[1]) then Some(body)
      else None
    case _ => None
  }

  datatype Kind = RMC | GGA | GSA

  function KindOf(body: seq<byte>): Option<Kind> {
    if |body| < 6 || body[5] != COMMA then None
    else if body[2..5] == [0x52, 0x4D, 0x43] then Some(RMC)
    else if body[2..5] == [0x47, 0x47, 0x41] then Some(GGA)
    else if body[2..5] == [0x47, 0x53, 0x41] then Some(GSA)
    else None
  }

  /** Comma-separated fields; there is always at least one. */
  function Fields(s: seq<byte>): (fs: seq<seq<byte>>)
    ensures |fs| >= 1
  {
    if s == [] then [[]]
    else
      var fs := Fields(s[..|s| - 1]);
      var c := s[|s| - 1];
      if c == COMMA then fs + [[]]
      else fs[..|fs| - 1] + [fs[|fs| - 1] + [c]]
  }

  // The decoders do not tell a missing field from an empty one.
  function Field(body: seq<byte>, k: nat): seq<byte> {
    if k < |Fields(body)| then Fields(body)[k] else []
  }

  function First(f: seq<byte>): byte { if f == [] then 0 else f[0] }

  /** The floating-point operations the decoders call, left uninterpreted. */
  datatype FloatOps<!D> = FloatOps(zero: D, neg: D -> D, number: seq<byte> -> D, angle: seq<byte> -> D)

  datatype RmcFix<+D> = RmcFix(
    time: Time, date: Date, valid: byte, posMode: byte, ns: byte, ew: byte,
    lat: D, lon: D, speed: D, course: D)
  datatype GgaFix<+D> = GgaFix(
    time: Time, ns: byte, ew: byte, fixStatus: byte,
    lat: D, lon: D, satsUsed: uint8, hdop: D, altitude: D)
  datatype GsaFix<+D> = GsaFix(mode: byte, fix3d: byte, pdop: D, hdop: D, vdop: D)

  function TwoDigits(f: seq<byte>, i: nat): uint8
    requires i + 2 <= |f|
  {
    U8(Decimal(f[i..i + 2]))
  }

  function HmsOf(f: seq<byte>): Time {
    if |f| < 6 then Time(0, 0, 0) else Time(TwoDigits(f, 0), TwoDigits(f, 2), TwoDigits(f, 4))
  }

  function DmyOf(f: seq<byte>): Date {
    if |f| < 6 then Date(0, 0, 0) else Date(TwoDigits(f, 0), TwoDigits(f, 2), TwoDigits(f, 4))
  }

  function CountOf(f: seq<byte>): uint8 {
    if |f| + 1 > 12 then 0 else U8(Decimal(f))
  }

  function NumberOf<D>(ops: FloatOps<D>, f: seq<byte>): D {
    if f == [] then ops.zero else ops.number(f)
  }

  // South and west, in either case, are negative.
  function AngleOf<D>(ops: FloatOps<D>, f: seq<byte>, hemisphere: byte, negative: byte): D {
    if f == [] then ops.zero
    else if hemisphere == negative || hemisphere == negative + 0x20 then ops.neg(ops.angle(f))
    else ops.angle(f)
  }

  const SOUTH: byte := 0x53
  const WEST: byte := 0x57

  function RmcOf<D>(ops: FloatOps<D>, b: seq<byte>): RmcFix<D> {
    var ns, ew := First(Field(b, 4)), First(Field(b, 6));
    RmcFix(HmsOf(Field(b, 1)), DmyOf(Field(b, 9)), First(Field(b, 2)), First(Field(b, 12)), ns, ew,
           AngleOf(ops, Field(b, 3), ns, SOUTH), AngleOf(ops, Field(b, 5), ew, WEST),
           NumberOf(ops, Field(b, 7)), NumberOf(ops, Field(b, 8)))
  }

  function GgaOf<D>(ops: FloatOps<D>, b: seq<byte>): GgaFix<D> {
    var ns, ew := First(Field(b, 3)), First(Field(b, 5));
    GgaFix(HmsOf(Field(b, 1)), ns, ew, First(Field(b, 6)),
           AngleOf(ops, Field(b, 2), ns, SOUTH), AngleOf(ops, Field(b, 4), ew, WEST),
           if Field(b, 7) == [] then 0 else CountOf(Field(b, 7)),
           NumberOf(ops, Field(b, 8)), NumberOf(ops, Field(b, 9)))
  }

  function GsaOf<D>(ops: FloatOps<D>, b: seq<byte>): GsaFix<D> {
    GsaFix(First(Field(b, 1)), First(Field(b, 2)),
           NumberOf(ops, Field(b, 15)), NumberOf(ops, Field(b, 16)), NumberOf(ops, Field(b, 17)))
  }

  datatype Event<+D> = Rmc(rmc: RmcFix<D>) | Gga(gga: GgaFix<D>) | Gsa(gsa: GsaFix<D>)

  function EventOf<D>(ops: FloatOps<D>, kind: Kind, body: seq<byte>): Event<D> {
    match kind
    case RMC => Rmc(RmcOf(ops, body))
    case GGA => Gga(GgaOf(ops, body))
    case GSA => Gsa(GsaOf(ops, body))
  }

  function BodyEvents<D>(ops: FloatOps<D>, body: seq<byte>): seq<Event<D>> {
    match KindOf(body)
    case Some(kind) => [EventOf(ops, kind, body)]
    case None => []
  }

  function AcceptedEvents<D>(ops: FloatOps<D>, body: Option<seq<byte>>): seq<Event<D>> {
    match body
    case Some(b) => BodyEvents(ops, b)
    case None => []
  }

  function LineEvents<D>(ops: FloatOps<D>, line: seq<byte>): seq<Event<D>> {
    AcceptedEvents(ops, Sentence(line))
  }

  function AllLineEvents<D>(ops: FloatOps<D>, lines: seq<seq<byte>>): seq<Event<D>> {
    if lines == [] then []
    else AllLineEvents(ops, lines[..|lines| - 1]) + LineEvents(ops, lines[|lines| - 1])
  }

  /** The callbacks that a stream causes, with what each one decoded. */
  function Events<D>(ops: FloatOps<D>, s: seq<byte>): seq<Event<D>> {
    AllLineEvents(ops, Lines(s))
  }

  datatype Snapshots<+D> = Snapshots(rmc: RmcFix<D>, gga: GgaFix<D>, gsa: GsaFix<D>)

  function NoFix<D>(ops: FloatOps<D>): Snapshots<D> {
    var z := ops.zero;
    Snapshots(RmcFix(Time(0, 0, 0), Date(0, 0, 0), 0, 0, 0, 0, z, z, z, z),
              GgaFix(Time(0, 0, 0), 0, 0, 0, z, z, 0, z, z),
              GsaFix(0, 0, z, z, z))
  }

  /** The last event of each kind, as the caller may poll it. */
  function Latest<D>(ops: FloatOps<D>, log: seq<Event<D>>): Snapshots<D> {
    if log == [] then NoFix(ops)
    else
      var before := Latest(ops, log[..|log| - 1]);
      match log[|log| - 1]
      case Rmc(r) => before.(rmc := r)
      case Gga(g) => before.(gga := g)
      case Gsa(s) => before.(gsa := s)
  }
}
