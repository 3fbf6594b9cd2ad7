/** MQTT 3.1.1 client packets: their wire form, a decoder after the standard
    (OASIS MQTT 3.1.1), and the law that decoding inverts encoding. */
module MqttWire {
  import opened Machine
  import opened ByteStream
  import Varint

  type bytes = seq<uint8>

  datatype Packet =
    | Connect(clientId: bytes, cleanSession: bool, keepAlive: uint16,
              username: Option<bytes>, password: Option<bytes>)
    | Publish(topic: bytes, payload: bytes)
    | Subscribe(id: uint16, requests: seq<(bytes, uint8)>)
    | Unsubscribe(id: uint16, filters: seq<bytes>)
    | PingReq
    | Disconnect

  const PROTOCOL: bytes := [0x4D, 0x51, 0x54, 0x54]

  function FirstByte(p: Packet): uint8 {
    match p
    case Connect(_, _, _, _, _) => 0x10
    case Publish(_, _) => 0x30
    case Subscribe(_, _) => 0x82
    case Unsubscribe(_, _) => 0xA2
    case PingReq => 0xC0
    case Disconnect => 0xE0
  }

  function Flags(clean: bool, user: bool, pass: bool): uint8 {
    (if clean then 0x02 else 0) + (if user then 0x80 else 0) + (if pass then 0x40 else 0)
  }

  function OptStr(s: Option<bytes>): bytes {
    match s
    case None => []
    case Some(v) => Str16(v)
  }

  function Requests(rs: seq<(bytes, uint8)>): bytes {
    if rs == [] then [] else Str16(rs[0].0) + [rs[0].1] + Requests(rs[1..])
  }

  function Filters(fs: seq<bytes>): bytes {
    if fs == [] then [] else Str16(fs[0]) + Filters(fs[1..])
  }

  /** Variable header and payload. */
  function Body(p: Packet): bytes {
    match p
    case Connect(id, clean, alive, user, pass) =>
      Str16(PROTOCOL) + [4, Flags(clean, user.Some?, pass.Some?)] + U16BE(alive)
      + Str16(id) + OptStr(user) + OptStr(pass)
    case Publish(topic, payload) => Str16(topic) + payload
    case Subscribe(id, rs) => U16BE(id) + Requests(rs)
    case Unsubscribe(id, fs) => U16BE(id) + Filters(fs)
    case PingReq => []
    case Disconnect => []
  }

  function Wire(p: Packet): bytes {
    [FirstByte(p)] + Varint.Encoding(|Body(p)|) + Body(p)
  }

  predicate Short(s: bytes) { |s| <= 0xFFFF }

  predicate WellFormed(p: Packet) {
    |Body(p)| < Varint.LIMIT && match p
    case Connect(id, _, _, user, pass) =>
      Short(id) && (user.Some? ==> Short(user.value)) && (pass.Some? ==> user.Some? && Short(pass.value))
    case Publish(topic, _) => Short(topic)
    case Subscribe(id, rs) =>
      id != 0 && rs != [] && forall i :: 0 <= i < |rs| ==> Short(rs[i].0) && rs[i].1 <= 2
    case Unsubscribe(id, fs) =>
      id != 0 && fs != [] && forall i :: 0 <= i < |fs| ==> Short(fs[i])
    case _ => true
  }

  // ---- the decoder ----

  function GetU16(s: bytes): (v: uint16)
    requires |s| >= 2
  {
    var hi: int, lo: int := s[0], s[1];
    hi * 0x100 + lo
  }

  /** A length-prefixed string (section 1.5.3) and what follows it. */
  function TakeStr(s: bytes): Option<(bytes, bytes)> {
    if |s| < 2 || |s| < 2 + GetU16(s) then None
    else Some((s[2..2 + GetU16(s)], s[2 + GetU16(s)..]))
  }

  function TakeOptStr(present: bool, s: bytes): Option<(Option<bytes>, bytes)> {
    if !present then Some((None, s))
    else match TakeStr(s)
      case None => None
      case Some((v, rest)) => Some((Some(v), rest))
  }

  /** Section 3.8.3: topic filters, each with a requested QoS of at most 2. */
  function TakeRequests(s: bytes): Option<seq<(bytes, uint8)>>
    decreases |s|
  {
    if s == [] then Some([])
    else match TakeStr(s)
      case None => None
      case Some((topic, rest)) =>
        if rest == [] || rest[0] > 2 then None
        else match TakeRequests(rest[1..])
          case None => None
          case Some(rs) => Some([(topic, rest[0])] + rs)
  }

  /** Section 3.10.3: topic filters up to the end of the packet. */
  function TakeFilters(s: bytes): Option<seq<bytes>>
    decreases |s|
  {
    if s == [] then Some([])
    else match TakeStr(s)
      case None => None
      case Some((topic, rest)) =>
        match TakeFilters(rest)
        case None => None
        case Some(fs) => Some([topic] + fs)
  }

  /** Section 3.1: name, level 4, flags without a will, keep-alive, payload. */
  function DecodeConnect(s: bytes): Option<Packet> {
    match TakeStr(s)
    case None => None
    case Some((name, h)) =>
      if name != PROTOCOL || |h| < 4 || h[0] != 4 then None
      else
        var flags := h[1];
        var user, pass, clean := flags / 0x80 % 2 == 1, flags / 0x40 % 2 == 1, flags / 2 % 2 == 1;
        if flags % 2 == 1 || flags / 4 % 16 != 0 || (pass && !user) then None
        else DecodeLogin(clean, GetU16(h[2..4]), user, pass, h[4..])
  }

  function DecodeLogin(clean: bool, alive: uint16, user: bool, pass: bool, s: bytes): Option<Packet> {
    match TakeStr(s)
    case None => None
    case Some((id, s1)) =>
      match TakeOptStr(user, s1)
      case None => None
      case Some((u, s2)) =>
        match TakeOptStr(pass, s2)
        case None => None
        case Some((p, s3)) => if s3 == [] then Some(Connect(id, clean, alive, u, p)) else None
  }

  function DecodeBody(first: uint8, s: bytes): Option<Packet> {
    if first == 0x10 then DecodeConnect(s)
    else if first == 0x30 then
      match TakeStr(s)
      case None => None
      case Some((topic, payload)) => Some(Publish(topic, payload))
    else if first == 0x82 then
      if |s| < 2 || GetU16(s) == 0 then None
      else match TakeRequests(s[2..])
        case None => None
        case Some(rs) => if rs == [] then None else Some(Subscribe(GetU16(s), rs))
    else if first == 0xA2 then
      if |s| < 2 || GetU16(s) == 0 then None
      else match TakeFilters(s[2..])
        case None => None
        case Some(fs) => if fs == [] then None else Some(Unsubscribe(GetU16(s), fs))
    else if first == 0xC0 then if s == [] then Some(PingReq) else None
    else if first == 0xE0 then if s == [] then Some(Disconnect) else None
    else None
  }

  /** Section 2.2: fixed header, Remaining Length, and that many bytes. */
  function Decode(s: bytes): (r: Option<(Packet, bytes)>)
    ensures r.Some? ==> |r.value.1| < |s|
  {
    if s == [] then None
    else match Varint.DecodeLength(s[1..], 4)
      case None => None
      case Some((len, used)) =>
        if |s| < 1 + used + len then None
        else match DecodeBody(s[0], s[1 + used..1 + used + len])
          case None => None
          case Some(p) => Some((p, s[1 + used + len..]))
  }

  function DecodeStream(s: bytes): Option<seq<Packet>>
    decreases |s|
  {
    if s == [] then Some([])
    else match Decode(s)
      case None => None
      case Some((p, rest)) =>
        match DecodeStream(rest)
        case None => None
        case Some(ps) => Some([p] + ps)
  }

  // ---- decoding inverts encoding ----

  lemma TakeStr16(v: bytes, rest: bytes)
    requires Short(v)
    ensures TakeStr(Str16(v) + rest) == Some((v, rest))
  {
    var s := Str16(v) + rest;
    assert s[0] == |v| / 0x100 && s[1] == |v| % 0x100;
    assert s[2..2 + |v|] == v;
    assert s[2 + |v|..] == rest;
  }

  lemma TakeOptStr16(v: Option<bytes>, rest: bytes)
    requires v.Some? ==> Short(v.value)
    ensures TakeOptStr(v.Some?, OptStr(v) + rest) == Some((v, rest))
  {
    match v
    case None => assert OptStr(v) + rest == rest;
    case Some(x) => TakeStr16(x, rest);
  }

  lemma {:induction false} RequestsInverse(rs: seq<(bytes, uint8)>)
    requires forall i :: 0 <= i < |rs| ==> Short(rs[i].0) && rs[i].1 <= 2
    ensures TakeRequests(Requests(rs)) == Some(rs)
    decreases |rs|
  {
    if rs != [] {
      var tail := [rs[0].1] + Requests(rs[1..]);
      assert Requests(rs) == Str16(rs[0].0) + tail;
      TakeStr16(rs[0].0, tail);
      assert tail[1..] == Requests(rs[1..]);
      RequestsInverse(rs[1..]);
      assert rs == [(rs[0].0, rs[0].1)] + rs[1..];
    }
  }

  lemma {:induction false} FiltersInverse(fs: seq<bytes>)
    requires forall i :: 0 <= i < |fs| ==> Short(fs[i])
    ensures TakeFilters(Filters(fs)) == Some(fs)
    decreases |fs|
  {
    if fs != [] {
      TakeStr16(fs[0], Filters(fs[1..]));
      FiltersInverse(fs[1..]);
      assert fs == [fs[0]] + fs[1..];
    }
  }

  lemma FlagsInverse(clean: bool, user: bool, pass: bool)
    ensures var f := Flags(clean, user, pass);
      (f / 0x80 % 2 == 1 <==> user) && (f / 0x40 % 2 == 1 <==> pass) && (f / 2 % 2 == 1 <==> clean)
      && f % 2 == 0 && f / 4 % 16 == 0
  {}

  lemma LoginInverse(p: Packet)
    requires p.Connect? && WellFormed(p)
    ensures DecodeLogin(p.cleanSession, p.keepAlive, p.username.Some?, p.password.Some?,
                        Login(p)) == Some(p)
  {
    TakeStr16(p.clientId, OptStr(p.username) + OptStr(p.password));
    TakeOptStr16(p.username, OptStr(p.password));
    TakeOptStr16(p.password, []);
    assert OptStr(p.password) + [] == OptStr(p.password);
  }

  lemma U16Inverse(v: uint16, rest: bytes)
    ensures GetU16(U16BE(v) + rest) == v
  {
    assert (U16BE(v) + rest)[0] == v / 0x100 && (U16BE(v) + rest)[1] == v % 0x100;
  }

  // The fixed part of a CONNECT body after the protocol name.
  function LoginHead(p: Packet): bytes
    requires p.Connect?
  {
    [4, Flags(p.cleanSession, p.username.Some?, p.password.Some?)] + U16BE(p.keepAlive)
  }

  function Login(p: Packet): bytes
    requires p.Connect?
  {
    Str16(p.clientId) + (OptStr(p.username) + OptStr(p.password))
  }

  lemma ConnectBody(p: Packet)
    requires p.Connect?
    ensures Body(p) == Str16(PROTOCOL) + (LoginHead(p) + Login(p))
  {
    Regroup(Str16(PROTOCOL), [4, Flags(p.cleanSession, p.username.Some?, p.password.Some?)],
            U16BE(p.keepAlive), Str16(p.clientId), OptStr(p.username), OptStr(p.password));
  }

  lemma Regroup(a: bytes, b: bytes, c: bytes, d: bytes, e: bytes, f: bytes)
    ensures a + b + c + d + e + f == a + ((b + c) + (d + (e + f)))
  {}

  lemma HeadParts(p: Packet)
    requires p.Connect?
    ensures var h := LoginHead(p) + Login(p);
      |h| >= 4 && h[0] == 4 && h[1] == LoginHead(p)[1] && GetU16(h[2..4]) == p.keepAlive && h[4..] == Login(p)
  {
    var h := LoginHead(p) + Login(p);
    assert h[2..4] == U16BE(p.keepAlive) + [];
    U16Inverse(p.keepAlive, []);
  }

  lemma ConnectInverse(p: Packet)
    requires p.Connect? && WellFormed(p)
    ensures DecodeConnect(Body(p)) == Some(p)
  {
    ConnectBody(p);
    TakeStr16(PROTOCOL, LoginHead(p) + Login(p));
    HeadParts(p);
    FlagsInverse(p.cleanSession, p.username.Some?, p.password.Some?);
    LoginInverse(p);
  }

  lemma SubscribeInverse(p: Packet)
    requires p.Subscribe? && WellFormed(p)
    ensures DecodeBody(0x82, Body(p)) == Some(p)
  {
    U16Inverse(p.id, Requests(p.requests));
    assert Body(p)[2..] == Requests(p.requests);
    RequestsInverse(p.requests);
  }

  lemma UnsubscribeInverse(p: Packet)
    requires p.Unsubscribe? && WellFormed(p)
    ensures DecodeBody(0xA2, Body(p)) == Some(p)
  {
    U16Inverse(p.id, Filters(p.filters));
    assert Body(p)[2..] == Filters(p.filters);
    FiltersInverse(p.filters);
  }

  lemma BodyInverse(p: Packet)
    requires WellFormed(p)
    ensures DecodeBody(FirstByte(p), Body(p)) == Some(p)
  {
    match p
    case Connect(_, _, _, _, _) => ConnectInverse(p);
    case Publish(topic, payload) => TakeStr16(topic, payload);
    case Subscribe(_, _) => SubscribeInverse(p);
    case Unsubscribe(_, _) => UnsubscribeInverse(p);
    case PingReq =>
    case Disconnect =>
  }

  lemma FrameParts(first: uint8, len: bytes, body: bytes, rest: bytes)
    ensures var s := [first] + len + body + rest;
      && s[1..] == len + (body + rest)
      && s[1 + |len|..1 + |len| + |body|] == body
      && s[1 + |len| + |body|..] == rest
  {}

  /** Framing: any body behind a Remaining Length that states its size is cut
      out exactly. */
  lemma DecodeFramed(first: uint8, body: bytes, rest: bytes)
    requires |body| < Varint.LIMIT
    ensures Decode([first] + Varint.Encoding(|body|) + body + rest)
            == match DecodeBody(first, body) case None => None case Some(p) => Some((p, rest))
  {
    Varint.RoundTrip(|body|, body + rest);
    FrameParts(first, Varint.Encoding(|body|), body, rest);
  }

  /** A packet is read back from the front of a stream, and nothing more. */
  lemma DecodeWire(p: Packet, rest: bytes)
    requires WellFormed(p)
    ensures Decode(Wire(p) + rest) == Some((p, rest))
  {
    BodyInverse(p);
    DecodeFramed(FirstByte(p), Body(p), rest);
  }

  function WireAll(ps: seq<Packet>): bytes {
    if ps == [] then [] else Wire(ps[0]) + WireAll(ps[1..])
  }

  /** Any list of packets sent back to back is received as that list. */
  lemma {:induction false} DecodeWireAll(ps: seq<Packet>)
    requires forall i :: 0 <= i < |ps| ==> WellFormed(ps[i])
    ensures DecodeStream(WireAll(ps)) == Some(ps)
    decreases |ps|
  {
    hide Decode, Wire, WellFormed;
    if ps != [] {
      DecodeWire(ps[0], WireAll(ps[1..]));
      DecodeWireAll(ps[1..]);
      assert ps == [ps[0]] + ps[1..];
    }
  }

  lemma PrefixSplit(a: bytes, b: bytes)
    requires a <= b
    ensures b == a + b[|a|..] && b + [] == b
  {}

  /** No packet is a proper prefix of another. */
  lemma WirePrefixFree(p: Packet, q: Packet)
    requires WellFormed(p) && WellFormed(q) && Wire(p) <= Wire(q)
    ensures p == q
  {
    hide Body, Wire;
    PrefixSplit(Wire(p), Wire(q));
    DecodeWire(p, Wire(q)[|Wire(p)|..]);
    DecodeWire(q, []);
  }
}
