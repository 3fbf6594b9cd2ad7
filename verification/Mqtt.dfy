/** The six packet builders of mqtt/mqtt.c. Pointers to C strings are the bytes
    before the terminator; the optional ones may be NULL. */
module Mqtt {
  import opened Machine
  import opened ByteStream
  import opened Varint
  import opened MqttWire

  const KEEPALIVE_S: uint16 := 60

  // CONNECT credentials: an empty user name counts as none, and a password
  // counts only behind a user name.
  function UserOf(username: Option<bytes>): Option<bytes> {
    if username == Some([]) then None else username
  }

  function PassOf(username: Option<bytes>, password: Option<bytes>): Option<bytes> {
    if UserOf(username).None? then None else password
  }

  function ConnectPacket(clientId: bytes, username: Option<bytes>, password: Option<bytes>): Packet {
    Connect(clientId, true, KEEPALIVE_S, UserOf(username), PassOf(username, password))
  }

  /** Appending x behind what has been written from the start of the buffer. */
  lemma Append(before: bytes, w: bytes, x: bytes)
    requires |w| + |x| <= |before|
    ensures Splice(Splice(before, 0, w), |w|, x) == Splice(before, 0, w + x)
  {
    SpliceTwice(before, 0, w, x);
  }

  // First byte and Remaining Length.
  function Header(first: uint8, bodyLen: uint32): bytes {
    [first] + Written(bodyLen)
  }

  method PutHeader(buf: array<uint8>, first: uint8, bodyLen: uint32) returns (i: nat)
    requires 1 + |Written(bodyLen)| <= buf.Length && bodyLen < LIMIT
    modifies buf
    ensures i == |Header(first, bodyLen)| == 1 + VarintSize(bodyLen)
    ensures buf[..] == Splice(old(buf[..]), 0, Header(first, bodyLen))
  {
    SizeIsLength(bodyLen);
    ghost var was := buf[..];
    i := PutU8(buf, 0, first);
    Append(was, [first], Written(bodyLen));
    var n := PutVarint(buf, i, bodyLen);
    i := i + n;
  }

  method AppendU8(buf: array<uint8>, i: nat, v: uint8, ghost was: bytes, ghost w: bytes) returns (i': nat)
    requires i == |w| && |was| == buf.Length && |w| + 1 <= buf.Length && buf[..] == Splice(was, 0, w)
    modifies buf
    ensures i' == |w| + 1 && buf[..] == Splice(was, 0, w + [v])
  {
    Append(was, w, [v]);
    i' := PutU8(buf, i, v);
  }

  method AppendU16BE(buf: array<uint8>, i: nat, v: uint16, ghost was: bytes, ghost w: bytes) returns (i': nat)
    requires i == |w| && |was| == buf.Length && |w| + 2 <= buf.Length && buf[..] == Splice(was, 0, w)
    modifies buf
    ensures i' == |w| + 2 && buf[..] == Splice(was, 0, w + U16BE(v))
  {
    Append(was, w, U16BE(v));
    i' := PutU16BE(buf, i, v);
  }

  method AppendStr(buf: array<uint8>, i: nat, s: bytes, ghost was: bytes, ghost w: bytes) returns (i': nat)
    requires i == |w| && |was| == buf.Length && |w| + 2 + |s| <= buf.Length && buf[..] == Splice(was, 0, w)
    modifies buf
    ensures i' == |w| + 2 + |s| && buf[..] == Splice(was, 0, w + Str16(s))
  {
    Append(was, w, Str16(s));
    i' := PutStrU16BE(buf, i, s);
  }

  method AppendBytes(buf: array<uint8>, i: nat, s: bytes, ghost was: bytes, ghost w: bytes) returns (i': nat)
    requires i == |w| && |was| == buf.Length && |w| + |s| <= buf.Length && buf[..] == Splice(was, 0, w)
    modifies buf
    ensures i' == |w| + |s| && buf[..] == Splice(was, 0, w + s)
  {
    Append(was, w, s);
    i' := PutBytes(buf, i, s);
  }

  method AppendOpt(buf: array<uint8>, i: nat, s: Option<bytes>, ghost was: bytes, ghost w: bytes) returns (i': nat)
    requires i == |w| && |was| == buf.Length && |w| + |OptStr(s)| <= buf.Length && buf[..] == Splice(was, 0, w)
    modifies buf
    ensures i' == |w| + |OptStr(s)| && buf[..] == Splice(was, 0, w + OptStr(s))
  {
    if s.Some? {
      i' := AppendStr(buf, i, s.value, was, w);
    } else {
      assert w + OptStr(s) == w;
      i' := i;
    }
  }

  lemma Regroup7(h: bytes, a: bytes, f: uint8, c: bytes, d: bytes, e: bytes, g: bytes)
    ensures h + a + [4] + [f] + c + d + e + g == h + (a + [4, f] + c + d + e + g)
  {}

  // A packet below the length limit, seen as header and body.
  lemma WireHeader(p: Packet)
    requires |Body(p)| < LIMIT
    ensures Wire(p) == Header(FirstByte(p), |Body(p)|) + Body(p)
    ensures |Wire(p)| == 1 + VarintSize(|Body(p)|) + |Body(p)|
  {
    SizeIsLength(|Body(p)|);
  }

  /** The builder accepts: the packet fits the buffer. */
  predicate Fits(p: Packet, bufSize: nat) {
    WellFormed(p) && |Wire(p)| <= bufSize
  }

  // ---- CONNECT ----

  /** What a receiver must find for a call: no credentials behind a missing or
      empty user name, and otherwise exactly those that were given. */
  ghost predicate CarriesConnect(p: Packet, clientId: bytes, username: Option<bytes>, password: Option<bytes>) {
    && p.Connect? && p.clientId == clientId && p.cleanSession && p.keepAlive == 60
    && (username == None || username == Some([]) ==> p.username == None && p.password == None)
    && (username.Some? && username.value != [] ==> p.username == username && p.password == password)
  }

  // Length of the variable header and payload.
  function ConnectLength(clientId: bytes, username: Option<bytes>, password: Option<bytes>): nat {
    12 + |clientId|
    + if username.None? || username.value == [] then 0
      else 2 + |username.value| + if password.None? then 0 else 2 + |password.value|
  }

  // A packet with a body of n bytes fits.
  predicate SizeFits(n: nat, bufSize: nat) {
    n < 0x1000_0000 && 1 + VarintSize(n) + n <= bufSize
  }

  predicate ConnectAccepted(clientId: bytes, username: Option<bytes>, password: Option<bytes>, bufSize: nat) {
    && 0 < |clientId| <= 65535
    && (username.Some? && username.value != [] ==>
          |username.value| <= 65535 && (password.Some? ==> |password.value| <= 65535))
    && SizeFits(ConnectLength(clientId, username, password), bufSize)
  }

  lemma WireFront(before: bytes, w: bytes, p: Packet)
    requires |w| <= |before| && WellFormed(p) && w == Wire(p)
    ensures Splice(before, 0, w)[..|w|] == w && Decode(w) == Some((p, []))
  {
    hide Decode, Wire, WellFormed;
    DecodeWire(p, []);
    assert w + [] == w;
  }

  lemma ConnectReceived(clientId: bytes, username: Option<bytes>, password: Option<bytes>, bufSize: nat)
    ensures clientId != [] && Fits(ConnectPacket(clientId, username, password), bufSize)
            <==> ConnectAccepted(clientId, username, password, bufSize)
    ensures CarriesConnect(ConnectPacket(clientId, username, password), clientId, username, password)
    ensures ConnectAccepted(clientId, username, password, bufSize) ==>
              |Wire(ConnectPacket(clientId, username, password))|
              == 1 + VarintSize(ConnectLength(clientId, username, password)) + ConnectLength(clientId, username, password)
  {
    var p := ConnectPacket(clientId, username, password);
    assert |Body(p)| == ConnectLength(clientId, username, password);
    if |Body(p)| < LIMIT { WireHeader(p); }
  }

  method BuildConnect(buf: array<uint8>, bufSize: nat, clientId: bytes,
                      username: Option<bytes>, password: Option<bytes>) returns (r: int32)
    requires bufSize <= buf.Length
    modifies buf
    ensures var p := ConnectPacket(clientId, username, password);
      if clientId != [] && Fits(p, bufSize)
      then r == |Wire(p)| && buf[..] == Splice(old(buf[..]), 0, Wire(p))
      else r == 0 && buf[..] == old(buf[..])
    ensures r > 0 <==> ConnectAccepted(clientId, username, password, bufSize)
    ensures r > 0 ==>
              && var n := ConnectLength(clientId, username, password); r == 1 + VarintSize(n) + n <= bufSize
    ensures r > 0 ==>
              && Decode(buf[..r]).Some? && Decode(buf[..r]).value.1 == []
              && CarriesConnect(Decode(buf[..r]).value.0, clientId, username, password)
  {
    r := 0;
    ghost var p := ConnectPacket(clientId, username, password);
    ghost var was := buf[..];
    ConnectReceived(clientId, username, password, bufSize);
    if clientId == [] { return; }
    if |clientId| > 0xFFFF { return; }
    var user, pass := username, password;
    var unLen, pwLen := 0, 0;
    if user.Some? && user.value != [] {
      unLen := |user.value|;
      if unLen > 0xFFFF { return; }
      if pass.Some? {
        pwLen := |pass.value|;
        if pwLen > 0xFFFF { return; }
      }
    } else {
      user, pass := None, None;
    }
    assert user == p.username && pass == p.password;
    var flags: uint8 := 0x02;
    if user.Some? {
      flags := flags + 0x80;
      if pass.Some? { flags := flags + 0x40; }
    }
    var bodyLen := 12 + |clientId| + (if user.Some? then 2 + unLen else 0) + (if pass.Some? then 2 + pwLen else 0);
    assert bodyLen == |Body(p)|;
    var rlSize := VarintSize(U32(bodyLen));
    if rlSize == 0 { return; }
    WireHeader(p);
    var total := 1 + rlSize + bodyLen;
    if total > bufSize { return; }
    r := WriteConnect(buf, clientId, user, pass, flags, bodyLen);
    WireFront(was, Wire(p), p);
  }

  method WriteConnect(buf: array<uint8>, clientId: bytes, user: Option<bytes>, pass: Option<bytes>,
                      flags: uint8, bodyLen: uint32) returns (i: nat)
    requires flags == Flags(true, user.Some?, pass.Some?)
    requires bodyLen == |Body(Connect(clientId, true, KEEPALIVE_S, user, pass))| < LIMIT
    requires |Wire(Connect(clientId, true, KEEPALIVE_S, user, pass))| <= buf.Length
    modifies buf
    ensures var p := Connect(clientId, true, KEEPALIVE_S, user, pass);
      i == |Wire(p)| && buf[..] == Splice(old(buf[..]), 0, Wire(p))
  {
    ghost var was, p := buf[..], Connect(clientId, true, KEEPALIVE_S, user, pass);
    WireHeader(p);
    i := PutHeader(buf, 0x10, bodyLen);
    ghost var w := Header(0x10, bodyLen);
    i := AppendStr(buf, i, PROTOCOL, was, w);
    w := w + Str16(PROTOCOL);
    i := AppendU8(buf, i, 0x04, was, w);
    w := w + [4];
    i := AppendU8(buf, i, flags, was, w);
    w := w + [flags];
    i := AppendU16BE(buf, i, KEEPALIVE_S, was, w);
    w := w + U16BE(KEEPALIVE_S);
    i := AppendStr(buf, i, clientId, was, w);
    w := w + Str16(clientId);
    i := AppendOpt(buf, i, user, was, w);
    w := w + OptStr(user);
    i := AppendOpt(buf, i, pass, was, w);
    w := w + OptStr(pass);
    Regroup7(Header(0x10, bodyLen), Str16(PROTOCOL), flags, U16BE(KEEPALIVE_S),
             Str16(clientId), OptStr(user), OptStr(pass));
  }

  // ---- PUBLISH ----

  // As the C code computes it: the length goes through a cast to uint32_t.
  function PublishBytes(topic: bytes, payload: bytes): bytes {
    var body := Str16(topic) + payload;
    Header(0x30, U32(|body|)) + body
  }

  predicate PublishAccepted(topic: bytes, payload: bytes, bufSize: nat) {
    topic != [] && Short(topic) && U32(2 + |topic| + |payload|) < LIMIT
    && |PublishBytes(topic, payload)| <= bufSize
  }

  method BuildPublish(buf: array<uint8>, bufSize: nat, topic: bytes, payload: bytes) returns (r: int32)
    requires bufSize <= buf.Length
    modifies buf
    ensures if PublishAccepted(topic, payload, bufSize)
            then r == Machine.I32(|PublishBytes(topic, payload)|)
                 && buf[..] == Splice(old(buf[..]), 0, PublishBytes(topic, payload))
            else r == 0 && buf[..] == old(buf[..])
    ensures 2 + |topic| + |payload| < 0x1_0000_0000 ==>
              && (r > 0 <==> 0 < |topic| <= 65535 && SizeFits(2 + |topic| + |payload|, bufSize))
              && (r > 0 ==> r <= bufSize && Decode(buf[..r]) == Some((Publish(topic, payload), [])))
  {
    r := 0;
    if 2 + |topic| + |payload| < 0x1_0000_0000 { PublishReceived(topic, payload, bufSize); }
    if topic == [] { return; }
    if |topic| > 0xFFFF { return; }
    var bodyLen := 2 + |topic| + |payload|;
    var rlSize := VarintSize(U32(bodyLen));
    SizeIsLength(U32(bodyLen));
    if rlSize == 0 { return; }
    var total := 1 + rlSize + bodyLen;
    assert total == |PublishBytes(topic, payload)|;
    if total > bufSize { return; }
    ghost var was := buf[..];
    var i := WritePublish(buf, topic, payload);
    r := Machine.I32(i);
    if bodyLen < 0x1_0000_0000 { WireFront(was, PublishBytes(topic, payload), Publish(topic, payload)); }
  }

  method WritePublish(buf: array<uint8>, topic: bytes, payload: bytes) returns (i: nat)
    requires Short(topic) && U32(2 + |topic| + |payload|) < LIMIT
    requires |PublishBytes(topic, payload)| <= buf.Length
    modifies buf
    ensures i == |PublishBytes(topic, payload)|
    ensures buf[..] == Splice(old(buf[..]), 0, PublishBytes(topic, payload))
  {
    ghost var was := buf[..];
    var bodyLen := 2 + |topic| + |payload|;
    i := PutHeader(buf, 0x30, U32(bodyLen));
    ghost var w := Header(0x30, U32(bodyLen));
    i := AppendStr(buf, i, topic, was, w);
    i := AppendBytes(buf, i, payload, was, w + Str16(topic));
    assert w + Str16(topic) + payload == PublishBytes(topic, payload);
  }

  lemma PublishReceived(topic: bytes, payload: bytes, bufSize: nat)
    requires 2 + |topic| + |payload| < 0x1_0000_0000
    ensures PublishAccepted(topic, payload, bufSize)
            <==> 0 < |topic| <= 65535 && SizeFits(2 + |topic| + |payload|, bufSize)
    ensures PublishAccepted(topic, payload, bufSize) ==>
              WellFormed(Publish(topic, payload)) && PublishBytes(topic, payload) == Wire(Publish(topic, payload))
  {
    var n := 2 + |topic| + |payload|;
    SizeIsLength(n);
    if n < LIMIT { PublishIsWire(topic, payload); }
  }

  lemma PublishIsWire(topic: bytes, payload: bytes)
    requires 2 + |topic| + |payload| < LIMIT
    ensures PublishBytes(topic, payload) == Wire(Publish(topic, payload))
    ensures Machine.I32(|PublishBytes(topic, payload)|) == |Wire(Publish(topic, payload))|
  {
    WireHeader(Publish(topic, payload));
  }

  lemma WrongLengthTail(first: uint8, len: nat, body: bytes)
    requires len < LIMIT && len < |body|
    ensures var r := Decode([first] + Encoding(len) + body);
      r.Some? ==> r.value.1 != []
  {
    var s := [first] + Encoding(len) + body;
    assert s[1..] == Encoding(len) + body;
    RoundTrip(len, body);
  }

  /** What a receiver makes of an accepted PUBLISH: the cast is harmless exactly
      when the body is shorter than 2^32 bytes. */
  lemma PublishExact(topic: bytes, payload: bytes, bufSize: nat)
    requires PublishAccepted(topic, payload, bufSize)
    ensures Decode(PublishBytes(topic, payload)) == Some((Publish(topic, payload), []))
            <==> 2 + |topic| + |payload| < 0x1_0000_0000
  {
    var n := 2 + |topic| + |payload|;
    if n < 0x1_0000_0000 {
      PublishIsWire(topic, payload);
      DecodeWire(Publish(topic, payload), []);
      assert Wire(Publish(topic, payload)) + [] == Wire(Publish(topic, payload));
    } else {
      assert PublishBytes(topic, payload) == [0x30] + Encoding(U32(n)) + (Str16(topic) + payload);
      WrongLengthTail(0x30, U32(n), Str16(topic) + payload);
    }
  }

  /** A payload of 2^32 bytes is accepted, and is not received. */
  lemma PublishTruncated(topic: bytes, payload: bytes)
    requires topic == [0x61] && payload == seq(0x1_0000_0000, _ => 0)
    ensures exists bufSize :: PublishAccepted(topic, payload, bufSize)
    ensures Decode(PublishBytes(topic, payload)) != Some((Publish(topic, payload), []))
  {
    assert PublishAccepted(topic, payload, |PublishBytes(topic, payload)|);
    PublishExact(topic, payload, |PublishBytes(topic, payload)|);
  }

  // ---- SUBSCRIBE, UNSUBSCRIBE, PINGREQ, DISCONNECT ----

  function SubscribePacket(id: uint16, topic: bytes): Packet { Subscribe(id, [(topic, 0)]) }

  function UnsubscribePacket(id: uint16, topic: bytes): Packet { Unsubscribe(id, [topic]) }

  lemma OneFilter(id: uint16, topic: bytes)
    ensures Body(SubscribePacket(id, topic)) == U16BE(id) + Str16(topic) + [0]
    ensures Body(UnsubscribePacket(id, topic)) == U16BE(id) + Str16(topic)
  {
    var rs: seq<(bytes, uint8)>, fs: seq<bytes> := [(topic, 0)], [topic];
    assert rs[1..] == [] && fs[1..] == [];
    assert Requests(rs) == Str16(topic) + [0] + [];
    assert Filters(fs) == Str16(topic) + [];
  }

  lemma FilterAccepted(id: uint16, topic: bytes, bufSize: nat)
    ensures topic != [] && Fits(SubscribePacket(id, topic), bufSize)
            <==> id != 0 && 0 < |topic| <= 65535 && SizeFits(5 + |topic|, bufSize)
    ensures topic != [] && Fits(UnsubscribePacket(id, topic), bufSize)
            <==> id != 0 && 0 < |topic| <= 65535 && SizeFits(4 + |topic|, bufSize)
  {
    OneFilter(id, topic);
    var p, q := SubscribePacket(id, topic), UnsubscribePacket(id, topic);
    if |Body(p)| < LIMIT { WireHeader(p); }
    if |Body(q)| < LIMIT { WireHeader(q); }
  }

  method BuildSubscribe(buf: array<uint8>, bufSize: nat, packetId: uint16, topic: bytes) returns (r: int32)
    requires bufSize <= buf.Length
    modifies buf
    ensures var p := SubscribePacket(packetId, topic);
      if topic != [] && Fits(p, bufSize)
      then r == |Wire(p)| && buf[..] == Splice(old(buf[..]), 0, Wire(p))
      else r == 0 && buf[..] == old(buf[..])
    ensures r > 0 <==> packetId != 0 && 0 < |topic| <= 65535 && SizeFits(5 + |topic|, bufSize)
    ensures r > 0 ==> r <= bufSize && Decode(buf[..r]) == Some((Subscribe(packetId, [(topic, 0)]), []))
  {
    r := 0;
    ghost var p := SubscribePacket(packetId, topic);
    FilterAccepted(packetId, topic, bufSize);
    if topic == [] { return; }
    if packetId == 0 { return; }
    if |topic| > 0xFFFF { return; }
    OneFilter(packetId, topic);
    var bodyLen := 2 + 2 + |topic| + 1;
    var rlSize := VarintSize(U32(bodyLen));
    if rlSize == 0 { return; }
    WireHeader(p);
    var total := 1 + rlSize + bodyLen;
    if total > bufSize { return; }
    ghost var was := buf[..];
    var i := WriteSubscribe(buf, bodyLen, packetId, topic);
    r := Machine.I32(i);
    WireFront(was, Wire(p), p);
  }

  function FilterBytes(first: uint8, bodyLen: uint32, id: uint16, topic: bytes): bytes {
    Header(first, bodyLen) + U16BE(id) + Str16(topic)
  }

  // Header, packet id and one topic filter.
  method WriteFilter(buf: array<uint8>, first: uint8, bodyLen: uint32, id: uint16, topic: bytes) returns (i: nat)
    requires bodyLen < LIMIT && |FilterBytes(first, bodyLen, id, topic)| <= buf.Length
    modifies buf
    ensures i == |FilterBytes(first, bodyLen, id, topic)|
    ensures buf[..] == Splice(old(buf[..]), 0, FilterBytes(first, bodyLen, id, topic))
  {
    ghost var was := buf[..];
    i := PutHeader(buf, first, bodyLen);
    ghost var w := Header(first, bodyLen);
    i := AppendU16BE(buf, i, id, was, w);
    i := AppendStr(buf, i, topic, was, w + U16BE(id));
  }

  method WriteSubscribe(buf: array<uint8>, bodyLen: uint32, id: uint16, topic: bytes) returns (i: nat)
    requires bodyLen == |Body(SubscribePacket(id, topic))| < LIMIT
    requires |Wire(SubscribePacket(id, topic))| <= buf.Length
    modifies buf
    ensures i == |Wire(SubscribePacket(id, topic))|
    ensures buf[..] == Splice(old(buf[..]), 0, Wire(SubscribePacket(id, topic)))
  {
    hide U16BE, Str16;
    ghost var was, w := buf[..], FilterBytes(0x82, bodyLen, id, topic);
    WireHeader(SubscribePacket(id, topic));
    OneFilter(id, topic);
    assert w + [0x00] == Wire(SubscribePacket(id, topic));
    i := WriteFilter(buf, 0x82, bodyLen, id, topic);
    i := AppendU8(buf, i, 0x00, was, w);
  }

  method BuildUnsubscribe(buf: array<uint8>, bufSize: nat, packetId: uint16, topic: bytes) returns (r: int32)
    requires bufSize <= buf.Length
    modifies buf
    ensures var p := UnsubscribePacket(packetId, topic);
      if topic != [] && Fits(p, bufSize)
      then r == |Wire(p)| && buf[..] == Splice(old(buf[..]), 0, Wire(p))
      else r == 0 && buf[..] == old(buf[..])
    ensures r > 0 <==> packetId != 0 && 0 < |topic| <= 65535 && SizeFits(4 + |topic|, bufSize)
    ensures r > 0 ==> r <= bufSize && Decode(buf[..r]) == Some((Unsubscribe(packetId, [topic]), []))
  {
    r := 0;
    ghost var p := UnsubscribePacket(packetId, topic);
    FilterAccepted(packetId, topic, bufSize);
    if topic == [] { return; }
    if packetId == 0 { return; }
    if |topic| > 0xFFFF { return; }
    OneFilter(packetId, topic);
    var bodyLen := 2 + 2 + |topic|;
    var rlSize := VarintSize(U32(bodyLen));
    if rlSize == 0 { return; }
    WireHeader(p);
    var total := 1 + rlSize + bodyLen;
    if total > bufSize { return; }
    ghost var was := buf[..];
    assert FilterBytes(0xA2, bodyLen, packetId, topic) == Wire(p);
    var i := WriteFilter(buf, 0xA2, bodyLen, packetId, topic);
    r := Machine.I32(i);
    WireFront(was, Wire(p), p);
  }

  method BuildPingReq(buf: array<uint8>, bufSize: nat) returns (r: int32)
    requires bufSize <= buf.Length
    modifies buf
    ensures if bufSize >= 2
            then r == 2 && buf[..] == Splice(old(buf[..]), 0, [0xC0, 0x00])
            else r == 0 && buf[..] == old(buf[..])
    ensures r > 0 <==> Fits(PingReq, bufSize)
    ensures r > 0 ==> Decode(buf[..r]) == Some((PingReq, []))
  {
    r := 0;
    assert Wire(PingReq) == [0xC0, 0x00];
    if bufSize < 2 { return; }
    WireFront(buf[..], Wire(PingReq), PingReq);
    buf[0] := 0xC0;
    buf[1] := 0x00;
    r := 2;
    assert buf[..r] == Wire(PingReq);
  }

  method BuildDisconnect(buf: array<uint8>, bufSize: nat) returns (r: int32)
    requires bufSize <= buf.Length
    modifies buf
    ensures if bufSize >= 2
            then r == 2 && buf[..] == Splice(old(buf[..]), 0, [0xE0, 0x00])
            else r == 0 && buf[..] == old(buf[..])
    ensures r > 0 <==> Fits(Disconnect, bufSize)
    ensures r > 0 ==> Decode(buf[..r]) == Some((Disconnect, []))
  {
    r := 0;
    assert Wire(Disconnect) == [0xE0, 0x00];
    if bufSize < 2 { return; }
    WireFront(buf[..], Wire(Disconnect), Disconnect);
    buf[0] := 0xE0;
    buf[1] := 0x00;
    r := 2;
    assert buf[..r] == Wire(Disconnect);
  }

  // ---- the bytes of each packet ----

  // Two bytes, high one first.
  function Two(n: nat): bytes
    requires n <= 65535
  {
    [n / 256, n % 256]
  }

  lemma StrBytes(s: bytes)
    requires |s| <= 65535
    ensures Str16(s) == Two(|s|) + s
  {}

  function ConnectHead(flags: uint8, clientId: bytes): bytes
    requires |clientId| <= 65535
  {
    [0, 4, 0x4D, 0x51, 0x54, 0x54, 4, flags, 0, 60] + (Two(|clientId|) + clientId)
  }

  lemma HeadBytes(flags: uint8, clientId: bytes)
    requires |clientId| <= 65535
    ensures Str16(PROTOCOL) + [4, flags] + U16BE(KEEPALIVE_S) + Str16(clientId) == ConnectHead(flags, clientId)
  {
    StrBytes(clientId);
    assert Str16(PROTOCOL) + [4, flags] + U16BE(KEEPALIVE_S) == [0, 4, 0x4D, 0x51, 0x54, 0x54, 4, flags, 0, 60];
  }

  lemma Regroup3(a: bytes, b: bytes, c: bytes)
    ensures a + [] + [] == a && a + b + [] == a + b && a + b + c == a + (b + c)
  {}

  /** The fixed part of a CONNECT, byte by byte, and the credentials behind it. */
  lemma ConnectLayout(clientId: bytes, u: bytes, pw: bytes)
    requires |clientId| <= 65535 && 0 < |u| <= 65535 && |pw| <= 65535
    ensures Body(ConnectPacket(clientId, None, Some(pw))) == ConnectHead(0x02, clientId)
    ensures Body(ConnectPacket(clientId, Some(u), None)) == ConnectHead(0x82, clientId) + (Two(|u|) + u)
    ensures Body(ConnectPacket(clientId, Some(u), Some(pw)))
            == ConnectHead(0xC2, clientId) + ((Two(|u|) + u) + (Two(|pw|) + pw))
    ensures FirstByte(ConnectPacket(clientId, Some(u), Some(pw))) == 0x10
  {
    hide ConnectHead, Str16, U16BE, Two;
    HeadBytes(0x02, clientId);
    HeadBytes(0x82, clientId);
    HeadBytes(0xC2, clientId);
    StrBytes(u);
    StrBytes(pw);
    Regroup3(ConnectHead(0x02, clientId), Str16(u), Str16(pw));
    Regroup3(ConnectHead(0x82, clientId), Str16(u), Str16(pw));
    Regroup3(ConnectHead(0xC2, clientId), Str16(u), Str16(pw));
  }

  /** The other packets, byte by byte. */
  lemma OtherLayouts(id: uint16, topic: bytes, payload: bytes)
    requires |topic| <= 65535
    ensures Wire(Publish(topic, payload)) ==
            [0x30] + Encoding(2 + |topic| + |payload|) + (Two(|topic|) + topic + payload)
    ensures Wire(SubscribePacket(id, topic)) ==
            [0x82] + Encoding(5 + |topic|) + (Two(id) + Two(|topic|) + topic + [0])
    ensures Wire(UnsubscribePacket(id, topic)) ==
            [0xA2] + Encoding(4 + |topic|) + (Two(id) + Two(|topic|) + topic)
  {
    OneFilter(id, topic);
    assert U16BE(id) + Str16(topic) == Two(id) + Two(|topic|) + topic;
  }

  // ---- what a broker receives ----

  /** A call of one of the builders. */
  datatype Call =
    | CallConnect(clientId: bytes, username: Option<bytes>, password: Option<bytes>)
    | CallPublish(topic: bytes, payload: bytes)
    | CallSubscribe(id: uint16, filter: bytes)
    | CallUnsubscribe(id: uint16, filter: bytes)
    | CallPingReq
    | CallDisconnect

  /** The packet that the caller means. */
  function Meant(c: Call): Packet {
    match c
    case CallConnect(id, user, pass) => ConnectPacket(id, user, pass)
    case CallPublish(topic, payload) => Publish(topic, payload)
    case CallSubscribe(id, topic) => SubscribePacket(id, topic)
    case CallUnsubscribe(id, topic) => UnsubscribePacket(id, topic)
    case CallPingReq => PingReq
    case CallDisconnect => Disconnect
  }

  /** The bytes that the builder leaves at the start of its buffer. */
  function Built(c: Call): bytes {
    match c
    case CallPublish(topic, payload) => PublishBytes(topic, payload)
    case _ => Wire(Meant(c))
  }

  predicate Accepted(c: Call, bufSize: nat) {
    match c
    case CallConnect(id, _, _) => id != [] && Fits(Meant(c), bufSize)
    case CallPublish(topic, payload) => PublishAccepted(topic, payload, bufSize)
    case CallSubscribe(_, topic) => topic != [] && Fits(Meant(c), bufSize)
    case CallUnsubscribe(_, topic) => topic != [] && Fits(Meant(c), bufSize)
    case _ => Fits(Meant(c), bufSize)
  }

  function BuiltAll(cs: seq<Call>): bytes {
    if cs == [] then [] else Built(cs[0]) + BuiltAll(cs[1..])
  }

  function MeantAll(cs: seq<Call>): seq<Packet> {
    if cs == [] then [] else [Meant(cs[0])] + MeantAll(cs[1..])
  }

  // No cast has lost anything.
  predicate Below4G(c: Call) {
    c.CallPublish? ==> 2 + |c.topic| + |c.payload| < 0x1_0000_0000
  }

  lemma BuiltReceived(c: Call, bufSize: nat, rest: bytes)
    requires Accepted(c, bufSize) && Below4G(c)
    ensures Decode(Built(c) + rest) == Some((Meant(c), rest))
  {
    hide Decode, Wire, Body;
    if c.CallPublish? { PublishIsWire(c.topic, c.payload); }
    WellFormedMeant(c, bufSize);
    DecodeWire(Meant(c), rest);
  }

  lemma WellFormedMeant(c: Call, bufSize: nat)
    requires Accepted(c, bufSize) && Below4G(c)
    ensures WellFormed(Meant(c))
  {}

  /** What a receiver must find for each call. */
  ghost predicate Carries(c: Call, p: Packet) {
    match c
    case CallConnect(id, user, pass) => CarriesConnect(p, id, user, pass)
    case CallPublish(topic, payload) => p == Publish(topic, payload)
    case CallSubscribe(id, filter) => p == Subscribe(id, [(filter, 0)])
    case CallUnsubscribe(id, filter) => p == Unsubscribe(id, [filter])
    case CallPingReq => p == PingReq
    case CallDisconnect => p == Disconnect
  }

  lemma {:induction false} MeantCarries(cs: seq<Call>)
    ensures |MeantAll(cs)| == |cs| && forall k :: 0 <= k < |cs| ==> Carries(cs[k], MeantAll(cs)[k])
    decreases |cs|
  {
    if cs != [] {
      assert Carries(cs[0], Meant(cs[0]));
      hide Carries, Meant;
      MeantCarries(cs[1..]);
      forall k | 0 < k < |cs| ensures Carries(cs[k], MeantAll(cs)[k]) {
        assert cs[k] == cs[1..][k - 1];
      }
    }
  }

  /** Packets built one after another and sent as one stream are received as
      the packets that were meant, with credentials normalised. */
  lemma {:induction false} CallsReceived(cs: seq<Call>, bufSize: nat)
    requires forall k :: 0 <= k < |cs| ==> Accepted(cs[k], bufSize) && Below4G(cs[k])
    ensures DecodeStream(BuiltAll(cs)) == Some(MeantAll(cs))
    ensures |MeantAll(cs)| == |cs| && forall k :: 0 <= k < |cs| ==> Carries(cs[k], MeantAll(cs)[k])
    decreases |cs|
  {
    hide Decode, Built, Meant, Accepted, Below4G, Carries;
    MeantCarries(cs);
    if cs != [] {
      BuiltReceived(cs[0], bufSize, BuiltAll(cs[1..]));
      CallsReceived(cs[1..], bufSize);
    }
  }
}
