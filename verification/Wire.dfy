/** The RMCP packet: what both ends write, and how the server reads it.

    Layout (sections 13.6 and 13.8 of the IPMI v2.0 specification): RMCP header, session
    header with an optional 16-byte auth code, message header with its checksum, command
    data, second checksum. */
module Wire {
  import opened Bits
  import opened Checksum

  const AUTHTYPE_NONE: u8 := 0
  const CLIENT_RSADDR: u8 := 0x20
  const CLIENT_RQADDR: u8 := 0x81
  const MAX_MSG_RETURN_DATA := 1000
  const MSG_BUFFER := 4000

  // ---------- what a packet is ----------

  /** The variable bytes of the three headers. */
  datatype Head = Head(auth: u8, seqNum: u32, sid: u32, length: u8,
                       toAddr: u8, fnLun: u8, fromAddr: u8, seqLun: u8, cmd: u8)

  function SessionHeader(h: Head): seq<u8> {
    [6, 0, 0xff, 7, h.auth] + Le32(h.seqNum) + Le32(h.sid) +
    (if h.auth == AUTHTYPE_NONE then [] else Zeros(16)) + [h.length]
  }

  /** Where the message header starts. */
  function MessageStart(auth: u8): nat {
    if auth == AUTHTYPE_NONE then 14 else 30
  }

  function MessageBytes(h: Head, payload: seq<u8>): seq<u8> {
    [h.toAddr, h.fnLun, CheckByte([h.toAddr, h.fnLun]), h.fromAddr, h.seqLun, h.cmd] +
    payload + [CheckByte([h.fromAddr, h.seqLun, h.cmd] + payload)]
  }

  function Frame(h: Head, payload: seq<u8>): (pkt: seq<u8>)
    ensures |pkt| == MessageStart(h.auth) + 7 + |payload|
  {
    SessionHeader(h) + MessageBytes(h, payload)
  }

  /** Both checksums hold in every frame: the two bytes before the first one, and all bytes
      between the two, sum with their checksum to zero modulo 256. */
  lemma FrameChecksums(h: Head, payload: seq<u8>)
    ensures var pkt, s := Frame(h, payload), MessageStart(h.auth);
            Sum(pkt[s..s + 3]) % 256 == 0 && Sum(pkt[s + 3..]) % 256 == 0
  {
    hide Le32, CheckByte;
    var pkt, s := Frame(h, payload), MessageStart(h.auth);
    var first, second := [h.toAddr, h.fnLun], [h.fromAddr, h.seqLun, h.cmd] + payload;
    assert pkt[s..s + 3] == first + [CheckByte(first)];
    assert pkt[s + 3..] == second + [CheckByte(second)];
    CheckByteCancels(first, CheckByte(first));
    CheckByteCancels(second, CheckByte(second));
  }

  // ---------- the server's message ----------

  datatype RmcpHeader = RmcpHeader(version: u8, rmcpSeq: u8, msgClass: u8)

  datatype SessionLayer = SessionLayer(authType: u8, seqNum: u32, sid: u32, authCode: seq<u8>, payloadLgth: u8)

  datatype MessageLayer = MessageLayer(rsAddr: u8, netfn: u8, rsLun: u8, rqAddr: u8, rqSeq: u8, rqLun: u8, cmd: u8)

  /** A received message: the receive buffer, the read position, and the decoded layers. */
  datatype Msg = Msg(data: seq<u8>, dataLen: nat, dataStart: nat,
                     hdr: RmcpHeader, session: SessionLayer, message: MessageLayer)

  const NO_HEADER := RmcpHeader(0, 0, 0)
  const NO_SESSION := SessionLayer(0, 0, 0, Zeros(16), 0)
  const NO_MESSAGE := MessageLayer(0, 0, 0, 0, 0, 0, 0)

  /** A message just read from the socket: all decoded fields zero. */
  function Received(data: seq<u8>, dataLen: nat): Msg {
    Msg(data, dataLen, 0, NO_HEADER, NO_SESSION, NO_MESSAGE)
  }

  function ReadHeader(b: seq<u8>): RmcpHeader
    requires 4 <= |b|
  {
    RmcpHeader(b[0], b[2], b[3])
  }

  /** Without authentication there is no auth code, and its fields keep their value. */
  function ReadSession(b: seq<u8>, s: SessionLayer): SessionLayer
    requires 26 <= |b|
  {
    var s1 := s.(authType := b[0], seqNum := Un32(b[1..5]), sid := Un32(b[5..9]));
    if b[0] == AUTHTYPE_NONE then s1 else s1.(authCode := b[9..25], payloadLgth := b[25])
  }

  function ReadMessage(b: seq<u8>): MessageLayer
    requires 6 <= |b|
  {
    MessageLayer(b[0], b[1] / 4, b[1] % 4, b[3], b[4] / 4, b[4] % 4, b[5])
  }

  function SessionLayerLength(authType: u8): nat {
    if authType == AUTHTYPE_NONE then 10 else 26
  }

  function ParseRmcp(m: Msg): Msg
    requires m.dataStart + 36 <= |m.data|
  {
    var d := m.dataStart;
    var hdr := ReadHeader(m.data[d..d + 4]);
    if hdr.rmcpSeq != 0xff then
      m.(hdr := hdr, dataStart := d + 4)
    else
      var session := ReadSession(m.data[d + 4..d + 30], m.session);
      var e := d + 4 + SessionLayerLength(session.authType);
      m.(hdr := hdr, session := session, message := ReadMessage(m.data[e..e + 6]), dataStart := e + 6)
  }

  /** The server's message object, with its fixed receive buffer. */
  class MsgT {
    const data: array<u8>
    var dataLen: nat
    var dataStart: nat
    var hdr: RmcpHeader
    var session: SessionLayer
    var message: MessageLayer

    function View(): Msg
      reads this, data
    {
      Msg(data[..], dataLen, dataStart, hdr, session, message)
    }

    /** Reading a datagram into a new message. */
    constructor (pkt: seq<u8>)
      requires |pkt| <= MSG_BUFFER
      ensures View() == Received(pkt + Zeros(MSG_BUFFER - |pkt|), |pkt|)
      ensures fresh(data) && data.Length == MSG_BUFFER
    {
      data := new u8[MSG_BUFFER](i requires 0 <= i => if i < |pkt| then pkt[i] else 0);
      dataLen, dataStart := |pkt|, 0;
      hdr, session, message := NO_HEADER, NO_SESSION, NO_MESSAGE;
      new;
      assert data[..] == pkt + Zeros(MSG_BUFFER - |pkt|);
    }

    method IpmiParseRmcpMsg()
      requires dataStart + 36 <= data.Length
      modifies this
      ensures View() == ParseRmcp(old(View()))
    {
      hide ReadHeader, ReadSession, ReadMessage;
      hdr := ReadHeader(data[dataStart..dataStart + 4]);
      dataStart := dataStart + 4;
      if hdr.rmcpSeq != 0xff {
        return;
      }
      session := ReadSession(data[dataStart..dataStart + 26], session);
      if session.authType != AUTHTYPE_NONE {
        dataStart := dataStart + 26;
      } else {
        dataStart := dataStart + 10;
      }
      message := ReadMessage(data[dataStart..dataStart + 6]);
      dataStart := dataStart + 6;
    }
  }

  /** Byte positions of a frame at the start of a buffer. */
  lemma FrameBytes(h: Head, payload: seq<u8>, data: seq<u8>)
    requires Frame(h, payload) <= data
    ensures var s := MessageStart(h.auth);
            && data[0] == 6 && data[1] == 0 && data[2] == 0xff && data[3] == 7 && data[4] == h.auth
            && data[5..9] == Le32(h.seqNum) && data[9..13] == Le32(h.sid) && data[s - 1] == h.length
            && data[s] == h.toAddr && data[s + 1] == h.fnLun && data[s + 3] == h.fromAddr
            && data[s + 4] == h.seqLun && data[s + 5] == h.cmd
            && data[s + 6..s + 6 + |payload|] == payload
  {
    hide Le32, CheckByte;
    var s, pkt := MessageStart(h.auth), Frame(h, payload);
    var a := [6, 0, 0xff, 7, h.auth];
    var auth := if h.auth == AUTHTYPE_NONE then [] else Zeros(16);
    assert pkt == data[..|pkt|];
    assert SessionHeader(h) == a + (Le32(h.seqNum) + (Le32(h.sid) + (auth + [h.length])));
    assert pkt[..s] == SessionHeader(h) && pkt[s..] == MessageBytes(h, payload);
    assert pkt[5..9] == Le32(h.seqNum) && pkt[9..13] == Le32(h.sid);
    assert MessageBytes(h, payload)[6..6 + |payload|] == payload;
    assert data[s + 6..s + 6 + |payload|] == pkt[s + 6..s + 6 + |payload|] == payload;
  }

  /** Parsing undoes framing: every field comes back, and the read position is left on the
      first payload byte. */
  lemma ParseFrame(h: Head, payload: seq<u8>, data: seq<u8>, dataLen: nat)
    requires Frame(h, payload) <= data && 36 <= |data|
    ensures var m := ParseRmcp(Received(data, dataLen));
            && m.data == data && m.dataLen == dataLen
            && m.hdr == RmcpHeader(6, 0xff, 7)
            && m.session == SessionLayer(h.auth, h.seqNum, h.sid, Zeros(16), if h.auth == AUTHTYPE_NONE then 0 else h.length)
            && m.message == MessageLayer(h.toAddr, h.fnLun / 4, h.fnLun % 4,
                                         h.fromAddr, h.seqLun / 4, h.seqLun % 4, h.cmd)
            && m.dataStart == MessageStart(h.auth) + 6
            && data[m.dataStart..m.dataStart + |payload|] == payload
  {
    hide Le32, Un32, CheckByte;
    FrameBytes(h, payload, data);
    LittleEndian32(h.seqNum);
    LittleEndian32(h.sid);
    var b := data[4..30];
    assert b[1..5] == data[5..9] && b[5..9] == data[9..13];
    if h.auth != AUTHTYPE_NONE {
      assert Frame(h, payload)[13..29] == Zeros(16);
      assert b[9..25] == data[13..29] == Frame(h, payload)[13..29];
    }
  }

  // ---------- writing packets ----------

  /** `data[dcur] = b; dcur++`. */
  method Put(buf: array<u8>, dcur: nat, b: u8) returns (next: nat)
    requires dcur < buf.Length
    modifies buf
    ensures next == dcur + 1
    ensures buf[..next] == old(buf[..dcur]) + [b]
    ensures forall k :: next <= k < buf.Length ==> buf[k] == old(buf[k])
  {
    buf[dcur] := b;
    next := dcur + 1;
  }

  /** `copy(data[dcur:], s); dcur += len(s)`. */
  method PutAll(buf: array<u8>, dcur: nat, s: seq<u8>) returns (next: nat)
    requires dcur + |s| <= buf.Length
    modifies buf
    ensures next == dcur + |s|
    ensures buf[..next] == old(buf[..dcur]) + s
    ensures forall k :: next <= k < buf.Length ==> buf[k] == old(buf[k])
  {
    forall k | 0 <= k < |s| {
      buf[dcur + k] := s[k];
    }
    next := dcur + |s|;
    assert buf[..dcur] == old(buf[..dcur]) && buf[dcur..next] == s;
    assert buf[..next] == buf[..dcur] + buf[dcur..next];
  }

  /** The headers up to the session id. */
  method PutHeader(buf: array<u8>, authtype: u8, seqNum: u32, sid: u32) returns (dcur: nat)
    requires 13 <= buf.Length
    modifies buf
    ensures dcur == 13 && buf[..13] == [6, 0, 0xff, 7, authtype] + Le32(seqNum) + Le32(sid)
    ensures forall k :: 13 <= k < buf.Length ==> buf[k] == old(buf[k])
  {
    dcur := Put(buf, 0, 6);
    dcur := Put(buf, dcur, 0);
    dcur := Put(buf, dcur, 0xff);
    dcur := Put(buf, dcur, 7);
    dcur := Put(buf, dcur, authtype);
    dcur := PutAll(buf, dcur, Le32(seqNum));
    dcur := PutAll(buf, dcur, Le32(sid));
  }

  /** The six bytes of the message header, the first checksum among them. */
  method PutMessageHeader(buf: array<u8>, start: nat, toAddr: u8, fnLun: u8, fromAddr: u8, seqLun: u8, cmd: u8)
    returns (dcur: nat)
    requires start + 6 <= buf.Length
    modifies buf
    ensures dcur == start + 6
    ensures buf[..dcur] == old(buf[..start]) + [toAddr, fnLun, CheckByte([toAddr, fnLun]), fromAddr, seqLun, cmd]
  {
    dcur := Put(buf, start, toAddr);
    dcur := Put(buf, dcur, fnLun);
    SliceOfPrefix(buf, start, dcur, dcur);
    assert buf[start..dcur] == [toAddr, fnLun];
    var csum := HeaderChecksum(buf[start..dcur]);
    dcur := Put(buf, dcur, csum);
    dcur := Put(buf, dcur, fromAddr);
    dcur := Put(buf, dcur, seqLun);
    dcur := Put(buf, dcur, cmd);
  }

  /** The message layer, from the cursor on: header, payload and the two checksums, each
      computed over bytes already in the buffer. */
  method PutMessage(buf: array<u8>, start: nat, toAddr: u8, fnLun: u8, fromAddr: u8, seqLun: u8, cmd: u8,
                    payload: seq<u8>) returns (dcur: nat)
    requires start + 7 + |payload| <= buf.Length
    modifies buf
    ensures dcur == start + 7 + |payload|
    ensures buf[..dcur] == old(buf[..start]) + MessageBytes(Head(0, 0, 0, 0, toAddr, fnLun, fromAddr, seqLun, cmd), payload)
  {
    var mid := PutMessageHeader(buf, start, toAddr, fnLun, fromAddr, seqLun, cmd);
    ghost var header := buf[..mid];
    dcur := PutAll(buf, mid, payload);
    SliceOfPrefix(buf, mid - 3, mid, dcur);
    SliceOfPrefix(buf, mid, dcur, dcur);
    assert buf[mid - 3..mid] == header[mid - 3..] == [fromAddr, seqLun, cmd];
    assert buf[mid..dcur] == payload;
    var csum := BodyChecksum(buf[mid - 3..mid], buf[mid..dcur]);
    dcur := Put(buf, dcur, csum);
  }

  lemma SliceOfPrefix(buf: array<u8>, lo: nat, hi: nat, n: nat)
    requires lo <= hi <= n <= buf.Length
    ensures buf[lo..hi] == buf[..n][lo..hi]
  {
  }

  /** Negating a first checksum and seeding the second with it continues the sum. */
  lemma ChainedChecksum(a: seq<u8>, b: seq<u8>, first: i8, seed: i8, last: i8)
    requires (first as int + Sum(a)) % 256 == 0 && seed == Int8(0 - first as int)
    requires (last as int + seed as int + Sum(b)) % 256 == 0
    ensures Uint8(last) == CheckByte(a + b)
  {
    hide Sum, Int8, CheckByte;
    Int8Congruent(0 - first as int);
    SumConcat(a, b);
    Chain(first, seed, last, Sum(a), Sum(b));
    CheckedByte(a + b, last);
  }

  lemma Chain(first: int, seed: int, last: int, a: int, b: int)
    requires (first + a) % 256 == 0 && (seed + first) % 256 == 0 && (last + seed + b) % 256 == 0
    ensures (last + (a + b)) % 256 == 0
  {
    var k := (first + a) / 256 - (seed + first) / 256 + (last + seed + b) / 256;
    assert last + (a + b) == 256 * k;
  }

  lemma CheckedByte(s: seq<u8>, csum: i8)
    requires (csum as int + Sum(s)) % 256 == 0
    ensures Uint8(csum) == CheckByte(s)
  {
    hide Sum;
    Negated(csum, Sum(s));
  }

  lemma Negated(c: int, sum: int)
    requires (c + sum) % 256 == 0
    ensures c % 256 == (0 - sum) % 256
  {
    var k := (c + sum) / 256;
    assert 0 - sum == c - 256 * k;
  }

  /** The first two-byte checksum. */
  method HeaderChecksum(s: seq<u8>) returns (c: u8)
    ensures c == CheckByte(s)
  {
    var csum := IpmiChecksum(s, |s|, 0);
    assert s[..|s|] == s;
    CheckedByte(s, csum);
    c := Uint8(csum);
  }

  /** The second checksum: one call over the three header bytes, negated, seeding a second
      call over the payload. */
  method BodyChecksum(a: seq<u8>, b: seq<u8>) returns (c: u8)
    ensures c == CheckByte(a + b)
  {
    var first := IpmiChecksum(a, |a|, 0);
    var seed := Int8(0 - first as int);
    var last := IpmiChecksum(b, |b|, seed);
    assert a[..|a|] == a && b[..|b|] == b;
    ChainedChecksum(a, b, first, seed, last);
    c := Uint8(last);
  }

  // ---------- requests ----------

  function RequestHead(reqLen: u8, sseq: u32, sid: u32, rsLun: u8, netFn: u8, rqLun: u8, rqSeq: u8, cmd: u8): Head {
    Head(AUTHTYPE_NONE, sseq, sid, reqLen, CLIENT_RSADDR, Pack(netFn, rsLun), CLIENT_RQADDR, Pack(rqSeq, rqLun), cmd)
  }

  /** The slice `data[:uint8(dcur)]`: the cursor is truncated to eight bits. */
  function RequestPacket(h: Head, payload: seq<u8>): seq<u8>
    requires |payload| < 256
  {
    Frame(h, payload)[..|Frame(h, payload)| % 256]
  }

  method ClientBuildMsg(cmdData: seq<u8>, cmdLen: u8, reqLen: u8, sseq: u32, sid: u32, rsLun: u8, netFn: u8,
                        rqLun: u8, rqSeq: u8, cmd: u8) returns (pkt: seq<u8>)
    requires cmdLen <= |cmdData|
    ensures pkt == RequestPacket(RequestHead(reqLen, sseq, sid, rsLun, netFn, rqLun, rqSeq, cmd), cmdData[..cmdLen])
  {
    ghost var h := RequestHead(reqLen, sseq, sid, rsLun, netFn, rqLun, rqSeq, cmd);
    var data := new u8[MAX_MSG_RETURN_DATA];
    var dcur := PutHeader(data, AUTHTYPE_NONE, sseq, sid);
    dcur := Put(data, dcur, reqLen);
    assert data[..dcur] == SessionHeader(h);
    dcur := PutMessage(data, dcur, CLIENT_RSADDR, Pack(netFn, rsLun), CLIENT_RQADDR, Pack(rqSeq, rqLun), cmd,
                       cmdData[..cmdLen]);
    assert data[..dcur] == Frame(h, cmdData[..cmdLen]);
    pkt := data[..dcur % 256];
    assert pkt == data[..dcur][..dcur % 256];
  }

  /** A request packet is whole exactly when its payload has at most 234 bytes. */
  lemma RequestWhole(h: Head, payload: seq<u8>)
    requires h.auth == AUTHTYPE_NONE && |payload| < 256
    ensures RequestPacket(h, payload) == Frame(h, payload) <==> |payload| <= 234
  {
    assert |Frame(h, payload)| == 21 + |payload|;
    if |payload| <= 234 {
      assert RequestPacket(h, payload) == Frame(h, payload);
    }
  }

  /** The server reads back exactly what the client wrote, for every payload that fits. */
  lemma RequestRoundTrip(payload: seq<u8>, reqLen: u8, sseq: u32, sid: u32, rsLun: u8, netFn: u8, rqLun: u8,
                         rqSeq: u8, cmd: u8, buffer: seq<u8>, dataLen: nat)
    requires |payload| <= 234 && netFn < 64 && rsLun < 4 && rqLun < 4
    requires 36 + |payload| <= |buffer|
    requires RequestPacket(RequestHead(reqLen, sseq, sid, rsLun, netFn, rqLun, rqSeq, cmd), payload) <= buffer
    ensures ParseRmcp(Received(buffer, dataLen)) ==
            Msg(buffer, dataLen, 20, RmcpHeader(6, 0xff, 7), SessionLayer(AUTHTYPE_NONE, sseq, sid, Zeros(16), 0),
                MessageLayer(CLIENT_RSADDR, netFn, rsLun, CLIENT_RQADDR, rqSeq % 64, rqLun, cmd))
    ensures buffer[20..20 + |payload|] == payload
  {
    hide Pack, Le32, Un32, Frame, CheckByte;
    var h := RequestHead(reqLen, sseq, sid, rsLun, netFn, rqLun, rqSeq, cmd);
    RequestWhole(h, payload);
    ParseFrame(h, payload, buffer, dataLen);
    PackValue(netFn, rsLun);
    PackValue(rqSeq, rqLun);
  }

  // ---------- responses ----------

  /** Network function of a response: the request's with the low bit set. */
  function ResponseNetfn(netfn: u8): u8 {
    BitOr(netfn, 1) % 0x100
  }

  function ResponseHead(m: Msg, authtype: u8, xmitSeq: u32, sid: u32, payloadLen: nat): Head {
    Head(authtype, xmitSeq, sid, (payloadLen + 7) % 0x100,
         m.message.rqAddr, Pack(ResponseNetfn(m.message.netfn), m.message.rqLun),
         m.message.rsAddr, Pack(m.message.rqSeq, m.message.rsLun), m.message.cmd)
  }

  method BuildResponse(m: Msg, authtype: u8, xmitSeq: u32, sid: u32, payload: seq<u8>) returns (pkt: seq<u8>)
    requires |payload| + 37 <= MAX_MSG_RETURN_DATA
    ensures pkt == Frame(ResponseHead(m, authtype, xmitSeq, sid, |payload|), payload)
  {
    ghost var h := ResponseHead(m, authtype, xmitSeq, sid, |payload|);
    var data := new u8[MAX_MSG_RETURN_DATA](_ => 0);
    var dcur := PutHeader(data, authtype, xmitSeq, sid);
    if authtype != AUTHTYPE_NONE {
      assert data[..dcur + 16] == data[..dcur] + Zeros(16);
      dcur := dcur + 16;
    }
    dcur := Put(data, dcur, (|payload| + 7) % 0x100);
    assert data[..dcur] == SessionHeader(h);
    dcur := PutMessage(data, dcur, m.message.rqAddr, Pack(ResponseNetfn(m.message.netfn), m.message.rqLun),
                       m.message.rsAddr, Pack(m.message.rqSeq, m.message.rsLun), m.message.cmd, payload);
    pkt := data[..dcur];
  }

  /** Parsing a response gives the request back with ends swapped: addresses and LUNs
      exchanged, the network function's low bit set, sequence and command unchanged, and
      the session's id and outbound number in the session layer. */
  lemma ResponseRoundTrip(m: Msg, authtype: u8, xmitSeq: u32, sid: u32, payload: seq<u8>, buffer: seq<u8>, dataLen: nat)
    requires m.message.netfn < 64 && m.message.rqSeq < 64 && m.message.rsLun < 4 && m.message.rqLun < 4
    requires 36 + |payload| <= |buffer| && Frame(ResponseHead(m, authtype, xmitSeq, sid, |payload|), payload) <= buffer
    ensures var r, q := ParseRmcp(Received(buffer, dataLen)), m.message;
            && r.session.authType == authtype && r.session.seqNum == xmitSeq && r.session.sid == sid
            && r.message == MessageLayer(q.rqAddr, q.netfn / 2 * 2 + 1, q.rqLun, q.rsAddr, q.rqSeq, q.rsLun, q.cmd)
            && r.dataStart == (if authtype == AUTHTYPE_NONE then 20 else 36)
            && buffer[r.dataStart..r.dataStart + |payload|] == payload
  {
    hide Pack, Le32, Un32, Frame, CheckByte, ResponseNetfn;
    var q := m.message;
    ParseFrame(ResponseHead(m, authtype, xmitSeq, sid, |payload|), payload, buffer, dataLen);
    ResponseNetfnValue(q.netfn);
    PackValue(ResponseNetfn(q.netfn), q.rqLun);
    PackValue(q.rqSeq, q.rsLun);
  }

  lemma ResponseNetfnValue(netfn: u8)
    requires netfn < 64
    ensures ResponseNetfn(netfn) == netfn / 2 * 2 + 1
  {
    OrZero(netfn / 2);
    assert BitOr(netfn, 1) == 1 + 2 * BitOr(netfn / 2, 0);
  }
}
