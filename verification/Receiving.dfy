/** What reaches the handlers: which datagrams are parsed and dispatched, which are answered as
    pings, and which requests find no entry. */
module Receiving {
  import opened Bits
  import opened Codes
  import opened Wire
  import opened Sessions

  /** The receive buffer after a datagram was read into it. */
  function Buffer(pkt: seq<u8>): (b: seq<u8>)
    requires |pkt| <= MSG_BUFFER
    ensures |b| == MSG_BUFFER
  {
    pkt + Zeros(MSG_BUFFER - |pkt|)
  }

  /** A datagram reaches the application handlers exactly if it has five bytes, is of IPMI class
      and not RMCP+, asks for no acknowledgement, and names the application function at byte 15,
      or at byte 31 behind an auth code; bytes beyond its end count as zero. */
  lemma ReachesApplication(pkt: seq<u8>)
    requires |pkt| <= MSG_BUFFER
    ensures IsAppRequest(pkt) <==>
            && 5 <= |pkt| && pkt[2] == 0xff && pkt[3] == 7 && pkt[4] != 6
            && Buffer(pkt)[if pkt[4] == 0 then 15 else 31] / 4 == 6
  {
    hide Un32;
    var b := Buffer(pkt);
    assert b[14..20][1] == b[15] && b[30..36][1] == b[31];
  }

  /** A datagram is dropped exactly below five bytes; one that is not parsed goes to the first
      chassis command, which does nothing. */
  lemma NotParsed(pkt: seq<u8>, l: Lan, rnd: u32, other: Elsewhere)
    requires |pkt| <= MSG_BUFFER && Shape(l)
    ensures RouteOf(pkt).None? <==> |pkt| < 5
    ensures 5 <= |pkt| && (pkt[2] != 0xff || pkt[3] != 7 || pkt[4] == 6) ==>
              && RouteOf(pkt).value.message == NO_MESSAGE && Serve(l, RouteOf(pkt).value, rnd, other) == Done(Result(l, []))
  {
    hide Un32;
  }

  /** What parsing makes of any buffer, byte by byte: without the sequence byte 0xff only the
      header, the read position behind it; else the session layer, with the auth code and the
      length behind it if a type is given, and the message layer. */
  lemma ParsedFields(data: seq<u8>, n: nat)
    requires |data| == MSG_BUFFER
    ensures var m := ParseRmcp(Received(data, n));
            && m.data == data && m.dataLen == n && m.hdr == RmcpHeader(data[0], data[2], data[3])
            && (data[2] != 0xff ==> m.dataStart == 4 && m.session == NO_SESSION && m.message == NO_MESSAGE)
            && (data[2] == 0xff ==>
                  var s := if data[4] == AUTHTYPE_NONE then 14 else 30;
                  && m.dataStart == s + 6
                  && m.session == (if data[4] == AUTHTYPE_NONE then SessionLayer(0, Un32(data[5..9]), Un32(data[9..13]), Zeros(16), 0)
                                   else SessionLayer(data[4], Un32(data[5..9]), Un32(data[9..13]), data[13..29], data[29]))
                  && m.message == MessageLayer(data[s], data[s + 1] / 4, data[s + 1] % 4, data[s + 3], data[s + 4] / 4, data[s + 4] % 4,
                                               data[s + 5]))
  {
    hide Un32;
    SubSlice(data, 4, 30, 1, 5);
    SubSlice(data, 4, 30, 5, 9);
    SubSlice(data, 4, 30, 9, 25);
  }

  lemma SubSlice(s: seq<u8>, a: nat, b: nat, lo: nat, hi: nat)
    requires a <= b <= |s| && lo <= hi <= b - a
    ensures s[a..b][lo..hi] == s[a + lo..a + hi]
  {
    forall k | 0 <= k < hi - lo
      ensures s[a..b][lo..hi][k] == s[a + lo..a + hi][k]
    {
      assert s[a..b][lo + k] == s[a + (lo + k)];
    }
  }

  /** A presence ping is answered by 28 bytes: an ASF header with no acknowledgement asked, the
      enterprise number, a pong with the ping's tag and sixteen bytes of data, which name the
      enterprise again and IPMI as supported.  Nothing else is answered so. */
  lemma PongBytes(pkt: seq<u8>)
    ensures Pong(pkt) == [] <==> |pkt| < 12 || pkt[3] != 6 || Un32(pkt[4..8]) != 4542 || pkt[8] != 0x80
    ensures Pong(pkt) != [] ==>
              var p := Pong(pkt)[0];
              && |Pong(pkt)| == 1 && |p| == 28 && p[..4] == [6, 0, 0xff, 6] && Un32(p[4..8]) == 4542
              && p[8] == 0x40 && p[9] == pkt[9] && p[10] == 0 && p[11] as int == |p| - 12
              && Un32(p[12..16]) == 4542 && p[16..20] == [0, 0, 0, 0] && p[20] == 0x81 && forall k :: 21 <= k < 28 ==> p[k] == 0
  {
    hide Un32, Le32;
    LittleEndian32(4542);
    if Pong(pkt) != [] {
      var p := Pong(pkt)[0];
      assert p[4..8] == Le32(4542) && p[12..16] == Le32(4542);
    }
  }

  /** The requests that find no entry, by what is missing. */
  lemma MissingEntries(netfn: u8, cmd: u8)
    ensures !HasHandler(APP_NETFN, cmd) <==>
            cmd == 0 || 0x09 <= cmd <= 0x21 || cmd == 0x23 || 0x26 <= cmd <= 0x2d || cmd == 0x3e || cmd == 0x51 || cmd == 0x53 || 0x58 <= cmd
    ensures !HasHandler(CHASSIS_NETFN, cmd) <==> cmd == 0x01 || 0x0a <= cmd
    ensures !HasHandler(SENSOR_EVENT_NETFN, cmd) <==>
            0x03 <= cmd <= 0x0f || 0x18 <= cmd <= 0x1f || cmd == 0x2c || 0x30 <= cmd
    ensures !HasHandler(STORAGE_NETFN, cmd) <==>
            cmd <= 0x0f || 0x13 <= cmd <= 0x1f || 0x2d <= cmd <= 0x3f || 0x4a <= cmd <= 0x59 || 0x5c <= cmd
    ensures netfn % 2 == 1 || 0x0e <= netfn <= 0x2b || 0x30 <= netfn ==> !HasHandler(netfn, cmd)
    ensures netfn in {0x02, 0x08, 0x0c, 0x2c, 0x2e} ==> HasHandler(netfn, cmd)
    ensures MayAnswer(netfn, cmd) ==> HasHandler(netfn, cmd) && netfn in {SENSOR_EVENT_NETFN, STORAGE_NETFN}
    ensures HasHandler(SENSOR_EVENT_NETFN, cmd) && !MayAnswer(SENSOR_EVENT_NETFN, cmd) <==> HasHandler(SENSOR_EVENT_NETFN, cmd) && cmd != 0x2d
    ensures HasHandler(STORAGE_NETFN, cmd) && !MayAnswer(STORAGE_NETFN, cmd) <==>
            0x10 <= cmd <= 0x12 || cmd == 0x21 || 0x25 <= cmd <= 0x26 || 0x28 <= cmd <= 0x2c || cmd == 0x41 || 0x45 <= cmd <= 0x46
            || 0x48 <= cmd <= 0x49 || 0x5a <= cmd <= 0x5b
  {
  }
}
