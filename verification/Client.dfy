/** The client side of session establishment: the running context, and for each of the four
    states the request it sends and the reply it accepts. */
module Client {
  import opened Bits
  import opened Wire
  import opened Sessions
  import Checksum

  const MAX_RETRIES := 3
  const INITIAL_OUTBOUND_SEQ: u32 := 0x3C2F_B505
  const ADD_SDR_CMD: u8 := 0x24

  datatype Ctx = Ctx(rqSeq: u8, challengeStr: seq<u8>, tempSessionId: u32, sessionSeq: u32, sessionId: u32,
                     maxPrivLevel: u8, privLevel: u8)

  /** What one try meets.  The socket has no deadline, so a try that hears nothing blocks; only
      an error or an unacceptable datagram leads to the next try.
      Failed: the write or the read returns an error.
      Garbled: d is read instead of the server's reply, and is not acceptable.
      Silent: nothing can be read any more.
      Delivered: the request is handled, and the server's reply is read if there is one. */
  datatype Fate = Failed(arrived: bool) | Garbled(arrived: bool, d: seq<u8>) | Silent(arrived: bool) | Delivered

  predicate Reaches(f: Fate) {
    f.Delivered? || f.arrived
  }

  /** How the server meets the arrivals of one request: it answers each acceptably, refuses
      each, or answers the first n and is silent from then on. */
  datatype Server = Answers | Refuses | AnswersFirst(n: nat)

  /** How a retry loop ends: a reply was accepted, the tries are used up, or a read blocks
      for ever. */
  datatype End = Accepted | GaveUp | Blocked

  /** The end of the retry loop over the given tries, after a arrivals. */
  function Verdict(s: Server, a: nat, fates: seq<Fate>): End
    decreases |fates|
  {
    if fates == [] then GaveUp
    else if fates[0].Silent? || (fates[0].Delivered? && s.AnswersFirst? && a >= s.n) then Blocked
    else if fates[0].Delivered? && !s.Refuses? then Accepted
    else Verdict(s, if Reaches(fates[0]) then a + 1 else a, fates[1..])
  }

  predicate Retried(s: Server, f: Fate) {
    f.Failed? || f.Garbled? || (f.Delivered? && s.Refuses?)
  }

  /** How many tries reach the server: the loop ends at the first that is not retried. */
  function Arrivals(s: Server, fates: seq<Fate>): nat {
    if fates == [] then 0
    else (if Reaches(fates[0]) then 1 else 0) + (if Retried(s, fates[0]) then Arrivals(s, fates[1..]) else 0)
  }

  /** Some try is delivered, and every try before it ends in an error or in an unacceptable
      datagram: none of them is silent. */
  predicate GetsReply(fates: seq<Fate>) {
    exists j :: 0 <= j < |fates| && fates[j].Delivered? && forall i :: 0 <= i < j ==> fates[i].Failed? || fates[i].Garbled?
  }

  /** A retry loop is done exactly when a try gets through before any silence, to a server
      that still answers. */
  lemma {:induction false} AcceptedExactly(s: Server, a: nat, fates: seq<Fate>)
    ensures Verdict(s, a, fates).Accepted? <==>
            GetsReply(fates) && !s.Refuses? && (s.AnswersFirst? ==> a + Arrivals(s, fates) <= s.n)
    decreases |fates|
  {
    if fates != [] {
      var rest, a' := fates[1..], if Reaches(fates[0]) then a + 1 else a;
      AcceptedExactly(s, a', rest);
      assert forall j :: 0 <= j < |rest| ==> fates[j + 1] == rest[j];
    }
  }

  /** It never returns exactly when the first try that is not retried is silent or finds the
      server silent, whatever the later tries would meet. */
  lemma {:induction false} BlockedExactly(s: Server, a: nat, fates: seq<Fate>)
    ensures Verdict(s, a, fates).Blocked? <==>
            exists j :: 0 <= j < |fates| && (forall i :: 0 <= i < j ==> Retried(s, fates[i]))
                        && (fates[j].Silent? || (fates[j].Delivered? && s.AnswersFirst? && a + Arrivals(s, fates[..j]) >= s.n))
    decreases |fates|
  {
    if fates != [] {
      var rest, a' := fates[1..], if Reaches(fates[0]) then a + 1 else a;
      BlockedExactly(s, a', rest);
      forall j | 0 <= j < |rest|
        ensures fates[j + 1] == rest[j]
        ensures fates[0].Failed? || fates[0].Garbled? ==>
                  Arrivals(s, fates[..j + 1]) == (if Reaches(fates[0]) then 1 else 0) + Arrivals(s, rest[..j])
      {
        PrefixTail(fates, j);
      }
    }
  }

  lemma PrefixTail(fates: seq<Fate>, j: nat)
    requires j + 1 < |fates|
    ensures fates[..j + 1][0] == fates[0] && fates[..j + 1][1..] == fates[1..][..j]
  {
  }

  /** The four rows of the state table, in order. */
  datatype State = AuthCap | Challenge | Activate | SetPriv

  function StateAt(idx: nat): State
    requires idx < 4
  {
    match idx case 0 => AuthCap case 1 => Challenge case 2 => Activate case _ => SetPriv
  }

  function NextRqSeq(c: Ctx): Ctx {
    c.(rqSeq := (c.rqSeq + 1) % 0x100)
  }

  function CmdData(c: Ctx, st: State): (s: seq<u8>)
    requires |c.challengeStr| == 16
    ensures |s| <= 22
  {
    match st
    case AuthCap => [0x0E, 0x03]
    case Challenge => [0x00] + Padded(IPMIUSR)
    case Activate => [0x00, 0x03] + c.challengeStr + Le32(INITIAL_OUTBOUND_SEQ)
    case SetPriv => [c.maxPrivLevel]
  }

  function RequestHeadOf(c: Ctx, st: State): Head {
    match st
    case AuthCap => RequestHead(0x09, 0, 0, 0, APP_NETFN, 0, c.rqSeq, GET_CHANNEL_AUTH_CAPABILITIES_CMD)
    case Challenge => RequestHead(0x18, 0, 0, 0, APP_NETFN, 0, c.rqSeq, GET_SESSION_CHALLENGE_CMD)
    case Activate => RequestHead(0x1D, 0, c.tempSessionId, 0, APP_NETFN, 0, c.rqSeq, ACTIVATE_SESSION_CMD)
    case SetPriv => RequestHead(0x08, c.sessionSeq, c.sessionId, 0, APP_NETFN, 0, c.rqSeq, SET_SESSION_PRIVILEGE_CMD)
  }

  /** The request packet of a state. */
  function RequestMsg(c: Ctx, st: State): (pkt: seq<u8>)
    requires |c.challengeStr| == 16
    ensures |pkt| == 21 + |CmdData(c, st)|
  {
    RequestWhole(RequestHeadOf(c, st), CmdData(c, st));
    RequestPacket(RequestHeadOf(c, st), CmdData(c, st))
  }

  /** The context after building it. */
  function Built(c: Ctx, st: State): Ctx {
    if st.SetPriv? then NextRqSeq(c).(sessionSeq := (c.sessionSeq + 1) % 0x1_0000_0000) else NextRqSeq(c)
  }

  /** What the client reads into its 1000-byte buffer. */
  function ReplyBuffer(pkt: seq<u8>): (d: seq<u8>)
    requires |pkt| <= MAX_MSG_RETURN_DATA
    ensures |d| == MAX_MSG_RETURN_DATA && pkt <= d
  {
    pkt + Zeros(MAX_MSG_RETURN_DATA - |pkt|)
  }

  predicate BasicMsgCheck(d: seq<u8>)
    requires |d| == MAX_MSG_RETURN_DATA
  {
    d[0] == 6 && d[2] == 0xff && d[3] == 7
  }

  function ExpectedLength(st: State): u8 {
    match st case AuthCap => 0x10 case Challenge => 0x1C case Activate => 0x12 case SetPriv => 0x09
  }

  function CommandOf(st: State): u8 {
    match st
    case AuthCap => GET_CHANNEL_AUTH_CAPABILITIES_CMD
    case Challenge => GET_SESSION_CHALLENGE_CMD
    case Activate => ACTIVATE_SESSION_CMD
    case SetPriv => SET_SESSION_PRIVILEGE_CMD
  }

  /** The reply has this state's length and command, and completion code zero. */
  predicate Accepts(st: State, d: seq<u8>)
    requires |d| == MAX_MSG_RETURN_DATA
  {
    BasicMsgCheck(d) && d[13] == ExpectedLength(st) && d[19] == CommandOf(st) && d[20] == 0
  }

  /** The context after a reply; an unacceptable one changes nothing. */
  function Parsed(c: Ctx, st: State, d: seq<u8>): Ctx
    requires |d| == MAX_MSG_RETURN_DATA
  {
    if !Accepts(st, d) then c
    else
      match st
      case AuthCap => c
      case Challenge => c.(tempSessionId := Un32(d[21..25]), challengeStr := d[25..41])
      case Activate => c.(sessionId := Un32(d[22..26]), sessionSeq := Un32(d[26..30]), maxPrivLevel := d[30])
      case SetPriv => c.(privLevel := d[21])
  }

  // ---------- pushing records to the central controller ----------

  function AddSdrHead(c: Ctx): Head {
    RequestHead(70, c.sessionSeq, c.sessionId, 0, STORAGE_NETFN, 0, c.rqSeq, ADD_SDR_CMD)
  }

  /** The add-SDR request for a record's 64 bytes. */
  function AddSdrRequest(c: Ctx, data: seq<u8>): (pkt: seq<u8>)
    requires |data| == 64
    ensures |pkt| == 85
  {
    RequestWhole(AddSdrHead(c), data);
    RequestPacket(AddSdrHead(c), data)
  }

  /** The context after building it. */
  function AddSdrBuilt(c: Ctx): Ctx {
    NextRqSeq(c).(sessionSeq := (c.sessionSeq + 1) % 0x1_0000_0000)
  }

  /** A sensor reading travels in byte 66 of that packet, patched in after it was built. */
  function PushRequest(c: Ctx, data: seq<u8>, v: u8): (pkt: seq<u8>)
    requires |data| == 64
    ensures |pkt| == 85
  {
    AddSdrRequest(c, data)[66 := v]
  }

  predicate AcceptsAddSdr(d: seq<u8>)
    requires |d| == MAX_MSG_RETURN_DATA
  {
    BasicMsgCheck(d) && d[13] == 0x0a && d[19] == ADD_SDR_CMD && d[20] == 0
  }

  /** Buffers that agree on their first 36 bytes parse to the same fields. */
  lemma SamePrefixSameFields(d1: seq<u8>, d2: seq<u8>, n: nat)
    requires 36 <= |d1| && 36 <= |d2| && d1[..36] == d2[..36]
    ensures ParseRmcp(Received(d2, n)) == ParseRmcp(Received(d1, n)).(data := d2)
  {
    hide ReadHeader, ReadSession, ReadMessage;
    SameSlice(d1, d2, 0, 4);
    SameSlice(d1, d2, 4, 30);
    SameSlice(d1, d2, 14, 20);
    SameSlice(d1, d2, 30, 36);
  }

  lemma SameSlice(d1: seq<u8>, d2: seq<u8>, lo: nat, hi: nat)
    requires lo <= hi <= 36 <= |d1| && 36 <= |d2| && d1[..36] == d2[..36]
    ensures d1[lo..hi] == d2[lo..hi]
  {
    forall k | lo <= k < hi
      ensures d1[k] == d2[k]
    {
      assert d1[..36][k] == d1[k] && d2[..36][k] == d2[k];
    }
  }

  /** At the server the patched packet is an add-SDR message whose record bytes are the
      record's, with the reading in the OEM byte. */
  lemma PushArrives(c: Ctx, data: seq<u8>, v: u8)
    requires |data| == 64
    ensures var m := Arrived(PushRequest(c, data, v));
            && Readable(m) && m.session.authType == AUTHTYPE_NONE && m.session.sid == c.sessionId
            && m.message.netfn == STORAGE_NETFN && m.message.cmd == ADD_SDR_CMD
            && m.message.rqSeq == c.rqSeq % 64 && m.session.seqNum == c.sessionSeq
            && Args(m, 0, 64) == data[46 := v]
  {
    hide ParseRmcp, Frame, Pack, Le32, RequestPacket;
    var h, pkt, patched := AddSdrHead(c), AddSdrRequest(c, data), PushRequest(c, data, v);
    RequestWhole(h, data);
    var buffer, buffer' := pkt + Zeros(MSG_BUFFER - 85), patched + Zeros(MSG_BUFFER - 85);
    RequestRoundTrip(data, 70, c.sessionSeq, c.sessionId, 0, STORAGE_NETFN, 0, c.rqSeq, ADD_SDR_CMD, buffer, 85);
    assert buffer' == buffer[66 := v];
    SamePrefixSameFields(buffer, buffer', 85);
    assert buffer'[20..84] == buffer[20..84][46 := v];
  }

  /** The patch leaves the second checksum as it was, so it holds exactly when the reading
      equals the byte it replaced. */
  lemma PushChecksum(c: Ctx, data: seq<u8>, v: u8)
    requires |data| == 64
    ensures Checksum.Sum(PushRequest(c, data, v)[17..]) % 256 == 0 <==> v == data[46]
  {
    hide Pack, Le32, Checksum.CheckByte;
    var h := AddSdrHead(c);
    RequestWhole(h, data);
    FrameChecksums(h, data);
    FrameBytes(h, data, Frame(h, data));
    var body := Frame(h, data)[17..];
    assert PushRequest(c, data, v)[17..] == body[49 := v];
    assert body[49] == Frame(h, data)[66] == Frame(h, data)[20..84][46] == data[46];
    Checksum.SumUpdate(body, 49, v);
  }
}
