/** The four-step session establishment, client and server together, through packet bytes. */
module Handshake {
  import opened Bits
  import opened Codes
  import opened Wire
  import opened Sessions
  import opened SessionInvariant
  import opened Client

  /** The server is configured as at start-up. */
  predicate Configured(l: Lan) {
    l.users == InitUsers() && l.chanNum == 1 && l.chanPrivLimit == PRIVILEGE_ADMIN
  }

  /** Such a server, in any state its sessions can reach, with a free session. */
  predicate Ready(l: Lan) {
    Inv(l) && Configured(l) && l.activeSessions < MAX_SESSIONS
  }

  /** Every state reached from start-up with a session to spare is ready. */
  lemma ReachableIsReady(reqs: seq<SessionInvariant.Request>)
    requires AllReadable(reqs)
    ensures var l := Run(Initial(InitUsers(), 1, PRIVILEGE_ADMIN), reqs);
            l.activeSessions < MAX_SESSIONS <==> Ready(l)
  {
    var l0 := Initial(InitUsers(), 1, PRIVILEGE_ADMIN);
    hide Run, InitUsers;
    EveryRunIsConsistent(InitUsers(), 1, PRIVILEGE_ADMIN, reqs);
    NoneActive(l0.sessions);
    RunKeepsInv(l0, reqs);
  }

  /** The server's view of a request: every field, and the payload at the read position. */
  lemma RequestArrives(c: Ctx, st: State)
    requires |c.challengeStr| == 16
    ensures var m, h := Arrived(RequestMsg(c, st)), RequestHeadOf(c, st);
            && IsAppRequest(RequestMsg(c, st)) && m.dataStart == 20 && Readable(m)
            && m.dataLen == 21 + |CmdData(c, st)|
            && m.session == SessionLayer(AUTHTYPE_NONE, h.seqNum, h.sid, Zeros(16), 0)
            && m.message.netfn == APP_NETFN && m.message.cmd == CommandOf(st) && m.message.rqSeq == c.rqSeq % 64
            && m.data[20..20 + |CmdData(c, st)|] == CmdData(c, st)
  {
    hide ParseRmcp, Frame, Pack, Le32;
    var h, data := RequestHeadOf(c, st), CmdData(c, st);
    var pkt := RequestMsg(c, st);
    RequestWhole(h, data);
    assert |pkt| == 21 + |data|;
    var buffer := pkt + Zeros(MSG_BUFFER - |pkt|);
    RequestRoundTrip(data, h.length, h.seqNum, h.sid, 0, APP_NETFN, 0, c.rqSeq, h.cmd, buffer, |pkt|);
    FrameBytes(h, data, pkt);
  }

  /** The client's view of a reply sent without an auth code. */
  lemma ReplyArrives(m: Msg, s: Session, data: seq<u8>)
    requires s.authtype == AUTHTYPE_NONE && |data| + 37 <= MAX_MSG_RETURN_DATA
    ensures |Packet(m, s, data)| <= MAX_MSG_RETURN_DATA
    ensures var d := ReplyBuffer(Packet(m, s, data));
            BasicMsgCheck(d) && d[13] == (|data| + 7) % 0x100 && d[19] == m.message.cmd && d[20..20 + |data|] == data
  {
    hide Frame, Pack, Le32;
    var h := ResponseHead(m, s.authtype, s.xmitSeq, s.sid, |data|);
    FrameBytes(h, data, ReplyBuffer(Packet(m, s, data)));
  }

  /** Outside a session the server answers as session zero. */
  lemma AnswersOutside(l: Lan, m: Msg, data: seq<u8>)
    requires Inv(l) && m.session.sid == 0
    ensures Respond(l, m, Unbound, data) == Result(l, [Packet(m, BLANK.(active := true), data)])
  {
    hide Packet;
    assert SlotOk(l.sessions[0], 0);
  }

  /** "ipmiusr" is found at index 2: user 1's name is sixteen zeros. */
  lemma FindsIpmiusr(us: seq<User>)
    requires us == InitUsers()
    ensures UserFrom(us, 1, Padded(IPMIUSR), true, 0) == 2
  {
    assert Padded(IPMIUSR)[0] == 0x69 && us[1].username[0] == 0;
    assert UserFrom(us, 2, Padded(IPMIUSR), true, 0) == 2;
  }

  // ---------- the server's side of each exchange ----------

  const OUTSIDE := BLANK.(active := true)
  const CAPABILITIES: seq<u8> := [0, 1, 0x17, 0x6, 0, 0, 0, 0, 0]

  /** The message carries this command and data, without authentication. */
  predicate Carries(m: Msg, cmd: u8, sid: u32, data: seq<u8>) {
    && Readable(m) && |data| <= 60 && m.dataLen == 21 + |data|
    && m.session.authType == AUTHTYPE_NONE && m.session.sid == sid && m.message.cmd == cmd
    && Args(m, 0, |data|) == data
  }

  lemma CarriedByte(m: Msg, cmd: u8, sid: u32, data: seq<u8>, k: nat)
    requires Carries(m, cmd, sid, data) && k < |data|
    ensures Arg(m, k) == data[k]
  {
    assert Arg(m, k) == Args(m, 0, |data|)[k];
  }

  lemma ServesAuthCap(l: Lan, m: Msg, rnd: u32)
    requires Inv(l) && Configured(l) && Carries(m, GET_CHANNEL_AUTH_CAPABILITIES_CMD, 0, [0x0E, 0x03])
    ensures Step(l, m, rnd) == Done(Result(l, [Packet(m, OUTSIDE, CAPABILITIES)]))
  {
    hide Respond, Packet;
    CarriedByte(m, GET_CHANNEL_AUTH_CAPABILITIES_CMD, 0, [0x0E, 0x03], 0);
    CarriedByte(m, GET_CHANNEL_AUTH_CAPABILITIES_CMD, 0, [0x0E, 0x03], 1);
    AnswersOutside(l, m, CAPABILITIES);
  }

  /** The tables after a challenge was issued. */
  function Challenged(l: Lan): Lan {
    l.(nextChallSeq := (l.nextChallSeq + 1) % 0x1_0000_0000)
  }

  function ChallengeData(l: Lan): seq<u8> {
    [0] + Le32(TempSid(l.nextChallSeq, 2)) + CHALLENGE
  }

  lemma ServesChallenge(l: Lan, m: Msg, rnd: u32)
    requires Ready(l) && Carries(m, GET_SESSION_CHALLENGE_CMD, 0, [0x00] + Padded(IPMIUSR))
    ensures Step(l, m, rnd) == Done(Result(Challenged(l), [Packet(m, OUTSIDE, ChallengeData(l))]))
  {
    hide Respond, Packet, TempSid, Le32, Padded;
    CarriedByte(m, GET_SESSION_CHALLENGE_CMD, 0, [0x00] + Padded(IPMIUSR), 0);
    assert Args(m, 1, 17) == Args(m, 0, 17)[1..] == Padded(IPMIUSR);
    FindsIpmiusr(l.users);
    AnswersOutside(Challenged(l), m, ChallengeData(l));
  }

  /** The slot a client that asked for privilege 3 gets. */
  function OpenedSlot(l: Lan, rnd: u32): Session
    requires Ready(l)
  {
    FreeSlotIffBelowLimit(l);
    Activated(l, FreeFrom(l.sessions, 1), AUTHTYPE_NONE, INITIAL_OUTBOUND_SEQ, PRIVILEGE_OPERATOR, InitUsers()[2], rnd)
  }

  /** The tables after the activation. */
  function AfterOpen(l: Lan, rnd: u32): Lan
    requires Ready(l)
  {
    FreeSlotIffBelowLimit(l);
    l.(sessions := l.sessions[FreeFrom(l.sessions, 1) := OpenedSlot(l, rnd)], activeSessions := (l.activeSessions + 1) % 0x100,
       sidSeq := (UsedSeq(l.sidSeq) + 1) % 0x1_0000_0000)
  }

  /** The session value the activation reply is sent on. */
  function Temporary(sid: u32): Session {
    BLANK.(active := true, authtype := AUTHTYPE_NONE, xmitSeq := INITIAL_OUTBOUND_SEQ, sid := sid)
  }

  lemma ServesActivate(l: Lan, m: Msg, rnd: u32, challSeq: u32, challenge: seq<u8>)
    requires Ready(l) && |challenge| == 16
    requires Carries(m, ACTIVATE_SESSION_CMD, TempSid(challSeq, 2), [0x00, 0x03] + challenge + Le32(INITIAL_OUTBOUND_SEQ))
    ensures Step(l, m, rnd) ==
            Done(Result(AfterOpen(l, rnd), [Packet(m, Temporary(m.session.sid), ActivationData(OpenedSlot(l, rnd)))]))
  {
    hide Packet, TempSid, Le32, Un32, ActivationData, Activated;
    var data := [0x00, 0x03] + challenge + Le32(INITIAL_OUTBOUND_SEQ);
    CarriedByte(m, ACTIVATE_SESSION_CMD, TempSid(challSeq, 2), data, 0);
    CarriedByte(m, ACTIVATE_SESSION_CMD, TempSid(challSeq, 2), data, 1);
    assert Args(m, 18, 22) == Args(m, 0, 22)[18..] == Le32(INITIAL_OUTBOUND_SEQ);
    LittleEndian32(INITIAL_OUTBOUND_SEQ);
    TempSidValue(challSeq, 2);
    FreeSlotIffBelowLimit(l);
  }

  lemma ServesSetPriv(l: Lan, m: Msg, rnd: u32, i: nat)
    requires Inv(l) && i < |l.sessions| && l.sessions[i].active && PRIVILEGE_OPERATOR <= l.sessions[i].maxPriv
    requires Carries(m, SET_SESSION_PRIVILEGE_CMD, l.sessions[i].sid, [PRIVILEGE_OPERATOR])
    ensures var s := l.sessions[i].(priv := PRIVILEGE_OPERATOR);
            Step(l, m, rnd) == Done(Result(l.(sessions := l.sessions[i := Advanced(s)]), [Packet(m, s, [0, PRIVILEGE_OPERATOR])]))
  {
    hide Packet;
    CarriedByte(m, SET_SESSION_PRIVILEGE_CMD, l.sessions[i].sid, [PRIVILEGE_OPERATOR], 0);
    SidResolves(l, i);
    assert SlotOk(l.sessions[i], i);
    var s := l.sessions[i].(priv := PRIVILEGE_OPERATOR);
    assert l.sessions[i := s][i := Advanced(s)] == l.sessions[i := Advanced(s)];
  }

  // ---------- the client's side ----------

  /** The buffer holds a reply to cmd with this data. */
  predicate Holds(d: seq<u8>, cmd: u8, data: seq<u8>) {
    |d| == MAX_MSG_RETURN_DATA && |data| <= 60 && BasicMsgCheck(d) && d[13] == |data| + 7 && d[19] == cmd
    && d[20..20 + |data|] == data
  }

  lemma TakesChallenge(c: Ctx, d: seq<u8>, l: Lan)
    requires Holds(d, GET_SESSION_CHALLENGE_CMD, ChallengeData(l))
    ensures Accepts(Challenge, d)
    ensures Parsed(c, Challenge, d) == c.(tempSessionId := TempSid(l.nextChallSeq, 2), challengeStr := CHALLENGE)
  {
    hide TempSid, Le32, Un32;
    var data := d[20..41];
    assert data[1..5] == Le32(TempSid(l.nextChallSeq, 2)) && data[5..] == CHALLENGE;
    assert d[20] == data[0] && d[21..25] == data[1..5] && d[25..41] == data[5..];
    LittleEndian32(TempSid(l.nextChallSeq, 2));
  }

  lemma TakesActivate(c: Ctx, d: seq<u8>, s: Session)
    requires Holds(d, ACTIVATE_SESSION_CMD, ActivationData(s))
    ensures Accepts(Activate, d)
    ensures Parsed(c, Activate, d) == c.(sessionId := s.sid, sessionSeq := s.recvSeq, maxPrivLevel := s.maxPriv)
  {
    hide Le32, Un32;
    var data := d[20..31];
    assert data == [0, s.authtype] + Le32(s.sid) + Le32(s.recvSeq) + [s.maxPriv];
    assert data[2..6] == Le32(s.sid) && data[6..10] == Le32(s.recvSeq);
    assert d[20] == data[0] && d[30] == data[10] && d[22..26] == data[2..6] && d[26..30] == data[6..10];
    LittleEndian32(s.sid);
    LittleEndian32(s.recvSeq);
  }

  lemma TakesShort(c: Ctx, d: seq<u8>)
    ensures Holds(d, GET_CHANNEL_AUTH_CAPABILITIES_CMD, CAPABILITIES) ==> Accepts(AuthCap, d)
    ensures Holds(d, SET_SESSION_PRIVILEGE_CMD, [0, PRIVILEGE_OPERATOR]) ==>
              Accepts(SetPriv, d) && Parsed(c, SetPriv, d) == c.(privLevel := PRIVILEGE_OPERATOR)
  {
    if Holds(d, GET_CHANNEL_AUTH_CAPABILITIES_CMD, CAPABILITIES) {
      assert d[20] == d[20..29][0];
    }
    if Holds(d, SET_SESSION_PRIVILEGE_CMD, [0, PRIVILEGE_OPERATOR]) {
      assert d[20] == d[20..22][0] && d[21] == d[20..22][1];
    }
  }

  // ---------- the exchanges, through packet bytes ----------

  /** The client's request, received and parsed, carries its command and data. */
  lemma RequestDelivered(c: Ctx, st: State)
    requires |c.challengeStr| == 16
    ensures IsAppRequest(RequestMsg(c, st))
    ensures Carries(Arrived(RequestMsg(c, st)), CommandOf(st), RequestHeadOf(c, st).sid, CmdData(c, st))
  {
    hide RequestMsg, Arrived, Padded, Le32, IsAppRequest;
    RequestArrives(c, st);
  }

  /** The server's reply, received by the client, holds its command and data. */
  lemma Returned(m: Msg, s: Session, data: seq<u8>)
    requires s.authtype == AUTHTYPE_NONE && |data| <= 60
    ensures |Packet(m, s, data)| <= MAX_MSG_RETURN_DATA && Holds(ReplyBuffer(Packet(m, s, data)), m.message.cmd, data)
  {
    hide Packet, ReplyBuffer;
    ReplyArrives(m, s, data);
  }

  /** State st of the client succeeds against the server: one reply, accepted, leading both
      ends to l' and c'. */
  predicate Succeeds(l: Lan, c: Ctx, st: State, rnd: u32, l': Lan, c': Ctx)
    requires Shape(l) && |c.challengeStr| == 16
  {
    && IsAppRequest(RequestMsg(c, st))
    && var o := Step(l, Arrived(RequestMsg(c, st)), rnd);
       && o.Done? && o.r.lan == l' && |o.r.sent| == 1 && |o.r.sent[0]| <= MAX_MSG_RETURN_DATA
       && Accepts(st, ReplyBuffer(o.r.sent[0])) && c' == Parsed(Built(c, st), st, ReplyBuffer(o.r.sent[0]))
  }

  lemma AuthCapSucceeds(l: Lan, c: Ctx, rnd: u32)
    requires Inv(l) && Configured(l) && |c.challengeStr| == 16
    ensures Succeeds(l, c, AuthCap, rnd, l, Built(c, AuthCap))
  {
    hide RequestMsg, Arrived, IsAppRequest, Carries, Step, Packet, ReplyBuffer, Holds, Accepts;
    RequestDelivered(c, AuthCap);
    var m := Arrived(RequestMsg(c, AuthCap));
    ServesAuthCap(l, m, rnd);
    CarriesCommand(m, GET_CHANNEL_AUTH_CAPABILITIES_CMD, 0, [0x0E, 0x03]);
    Returned(m, OUTSIDE, CAPABILITIES);
    TakesShort(c, ReplyBuffer(Packet(m, OUTSIDE, CAPABILITIES)));
  }

  lemma CarriesCommand(m: Msg, cmd: u8, sid: u32, data: seq<u8>)
    requires Carries(m, cmd, sid, data)
    ensures m.message.cmd == cmd && m.session.sid == sid
  {
  }

  lemma ChallengeSucceeds(l: Lan, c: Ctx, rnd: u32)
    requires Ready(l) && |c.challengeStr| == 16
    ensures Succeeds(l, c, Challenge, rnd, Challenged(l),
                     Built(c, Challenge).(tempSessionId := TempSid(l.nextChallSeq, 2), challengeStr := CHALLENGE))
  {
    hide RequestMsg, Arrived, IsAppRequest, Carries, Step, Packet, ReplyBuffer, Holds, Accepts, Parsed, TempSid, Padded;
    RequestDelivered(c, Challenge);
    var m := Arrived(RequestMsg(c, Challenge));
    ServesChallenge(l, m, rnd);
    CarriesCommand(m, GET_SESSION_CHALLENGE_CMD, 0, [0x00] + Padded(IPMIUSR));
    Returned(m, OUTSIDE, ChallengeData(l));
    TakesChallenge(Built(c, Challenge), ReplyBuffer(Packet(m, OUTSIDE, ChallengeData(l))), l);
  }

  lemma ActivateSucceeds(l: Lan, c: Ctx, challSeq: u32, rnd: u32)
    requires Ready(l) && |c.challengeStr| == 16 && c.tempSessionId == TempSid(challSeq, 2)
    ensures var s := OpenedSlot(l, rnd);
            Succeeds(l, c, Activate, rnd, AfterOpen(l, rnd),
                     Built(c, Activate).(sessionId := s.sid, sessionSeq := s.recvSeq, maxPrivLevel := PRIVILEGE_OPERATOR))
  {
    hide RequestMsg, Arrived, IsAppRequest, Carries, Step, Packet, ReplyBuffer, Holds, Accepts, Parsed, TempSid, Le32,
         AfterOpen;
    RequestDelivered(c, Activate);
    var m, s := Arrived(RequestMsg(c, Activate)), OpenedSlot(l, rnd);
    var data := [0x00, 0x03] + c.challengeStr + Le32(INITIAL_OUTBOUND_SEQ);
    ServesActivate(l, m, rnd, challSeq, c.challengeStr);
    CarriesCommand(m, ACTIVATE_SESSION_CMD, c.tempSessionId, data);
    Returned(m, Temporary(m.session.sid), ActivationData(s));
    TakesActivate(Built(c, Activate), ReplyBuffer(Packet(m, Temporary(m.session.sid), ActivationData(s))), s);
  }

  lemma SetPrivSucceeds(l: Lan, c: Ctx, i: nat, rnd: u32)
    requires Inv(l) && |c.challengeStr| == 16 && i < |l.sessions| && l.sessions[i].active && l.sessions[i].sid == c.sessionId
    requires l.sessions[i].authtype == AUTHTYPE_NONE
    requires c.maxPrivLevel == PRIVILEGE_OPERATOR <= l.sessions[i].maxPriv
    ensures Succeeds(l, c, SetPriv, rnd,
                     l.(sessions := l.sessions[i := Advanced(l.sessions[i].(priv := PRIVILEGE_OPERATOR))]),
                     Built(c, SetPriv).(privLevel := PRIVILEGE_OPERATOR))
  {
    hide RequestMsg, Arrived, IsAppRequest, Carries, Step, Packet, ReplyBuffer, Holds, Accepts, Parsed;
    RequestDelivered(c, SetPriv);
    var m, s := Arrived(RequestMsg(c, SetPriv)), l.sessions[i].(priv := PRIVILEGE_OPERATOR);
    ServesSetPriv(l, m, rnd, i);
    CarriesCommand(m, SET_SESSION_PRIVILEGE_CMD, c.sessionId, [PRIVILEGE_OPERATOR]);
    Returned(m, s, [0, PRIVILEGE_OPERATOR]);
    TakesShort(Built(c, SetPriv), ReplyBuffer(Packet(m, s, [0, PRIVILEGE_OPERATOR])));
  }

  // ---------- with every session taken ----------

  /** The challenge is refused with the out-of-space code, which the client does not accept. */
  lemma ChallengeFull(l: Lan, c: Ctx, rnd: u32) returns (pkt: seq<u8>)
    requires Inv(l) && Configured(l) && l.activeSessions == MAX_SESSIONS && |c.challengeStr| == 16
    ensures IsAppRequest(RequestMsg(c, Challenge)) && |pkt| <= MAX_MSG_RETURN_DATA
    ensures Step(l, Arrived(RequestMsg(c, Challenge)), rnd) == Done(Result(l, [pkt])) && !Accepts(Challenge, ReplyBuffer(pkt))
  {
    hide RequestMsg, Arrived, IsAppRequest, Carries, Step, Packet, ReplyBuffer, Padded;
    RequestDelivered(c, Challenge);
    var m := Arrived(RequestMsg(c, Challenge));
    RefusesChallenge(l, m, rnd);
    Returned(m, OUTSIDE, [OUT_OF_SPACE_CC]);
    pkt := Packet(m, OUTSIDE, [OUT_OF_SPACE_CC]);
  }

  lemma RefusesChallenge(l: Lan, m: Msg, rnd: u32)
    requires Inv(l) && Configured(l) && l.activeSessions == MAX_SESSIONS
    requires Carries(m, GET_SESSION_CHALLENGE_CMD, 0, [0x00] + Padded(IPMIUSR))
    ensures Step(l, m, rnd) == Done(Result(l, [Packet(m, OUTSIDE, [OUT_OF_SPACE_CC])]))
  {
    hide Respond, Packet, TempSid, Le32, Padded;
    CarriedByte(m, GET_SESSION_CHALLENGE_CMD, 0, [0x00] + Padded(IPMIUSR), 0);
    assert Args(m, 1, 17) == Args(m, 0, 17)[1..] == Padded(IPMIUSR);
    FindsIpmiusr(l.users);
    AnswersOutside(l, m, [OUT_OF_SPACE_CC]);
  }

  /** The activation is not answered at all. */
  lemma ActivateFull(l: Lan, c: Ctx, challSeq: u32, rnd: u32)
    requires Inv(l) && Configured(l) && l.activeSessions == MAX_SESSIONS && |c.challengeStr| == 16
    requires c.tempSessionId == TempSid(challSeq, 2)
    ensures IsAppRequest(RequestMsg(c, Activate))
    ensures Step(l, Arrived(RequestMsg(c, Activate)), rnd) == Done(Result(l, []))
  {
    hide RequestMsg, Arrived, IsAppRequest, Respond, TempSid, Le32, Un32, InitUsers, Inv, Configured, HasBit;
    RequestDelivered(c, Activate);
    TempSidValue(challSeq, 2);
    ShapeOfInv(l);
  }

  // ---------- the whole establishment ----------

  /** Both ends after the first n states. */
  function After(l: Lan, c: Ctx, rnd: u32, n: nat): (Lan, Ctx)
    requires Ready(l) && n <= 4
  {
    if n == 0 then (l, c)
    else if n == 1 then (l, Built(c, AuthCap))
    else if n == 2 then
      (Challenged(l), Built(After(l, c, rnd, 1).1, Challenge).(tempSessionId := TempSid(l.nextChallSeq, 2), challengeStr := CHALLENGE))
    else
      var s := OpenedSlot(Challenged(l), rnd);
      var c3 := Built(After(l, c, rnd, 2).1, Activate).(sessionId := s.sid, sessionSeq := s.recvSeq, maxPrivLevel := PRIVILEGE_OPERATOR);
      var l3 := AfterOpen(Challenged(l), rnd);
      if n == 3 then (l3, c3)
      else
        FreeSlotIffBelowLimit(l);
        var i := FreeFrom(l.sessions, 1);
        (l3.(sessions := l3.sessions[i := Advanced(l3.sessions[i].(priv := PRIVILEGE_OPERATOR))]),
         Built(c3, SetPriv).(privLevel := PRIVILEGE_OPERATOR))
  }

  lemma AfterOpenInv(l: Lan, rnd: u32)
    requires Ready(l)
    ensures Inv(AfterOpen(l, rnd))
    ensures FreeFrom(l.sessions, 1) <= MAX_SESSIONS
    ensures AfterOpen(l, rnd).sessions[FreeFrom(l.sessions, 1)] == OpenedSlot(l, rnd)
  {
    hide IssuedSid, RecvSeq;
    FreeSlotIffBelowLimit(l);
    EffectKeepsInv(l, AfterOpen(l, rnd), Opened(FreeFrom(l.sessions, 1)));
  }

  /** Each of the four states succeeds in turn. */
  lemma StateSucceeds(l: Lan, c: Ctx, rnd: u32, n: nat)
    requires Ready(l) && |c.challengeStr| == 16 && n < 4
    ensures var (ln, cn) := After(l, c, rnd, n);
            Shape(ln) && |cn.challengeStr| == 16
            && Succeeds(ln, cn, StateAt(n), rnd, After(l, c, rnd, n + 1).0, After(l, c, rnd, n + 1).1)
  {
    hide Succeeds, TempSid, AfterOpen, OpenedSlot, Inv;
    assert Ready(Challenged(l)) && Shape(l) by {
      ReadyChallenged(l);
    }
    var (ln, cn) := After(l, c, rnd, n);
    if n == 0 {
      AuthCapSucceeds(l, c, rnd);
    } else if n == 1 {
      ChallengeSucceeds(l, cn, rnd);
    } else if n == 2 {
      ActivateSucceeds(ln, cn, l.nextChallSeq, rnd);
      ShapeOfInv(ln);
    } else {
      AfterOpenInv(Challenged(l), rnd);
      ShapeOfInv(ln);
      OpenedSlotFields(Challenged(l), rnd);
      assert After(l, c, rnd, 2).1.challengeStr == CHALLENGE;
      SetPrivSucceeds(ln, cn, FreeFrom(l.sessions, 1), rnd);
    }
  }

  lemma ShapeOfInv(l: Lan)
    requires Inv(l)
    ensures Shape(l)
  {
  }

  lemma ReadyChallenged(l: Lan)
    requires Ready(l)
    ensures Ready(Challenged(l)) && Shape(l)
  {
  }

  lemma OpenedSlotFields(l: Lan, rnd: u32)
    requires Ready(l)
    ensures var s := OpenedSlot(l, rnd);
            && s.active && !s.rmcpplus && s.authtype == AUTHTYPE_NONE && s.maxPriv == PRIVILEGE_OPERATOR
            && s.xmitSeq == INITIAL_OUTBOUND_SEQ && s.recvSeq % 2 == 0 && 0 < s.recvSeq < 0xFFFF_FFFF
  {
    hide IssuedSid;
  }

  /** The client's session is slot i: free before, active and resolving now, at privilege 3
      on both ends, the client's number one past the server's, and no other slot touched. */
  predicate Joined(l: Lan, l': Lan, c': Ctx, i: nat) {
    && Inv(l) && Inv(l') && SameConfig(l, l')
    && 1 <= i <= MAX_SESSIONS && !l.sessions[i].active && l'.sessions[i].active
    && SidToSession(l'.sessions, c'.sessionId) == Slot(i)
    && l'.sessions[i].priv == l'.sessions[i].maxPriv == c'.privLevel == c'.maxPrivLevel == 3
    && c'.sessionSeq == l'.sessions[i].recvSeq + 1
    && l'.sessions[i].xmitSeq == 0x3C2F_B506
    && l'.activeSessions == l.activeSessions + 1
    && (forall k :: 0 <= k < |l.sessions| && k != i ==> l'.sessions[k] == l.sessions[k])
  }

  /** From every ready server and any client context, the four states end joined. */
  lemma HandshakeJoins(l: Lan, c: Ctx, rnd: u32)
    requires Ready(l) && |c.challengeStr| == 16
    ensures Joined(l, After(l, c, rnd, 4).0, After(l, c, rnd, 4).1, FreeFrom(l.sessions, 1))
  {
    hide TempSid, IssuedSid, OpenedSlot, RecvSeq;
    var i := FreeFrom(l.sessions, 1);
    var l2 := Challenged(l);
    ReadyChallenged(l);
    AfterOpenInv(l2, rnd);
    OpenedSlotFields(l2, rnd);
    var (l3, c3) := After(l, c, rnd, 3);
    var (l4, c4) := After(l, c, rnd, 4);
    EffectKeepsInv(l3, l4, Kept);
    SidResolves(l4, i);
  }

  // ---------- over a network that fails and loses ----------

  /** From l0 to l, n sessions were opened and no session of l0 was touched. */
  predicate Grown(l0: Lan, l: Lan, n: nat) {
    && Inv(l0) && Inv(l) && SameConfig(l0, l) && l.activeSessions == l0.activeSessions + n
    && forall k :: 0 <= k < |l0.sessions| && l0.sessions[k].active ==> l.sessions[k] == l0.sessions[k]
  }

  /** The client knows session i, opened since l0, without auth code and limited to 3. */
  predicate Holds3(l0: Lan, l: Lan, c: Ctx, i: nat)
    requires Shape(l0) && Shape(l)
  {
    && 1 <= i <= MAX_SESSIONS && !l0.sessions[i].active
    && var s := l.sessions[i];
       && s.active && s.sid == c.sessionId && s.authtype == AUTHTYPE_NONE
       && s.maxPriv == c.maxPrivLevel == PRIVILEGE_OPERATOR && s.recvSeq < 0xFFFF_FFFF
  }

  /** Where both ends are while the client is in state k: its context is c, and n sessions
      were opened so far. */
  predicate Stage(l0: Lan, l: Lan, c: Ctx, k: nat, n: nat, q: u32, i: nat)
    requires k <= 4
  {
    && Grown(l0, l, n) && Configured(l) && |c.challengeStr| == 16
    && (k < 2 ==> n == 0)
    && (k == 2 ==> c.tempSessionId == TempSid(q, 2))
    && (k >= 3 ==> Holds3(l0, l, c, i))
    && (k == 3 ==> c.sessionSeq == l.sessions[i].recvSeq)
    && (k == 4 ==> c.sessionSeq == l.sessions[i].recvSeq + 1 && l.sessions[i].priv == c.privLevel == PRIVILEGE_OPERATOR)
  }

  /** How the server meets state k's request when `room` more sessions fit. */
  function ServerAt(k: nat, room: nat): Server {
    if k == 1 && room == 0 then Refuses else if k == 2 then AnswersFirst(room) else Answers
  }

  /** How many sessions a arrivals of state k's request open. */
  function OpenedBy(k: nat, room: nat, a: nat): nat {
    if k == 2 then Min(room, a) else 0
  }

  /** The server handles a request with result r, whose packets fit the client's buffer. */
  predicate Serves(l: Lan, pkt: seq<u8>, rnd: u32, r: Result)
    requires Shape(l)
    ensures Serves(l, pkt, rnd, r) && r.sent != [] ==> |r.sent[|r.sent| - 1]| <= MAX_MSG_RETURN_DATA
  {
    && IsAppRequest(pkt) && Step(l, Arrived(pkt), rnd) == Done(r)
    && (r.sent != [] ==> |r.sent[|r.sent| - 1]| <= MAX_MSG_RETURN_DATA)
  }

  lemma SuccessServes(l: Lan, c: Ctx, st: State, rnd: u32, l': Lan, c': Ctx) returns (r: Result)
    requires Shape(l) && |c.challengeStr| == 16 && Succeeds(l, c, st, rnd, l', c')
    ensures Serves(l, RequestMsg(c, st), rnd, r) && r.lan == l' && |r.sent| == 1
    ensures Accepts(st, ReplyBuffer(r.sent[0])) && c' == Parsed(Built(c, st), st, ReplyBuffer(r.sent[0]))
  {
    hide Step, Parsed, Accepts, ReplyBuffer, Built, Arrived, RequestMsg;
    r := Step(l, Arrived(RequestMsg(c, st)), rnd).r;
  }

  /** One arrival of state k's request.  The client can stay in its state in any case; where
      the server answers acceptably it can move on.  With every session taken the challenge
      is refused and the activation ignored. */
  lemma Arrival(l0: Lan, l: Lan, c: Ctx, k: nat, n: nat, q: u32, i: nat, rnd: u32)
    returns (r: Result, c': Ctx, n': nat, q': u32, i': nat)
    requires k < 4 && Stage(l0, l, c, k, n, q, i) && Shape(l) && l.activeSessions <= MAX_SESSIONS
    ensures Serves(l, RequestMsg(c, StateAt(k)), rnd, r)
    ensures var room := MAX_SESSIONS - l.activeSessions;
            && n' == n + OpenedBy(k, room, 1) && Stage(l0, r.lan, c, k, n', q, i)
            && (r.sent == [] <==> k == 2 && room == 0)
            && (r.sent != [] ==>
                  var d := ReplyBuffer(r.sent[|r.sent| - 1]);
                  && (Accepts(StateAt(k), d) <==> !ServerAt(k, room).Refuses?)
                  && (Accepts(StateAt(k), d) ==>
                        c' == Parsed(Built(c, StateAt(k)), StateAt(k), d) && Stage(l0, r.lan, c', k + 1, n', q', i')))
  {
    hide Succeeds, TempSid, Step, Arrived, RequestMsg, Accepts, Parsed, Built, ReplyBuffer, IsAppRequest;
    c', n', q', i' := c, n, q, i;
    if k == 1 && l.activeSessions == MAX_SESSIONS {
      var pkt := ChallengeFull(l, c, rnd);
      r := Result(l, [pkt]);
    } else if k == 2 && l.activeSessions == MAX_SESSIONS {
      ActivateFull(l, c, q, rnd);
      r := Result(l, []);
    } else {
      var l';
      l', c', n', q', i' := Progress(l0, l, c, k, n, q, i, rnd);
      r := SuccessServes(l, c, StateAt(k), rnd, l', c');
    }
  }

  lemma Progress(l0: Lan, l: Lan, c: Ctx, k: nat, n: nat, q: u32, i: nat, rnd: u32)
    returns (l': Lan, c': Ctx, n': nat, q': u32, i': nat)
    requires k < 4 && Stage(l0, l, c, k, n, q, i) && (k == 1 || k == 2 ==> l.activeSessions < MAX_SESSIONS)
    ensures n' == if k == 2 then n + 1 else n
    ensures Succeeds(l, c, StateAt(k), rnd, l', c')
    ensures Stage(l0, l', c, k, n', q, i) && Stage(l0, l', c', k + 1, n', q', i')
  {
    hide Succeeds, TempSid;
    n', q', i' := n, q, i;
    if k == 0 {
      l', c' := l, Built(c, AuthCap);
      AuthCapSucceeds(l, c, rnd);
    } else if k == 1 {
      l', c', q' := Challenged(l), Built(c, Challenge).(tempSessionId := TempSid(l.nextChallSeq, 2), challengeStr := CHALLENGE), l.nextChallSeq;
      ChallengeSucceeds(l, c, rnd);
    } else if k == 2 {
      l', c', n', i' := ActivateArrival(l0, l, c, n, q, rnd);
    } else {
      l', c' := SetPrivArrival(l0, l, c, n, q, i, rnd);
    }
  }

  lemma ActivateArrival(l0: Lan, l: Lan, c: Ctx, n: nat, q: u32, rnd: u32) returns (l': Lan, c': Ctx, n': nat, i': nat)
    requires Stage(l0, l, c, 2, n, q, 0) && l.activeSessions < MAX_SESSIONS
    ensures n' == n + 1 && Succeeds(l, c, Activate, rnd, l', c')
    ensures forall i :: Stage(l0, l', c, 2, n', q, i)
    ensures Stage(l0, l', c', 3, n', q, i')
  {
    hide Succeeds, TempSid, OpenedSlot;
    var s := OpenedSlot(l, rnd);
    l', n', i' := AfterOpen(l, rnd), n + 1, FreeFrom(l.sessions, 1);
    c' := Built(c, Activate).(sessionId := s.sid, sessionSeq := s.recvSeq, maxPrivLevel := PRIVILEGE_OPERATOR);
    ActivateSucceeds(l, c, q, rnd);
    AfterOpenInv(l, rnd);
    OpenedSlotFields(l, rnd);
  }

  lemma SetPrivArrival(l0: Lan, l: Lan, c: Ctx, n: nat, q: u32, i: nat, rnd: u32) returns (l': Lan, c': Ctx)
    requires Stage(l0, l, c, 3, n, q, i)
    ensures Succeeds(l, c, SetPriv, rnd, l', c')
    ensures Stage(l0, l', c, 3, n, q, i) && Stage(l0, l', c', 4, n, q, i)
  {
    hide Succeeds, TempSid;
    SetPrivSucceeds(l, c, i, rnd);
    var s := Advanced(l.sessions[i].(priv := PRIVILEGE_OPERATOR));
    l' := l.(sessions := l.sessions[i := s]);
    c' := Built(c, SetPriv).(privLevel := PRIVILEGE_OPERATOR);
    EffectKeepsInv(l, l', Kept);
  }

  /** The client's session is slot i, one of the n opened since l0: it resolves from the
      client's id, is at privilege 3 on both ends, and the client's number is one past the
      server's.  Sessions of l0 are untouched. */
  predicate Attached(l0: Lan, l: Lan, c: Ctx, n: nat, i: nat) {
    && Grown(l0, l, n) && 1 <= i <= MAX_SESSIONS && !l0.sessions[i].active && l.sessions[i].active
    && SidToSession(l.sessions, c.sessionId) == Slot(i)
    && l.sessions[i].priv == l.sessions[i].maxPriv == c.privLevel == c.maxPrivLevel == 3
    && c.sessionSeq == l.sessions[i].recvSeq + 1 && l.sessions[i].authtype == AUTHTYPE_NONE
  }

  lemma StageAttached(l0: Lan, l: Lan, c: Ctx, n: nat, q: u32, i: nat)
    requires Stage(l0, l, c, 4, n, q, i)
    ensures Attached(l0, l, c, n, i)
  {
    SidResolves(l, i);
  }

  lemma StageGrown(l0: Lan, l: Lan, c: Ctx, k: nat, n: nat, q: u32, i: nat)
    requires k <= 4 && Stage(l0, l, c, k, n, q, i)
    ensures Grown(l0, l, n) && Shape(l) && |c.challengeStr| == 16 && l.activeSessions == l0.activeSessions + n
    ensures k < 2 ==> n == 0
    ensures l.activeSessions <= MAX_SESSIONS
  {
    FreeSlotIffBelowLimit(l);
  }
}
