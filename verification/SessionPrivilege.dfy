/** Privilege over whole runs: what a session can rise to, and who can end it. */
module SessionPrivilege {
  import opened Bits
  import opened Codes
  import opened Wire
  import opened Sessions
  import opened SessionInvariant

  /** Valid users sit at their own index. */
  predicate UsersOk(us: seq<User>) {
    |us| == MAX_USERS + 1 && forall u :: 0 <= u < |us| && us[u].valid ==> us[u].idx == u
  }

  /** An active session's limit is within its user's, and its authentication type is one its
      user may use.  Its level is at least the user level
      every session starts at, and within its limit unless that is lower still. */
  predicate Bounded(us: seq<User>, s: Session)
    requires |us| == MAX_USERS + 1
  {
    s.active ==>
      && s.userid <= MAX_USERS && us[s.userid].valid && s.maxPriv <= us[s.userid].maxPriv
      && HasBit(us[s.userid].allowedAuths, s.authtype)
      && PRIVILEGE_USER <= s.priv && (if s.maxPriv < PRIVILEGE_USER then s.priv == PRIVILEGE_USER else s.priv <= s.maxPriv)
  }

  predicate AllBounded(l: Lan) {
    Shape(l) && UsersOk(l.users) && forall i :: 0 <= i < |l.sessions| ==> Bounded(l.users, l.sessions[i])
  }

  lemma RespondBounded(l: Lan, m: Msg, via: Via, data: seq<u8>)
    requires AllBounded(l) && (via.Slot? ==> via.i < |l.sessions|)
    ensures AllBounded(Respond(l, m, via, data).lan)
  {
    hide Packet;
  }

  lemma OpenSessionBounded(l: Lan, m: Msg, rnd: u32)
    requires AllBounded(l) && Readable(m)
    ensures AllBounded(OpenSession(l, m, rnd).lan)
  {
    hide Respond, Un32, Le32, HasBit, IssuedSid, RecvSeq;
    var user := l.users[m.session.sid / 2 % 64];
    var xmitSeq := Un32(Args(m, 18, 22));
    var dummy := BLANK.(active := true, authtype := m.session.authType, xmitSeq := xmitSeq, sid := m.session.sid);
    var maxPriv: u8 := Arg(m, 1) % 16;
    var i := FreeFrom(l.sessions, 1);
    RespondBounded(l, m, Local(dummy), [0x85]);
    RespondBounded(l, m, Local(dummy), [0x86]);
    RespondBounded(l, m, Local(dummy), [0x81]);
    if user.valid && HasBit(user.allowedAuths, Arg(m, 0) % 16) && maxPriv <= user.maxPriv && i <= MAX_SESSIONS {
      var s := Activated(l, i, Arg(m, 0) % 16, xmitSeq, maxPriv, user, rnd);
      var l1 := l.(sessions := l.sessions[i := s], activeSessions := (l.activeSessions + 1) % 0x100,
                   sidSeq := (UsedSeq(l.sidSeq) + 1) % 0x1_0000_0000);
      RespondBounded(l1, m, Local(dummy), ActivationData(s));
    }
  }

  lemma OthersBounded(l: Lan, m: Msg)
    requires AllBounded(l) && Readable(m)
    ensures AllBounded(GetChannelAuthCapabilities(l, m).lan)
    ensures AllBounded(ReactivateSession(l, m).lan)
    ensures AllBounded(SetSessionPrivilege(l, m).lan)
  {
    hide Respond, Un32, Le32;
    var channel: u8 := if Arg(m, 0) % 16 == 0xe then l.chanNum else Arg(m, 0) % 16;
    RespondBounded(l, m, Unbound, [INVALID_DATA_FIELD_CC]);
    RespondBounded(l, m, Unbound, [0, channel, 0x17, 0x6, 0, 0, 0, 0, 0]);
    RespondBounded(l, m, Unbound, [REQUEST_DATA_LENGTH_INVALID_CC]);
    var v := SidToSession(l.sessions, m.session.sid);
    if v.Slot? {
      var s := l.sessions[v.i];
      var s1 := s.(xmitSeq := Un32(m.data[18..22]));
      RespondBounded(l.(sessions := l.sessions[v.i := s1]), m, v, ActivationData(s1));
      var priv: u8 := if Arg(m, 0) % 16 == 0 then s.priv else Arg(m, 0) % 16;
      RespondBounded(l, m, v, [0x80]);
      RespondBounded(l, m, v, [0x81]);
      if priv != PRIVILEGE_CALLBACK && priv <= s.maxPriv {
        assert Bounded(l.users, s.(priv := priv));
        RespondBounded(l.(sessions := l.sessions[v.i := s.(priv := priv)]), m, v, [0, priv]);
      }
    }
  }

  lemma ChallengeBounded(l: Lan, m: Msg)
    requires AllBounded(l) && Readable(m)
    ensures AllBounded(GetSessionChallenge(l, m).lan)
  {
    hide Respond, TempSid, Le32, HasBit;
    RespondBounded(l, m, Unbound, [0x82]);
    RespondBounded(l, m, Unbound, [0x81]);
    RespondBounded(l, m, Unbound, [INVALID_DATA_FIELD_CC]);
    RespondBounded(l, m, Unbound, [OUT_OF_SPACE_CC]);
    var u := UserFrom(l.users, 1, Args(m, 1, 17), true, Arg(m, 0) % 16);
    if u <= MAX_USERS {
      RespondBounded(l.(nextChallSeq := (l.nextChallSeq + 1) % 0x1_0000_0000), m, Unbound,
                     [0] + Le32(TempSid(l.nextChallSeq, l.users[u].idx)) + CHALLENGE);
    }
  }

  lemma CloseSessionBounded(l: Lan, m: Msg)
    requires AllBounded(l) && Readable(m) && CloseSession(l, m).Done?
    ensures AllBounded(CloseSession(l, m).r.lan)
  {
    hide Respond, Un32;
    var v := SidToSession(l.sessions, m.session.sid);
    RespondBounded(l, m, v, [REQUEST_DATA_LENGTH_INVALID_CC]);
    RespondBounded(l, m, v, [INSUFFICIENT_PRIVILEGE_CC]);
    RespondBounded(l, m, v, [0x87]);
    RespondBounded(l, m, v, [0]);
  }

  lemma NextBounded(l: Lan, q: Request)
    requires AllBounded(l) && Readable(q.m)
    ensures AllBounded(Next(l, q))
  {
    hide GetChannelAuthCapabilities, GetSessionChallenge, OpenSession, ReactivateSession, SetSessionPrivilege, CloseSession,
         Respond;
    if q.other.Data? {
      RespondBounded(l, q.m, Unbound, q.other.data);
    }
    OpenSessionBounded(l, q.m, q.rnd);
    OthersBounded(l, q.m);
    ChallengeBounded(l, q.m);
    if CloseSession(l, q.m).Done? {
      CloseSessionBounded(l, q.m);
    }
  }

  lemma {:induction false} RunBounded(l: Lan, reqs: seq<Request>)
    requires AllBounded(l) && AllReadable(reqs)
    ensures AllBounded(Run(l, reqs))
    decreases |reqs|
  {
    hide Next, Halts;
    if reqs != [] {
      NextBounded(l, reqs[0]);
      RunBounded(Next(l, reqs[0]), reqs[1..]);
    }
  }

  /** In every run from start-up with the configured users, no session rises above its
      user's configured maximum, and none uses a type its user may not: only "ipmiusr" sessions
      can become administrators, and only those of the nameless user can use passwords. */
  lemma NoPrivilegeBeyondUser(reqs: seq<Request>)
    requires AllReadable(reqs)
    ensures var l := Run(Initial(InitUsers(), 1, PRIVILEGE_ADMIN), reqs);
            Shape(l) && forall i :: 0 <= i < |l.sessions| && l.sessions[i].active ==>
              && 1 <= l.sessions[i].userid <= 2
              && l.sessions[i].priv <= InitUsers()[l.sessions[i].userid].maxPriv
              && (l.sessions[i].priv > PRIVILEGE_USER ==> l.sessions[i].userid == 2)
              && (l.sessions[i].authtype == AUTHTYPE_NONE || (l.sessions[i].userid == 1 && l.sessions[i].authtype == 4))
  {
    var l0 := Initial(InitUsers(), 1, PRIVILEGE_ADMIN);
    RunBounded(l0, reqs);
    NoneActive(l0.sessions);
    RunKeepsInv(l0, reqs);
    hide Run, HasBit;
    var l := Run(l0, reqs);
    forall i | 0 <= i < |l.sessions| && l.sessions[i].active
      ensures 1 <= l.sessions[i].userid <= 2 && l.sessions[i].priv <= InitUsers()[l.sessions[i].userid].maxPriv
      ensures l.sessions[i].priv > PRIVILEGE_USER ==> l.sessions[i].userid == 2
      ensures l.sessions[i].authtype == AUTHTYPE_NONE || (l.sessions[i].userid == 1 && l.sessions[i].authtype == 4)
    {
      assert Bounded(l.users, l.sessions[i]);
      TypeBits(l.sessions[i].authtype);
    }
  }

  /** The configured types, bit by bit: 0x01 allows type 0, 0x11 types 0 and 4. */
  lemma TypeBits(t: nat)
    ensures HasBit(0x01, t) <==> t == 0
    ensures HasBit(0x11, t) <==> t == 0 || t == 4
  {
    NoBits(if t >= 1 then t - 1 else 0);
    NoBits(if t >= 5 then t - 5 else 0);
    assert HasBit(0x11, 1) == HasBit(8, 0) && HasBit(0x11, 2) == HasBit(8, 1) && HasBit(0x11, 3) == HasBit(8, 2);
    assert HasBit(0x11, 4) == HasBit(8, 3);
    assert t >= 5 ==> HasBit(0x11, t) == HasBit(8, t - 1) == HasBit(4, t - 2) == HasBit(2, t - 3) == HasBit(1, t - 4) == HasBit(0, t - 5);
  }

  lemma {:induction false} NoBits(k: nat)
    ensures !HasBit(0, k)
    decreases k
  {
    if k > 0 {
      NoBits(k - 1);
    }
  }

  /** Slot i is active at every state of the run. */
  predicate StaysActive(l: Lan, reqs: seq<Request>, i: nat)
    requires Shape(l) && AllReadable(reqs)
    decreases |reqs|
  {
    i < |l.sessions| && l.sessions[i].active && (reqs == [] || Halts(l, reqs[0]) || StaysActive(Next(l, reqs[0]), reqs[1..], i))
  }

  /** A session keeps its limit, its id and the like for as long as it lasts. */
  lemma {:induction false} SessionStays(l: Lan, reqs: seq<Request>, i: nat)
    requires Inv(l) && AllReadable(reqs) && StaysActive(l, reqs, i)
    ensures i < |Run(l, reqs).sessions| && Run(l, reqs).sessions[i].active && SameIdentity(l.sessions[i], Run(l, reqs).sessions[i])
    decreases |reqs|
  {
    hide Next, Halts, SlotOk, IssuedSid;
    if reqs != [] && !Halts(l, reqs[0]) {
      NextKeepsInv(l, reqs[0]);
      NextKeepsSession(l, reqs[0], i);
      SessionStays(Next(l, reqs[0]), reqs[1..], i);
    }
  }

  lemma NextKeepsSession(l: Lan, q: Request, i: nat)
    requires Inv(l) && Readable(q.m) && i < |l.sessions| && l.sessions[i].active && Next(l, q).sessions[i].active
    ensures SameIdentity(l.sessions[i], Next(l, q).sessions[i])
  {
    hide Served, IssuedSid;
    var e := ServeEffect(l, q);
  }

  /** In every run from start-up, for as long as a session lasts: its limit is the one its
      activation q asked for, and its level is above that limit exactly when it asked for less
      than the user level.  Then the level stays there, and every request to change it is
      refused. */
  lemma AboveLimit(before: seq<Request>, q: Request, after: seq<Request>, i: nat)
    requires AllReadable(before) && Readable(q.m) && AllReadable(after) && i <= MAX_SESSIONS
    requires var l := Run(Initial(InitUsers(), 1, PRIVILEGE_ADMIN), before);
             !l.sessions[i].active && StaysActive(Next(l, q), after, i)
    ensures var l := Run(Next(Run(Initial(InitUsers(), 1, PRIVILEGE_ADMIN), before), q), after);
            var s, asked := l.sessions[i], Arg(q.m, 1) % 16;
            && s.active && s.maxPriv == asked
            && (s.priv > s.maxPriv <==> asked < PRIVILEGE_USER)
            && (asked < PRIVILEGE_USER ==>
                  && s.priv == PRIVILEGE_USER
                  && forall m :: Readable(m) && m.dataLen >= 1 && m.session.sid == s.sid ==>
                       SetSessionPrivilege(l, m) == Respond(l, m, Slot(i), [if Arg(m, 0) % 16 == 1 then 0x80 else 0x81]))
  {
    hide Run, Next, Initial, Inv, AllBounded, StaysActive, Respond, SetSessionPrivilege, IssuedSid, Un32;
    var l0 := Initial(InitUsers(), 1, PRIVILEGE_ADMIN);
    StartsBounded();
    RunBounded(l0, before);
    RunKeepsInv(l0, before);
    var l1 := Run(l0, before);
    var l2 := Next(l1, q);
    ActiveNow(l2, after, i);
    Opening(l1, q, i);
    NextKeepsInv(l1, q);
    NextBounded(l1, q);
    RunBounded(l2, after);
    RunKeepsInv(l2, after);
    SessionStays(l2, after, i);
    LimitHolds(Run(l2, after), i);
  }

  lemma StartsBounded()
    ensures var l := Initial(InitUsers(), 1, PRIVILEGE_ADMIN); AllBounded(l) && Inv(l)
  {
    NoneActive(Initial(InitUsers(), 1, PRIVILEGE_ADMIN).sessions);
  }

  lemma ActiveNow(l: Lan, reqs: seq<Request>, i: nat)
    requires Shape(l) && AllReadable(reqs) && StaysActive(l, reqs, i)
    ensures i < |l.sessions| && l.sessions[i].active
  {
  }

  lemma LimitHolds(l: Lan, i: nat)
    requires Inv(l) && AllBounded(l) && i < |l.sessions| && l.sessions[i].active
    ensures var s := l.sessions[i];
            && (s.priv > s.maxPriv <==> s.maxPriv < PRIVILEGE_USER)
            && (s.maxPriv < PRIVILEGE_USER ==>
                  && s.priv == PRIVILEGE_USER
                  && forall m :: Readable(m) && m.dataLen >= 1 && m.session.sid == s.sid ==>
                       SetSessionPrivilege(l, m) == Respond(l, m, Slot(i), [if Arg(m, 0) % 16 == 1 then 0x80 else 0x81]))
  {
    hide Respond;
    assert Bounded(l.users, l.sessions[i]);
    SidResolves(l, i);
  }

  /** An activation by "ipmiusr" under challenge number c that asks for the callback level. */
  function CallbackRequest(c: u32): seq<u8> {
    Frame(Head(AUTHTYPE_NONE, 0, TempSid(c, 2), 29, CLIENT_RSADDR, Pack(APP_NETFN, 0), CLIENT_RQADDR, Pack(1, 0),
               ACTIVATE_SESSION_CMD),
          [0, PRIVILEGE_CALLBACK] + Zeros(16) + [1, 0, 0, 0])
  }

  /** It is granted wherever a session is to spare, and the session starts above its limit. */
  lemma CallbackSession(l: Lan, c: u32, rnd: u32, other: Elsewhere)
    requires Inv(l) && l.users == InitUsers() && l.activeSessions < MAX_SESSIONS
    ensures IsAppRequest(CallbackRequest(c)) && FreeFrom(l.sessions, 1) <= MAX_SESSIONS
    ensures var s := Next(l, SessionInvariant.Request(Arrived(CallbackRequest(c)), rnd, other)).sessions[FreeFrom(l.sessions, 1)];
            s.active && s.maxPriv == PRIVILEGE_CALLBACK < s.priv == PRIVILEGE_USER
  {
    hide SlotOk, Count, Pack, Frame, ParseRmcp, Le32, TempSid, Un32, OpenSession;
    var payload, pkt := [0, PRIVILEGE_CALLBACK] + Zeros(16) + [1, 0, 0, 0], CallbackRequest(c);
    var h := Head(AUTHTYPE_NONE, 0, TempSid(c, 2), 29, CLIENT_RSADDR, Pack(APP_NETFN, 0), CLIENT_RQADDR, Pack(1, 0),
                  ACTIVATE_SESSION_CMD);
    var data := pkt + Zeros(MSG_BUFFER - |pkt|);
    FrameBytes(h, payload, data);
    ParseFrame(h, payload, data, |pkt|);
    PackValue(APP_NETFN, 0);
    TempSidValue(c, 2);
    var m := Arrived(pkt);
    assert Args(m, 0, 22) == payload;
    FreeSlotIffBelowLimit(l);
    GrantsCallback(l, m, rnd);
  }

  lemma GrantsCallback(l: Lan, m: Msg, rnd: u32)
    requires Shape(l) && l.users == InitUsers() && l.activeSessions < MAX_SESSIONS && FreeFrom(l.sessions, 1) <= MAX_SESSIONS
    requires Readable(m) && m.session.sid / 2 % 64 == 2 && m.session.authType == AUTHTYPE_NONE
    requires Args(m, 0, 22) == [0, PRIVILEGE_CALLBACK] + Zeros(16) + [1, 0, 0, 0]
    ensures var i := FreeFrom(l.sessions, 1); var r := OpenSession(l, m, rnd).lan;
            i < |r.sessions| && r.sessions[i].active && r.sessions[i].maxPriv == PRIVILEGE_CALLBACK && r.sessions[i].priv == PRIVILEGE_USER
  {
    hide Packet, IssuedSid, RecvSeq, Un32;
    var payload := Args(m, 0, 22);
    assert Arg(m, 0) == payload[0] && Arg(m, 1) == payload[1];
    assert Args(m, 18, 22) == payload[18..] == [1, 0, 0, 0];
    NotZero([1, 0, 0, 0]);
  }

  lemma NotZero(s: seq<u8>)
    requires |s| == 4 && s[0] != 0
    ensures Un32(s) != 0
  {
  }

  /** A session ends only by a close request from that very session, or from a session that
      is administrator at that moment. */
  lemma EndsOnlyByRight(l: Lan, q: Request, t: nat)
    requires Inv(l) && Readable(q.m) && t < |l.sessions| && l.sessions[t].active && !Next(l, q).sessions[t].active
    ensures q.m.message.netfn == APP_NETFN && q.m.message.cmd == CLOSE_SESSION_CMD
    ensures var v := SidToSession(l.sessions, q.m.session.sid);
            v.Slot? && (v.i == t || l.sessions[v.i].priv == PRIVILEGE_ADMIN)
  {
    hide GetChannelAuthCapabilities, GetSessionChallenge, ActivateSession, SetSessionPrivilege, CloseSession, Un32, Respond;
    var cmd := q.m.message.cmd;
    if q.m.message.netfn != APP_NETFN {
      if q.other.Data? {
        RespondKept(l, q.m, Unbound, q.other.data);
      }
    } else if cmd == GET_CHANNEL_AUTH_CAPABILITIES_CMD {
      AuthCapabilitiesEffect(l, q.m);
    } else if cmd == GET_SESSION_CHALLENGE_CMD {
      ChallengeEffect(l, q.m);
    } else if cmd == ACTIVATE_SESSION_CMD {
      ActivateEndsNothing(l, q.m, q.rnd, t);
    } else if cmd == SET_SESSION_PRIVILEGE_CMD {
      SetSessionPrivilegeEffect(l, q.m);
    } else if cmd == CLOSE_SESSION_CMD {
      CloseEnds(l, q.m, t);
    }
  }

  lemma ActivateEndsNothing(l: Lan, m: Msg, rnd: u32, t: nat)
    requires Inv(l) && Readable(m) && t < |l.sessions| && l.sessions[t].active
    ensures Shape(ActivateSession(l, m, rnd).lan) && ActivateSession(l, m, rnd).lan.sessions[t].active
  {
    hide OpenSession, ReactivateSession;
    if m.dataLen >= 22 && m.session.sid % 2 == 1 {
      OpenEndsNothing(l, m, rnd, t);
    } else {
      ReactivateSessionEffect(l, m);
    }
  }

  lemma OpenEndsNothing(l: Lan, m: Msg, rnd: u32, t: nat)
    requires Inv(l) && Readable(m) && t < |l.sessions| && l.sessions[t].active
    ensures Shape(OpenSession(l, m, rnd).lan) && OpenSession(l, m, rnd).lan.sessions[t].active
  {
    hide Packet, Un32, Le32, HasBit, IssuedSid, RecvSeq;
  }

  lemma CloseEnds(l: Lan, m: Msg, t: nat)
    requires Inv(l) && Readable(m) && t < |l.sessions| && l.sessions[t].active && CloseSession(l, m).Done?
    requires Shape(CloseSession(l, m).r.lan) && !CloseSession(l, m).r.lan.sessions[t].active
    ensures var v := SidToSession(l.sessions, m.session.sid);
            v.Slot? && (v.i == t || l.sessions[v.i].priv == PRIVILEGE_ADMIN)
  {
    hide Respond, Un32;
    var v := SidToSession(l.sessions, m.session.sid);
    RespondKept(l, m, v, [REQUEST_DATA_LENGTH_INVALID_CC]);
    RespondKept(l, m, v, [INSUFFICIENT_PRIVILEGE_CC]);
    RespondKept(l, m, v, [0x87]);
    RespondKept(l, m, v, [0]);
  }
}
