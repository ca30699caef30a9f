/** The session manager as the program runs it: one object whose tables the handlers update
    in place.  `View()` is its value, and each handler does to the view what the command of
    the same name in `Sessions` does. */
module LanServ {
  import opened Bits
  import opened Codes
  import opened Wire
  import opened Sessions
  import opened SessionInvariant

  class LanServT {
    var chanNum: u8
    var chanPrivLimit: u8
    var activeSessions: u8
    var nextChallSeq: u32
    var sidSeq: u32
    var defaultSessionTimeout: u32
    const users: seq<User>
    const sessions: array<Session>
    /** Everything written to the connection, in order. */
    var sent: seq<seq<u8>>

    function View(): Lan
      reads this, sessions
    {
      Lan(chanNum, chanPrivLimit, activeSessions, nextChallSeq, sidSeq, defaultSessionTimeout, users, sessions[..])
    }

    /** This object went from state l to the result r, having sent log before. */
    ghost predicate Did(log: seq<seq<u8>>, r: Result)
      reads this, sessions
    {
      View() == r.lan && sent == log + r.sent
    }

    /** The same for an outcome that may be a panic, which sends and changes nothing. */
    ghost predicate CameTo(l: Lan, log: seq<seq<u8>>, o: Outcome, stopped: bool)
      reads this, sessions
    {
      stopped == o.Panic? && Did(log, if o.Panic? then Result(l, []) else o.r)
    }

    /** `ipmiLanInit`: the two configured users, the channel and empty session slots. */
    constructor ()
      ensures fresh(sessions) && View() == Initial(InitUsers(), 1, PRIVILEGE_ADMIN) && sent == []
    {
      users := InitUsers();
      sessions := new Session[MAX_SESSIONS + 1](i requires 0 <= i <= MAX_SESSIONS => BLANK.(handle := i));
      chanNum, chanPrivLimit, defaultSessionTimeout := 1, PRIVILEGE_ADMIN, 30;
      activeSessions, nextChallSeq, sidSeq, sent := 0, 0, 0, [];
      new;
      assert sessions[..] == Initial(users, 1, PRIVILEGE_ADMIN).sessions;
    }

    method LookupSession(sid: u32) returns (v: Via)
      requires sessions.Length == MAX_SESSIONS + 1
      ensures v == SidToSession(sessions[..], sid)
    {
      if sid % 2 == 1 {
        return Unbound;
      }
      var idx := sid / 2 % 64;
      if idx > MAX_SESSIONS || !sessions[idx].active || sessions[idx].sid != sid {
        return Unbound;
      }
      return Slot(idx);
    }

    method FindFreeSession() returns (i: nat)
      requires sessions.Length == MAX_SESSIONS + 1
      ensures i == FreeFrom(sessions[..], 1)
    {
      i := 1;
      while i <= MAX_SESSIONS
        invariant 1 <= i <= MAX_SESSIONS + 1
        invariant FreeFrom(sessions[..], i) == FreeFrom(sessions[..], 1)
      {
        if !sessions[i].active {
          return;
        }
        i := i + 1;
      }
    }

    method FindUser(username: seq<u8>, nameOnlyLookup: bool, priv: u8) returns (i: nat)
      requires |users| == MAX_USERS + 1
      ensures i == UserFrom(users, 1, username, nameOnlyLookup, priv)
    {
      i := 1;
      while i <= MAX_USERS
        invariant 1 <= i <= MAX_USERS + 1
        invariant UserFrom(users, i, username, nameOnlyLookup, priv) == UserFrom(users, 1, username, nameOnlyLookup, priv)
      {
        if username == users[i].username {
          if nameOnlyLookup || users[i].privilege == priv {
            return;
          }
        }
        i := i + 1;
      }
    }

    method ReturnRsp(m: Msg, via: Via, data: seq<u8>)
      requires Shape(View()) && (via.Slot? ==> via.i < sessions.Length) && |data| + 37 <= MAX_MSG_RETURN_DATA
      modifies this, sessions
      ensures Did(old(sent), Respond(old(View()), m, via, data))
    {
      hide Frame, ResponseHead;
      var v := via;
      if v.Unbound? {
        v := LookupSession(m.session.sid);
      }
      if (v.Slot? && sessions[v.i].rmcpplus) || (v.Local? && v.s.rmcpplus) {
        return;
      } else if m.session.sid == 0 {
        v := Local(BLANK.(active := true));
      }
      if v.Unbound? {
        return;
      }
      var s := if v.Slot? then sessions[v.i] else v.s;
      var pkt := BuildResponse(m, s.authtype, s.xmitSeq, s.sid, data);
      if v.Slot? {
        sessions[v.i] := s.(xmitSeq := if (s.xmitSeq + 1) % 0x1_0000_0000 == 0 then 1 else s.xmitSeq + 1);
      }
      sent := sent + [pkt];
    }

    method HandleGetChannelAuthCapabilities(m: Msg)
      requires Shape(View()) && Readable(m)
      modifies this, sessions
      ensures Did(old(sent), GetChannelAuthCapabilities(old(View()), m))
    {
      hide Respond;
      if m.session.sid == 0 && m.session.authType != AUTHTYPE_NONE {
        return;
      }
      if Arg(m, 0) / 0x80 % 2 > 0 {
        return;
      }
      var channel: u8 := Arg(m, 0) % 16;
      var priv := Arg(m, 1) % 16;
      if channel == 0xe {
        channel := chanNum;
      }
      if channel != chanNum {
        ReturnRsp(m, Unbound, [INVALID_DATA_FIELD_CC]);
      } else if priv > chanPrivLimit {
        ReturnRsp(m, Unbound, [INVALID_DATA_FIELD_CC]);
      } else {
        ReturnRsp(m, Unbound, [0, channel, 0x17, 0x6, 0, 0, 0, 0, 0]);
      }
    }

    method HandleGetSessionChallenge(m: Msg)
      requires Shape(View()) && Readable(m)
      modifies this, sessions
      ensures Did(old(sent), GetSessionChallenge(old(View()), m))
    {
      hide Respond, TempSid, Le32, HasBit;
      if m.session.sid == 0 && m.session.authType != AUTHTYPE_NONE {
        return;
      }
      var authtype: u8 := Arg(m, 0) % 16;
      var u := FindUser(Args(m, 1, 17), true, authtype);
      if u > MAX_USERS {
        if Args(m, 1, 17) == Zeros(16) {
          ReturnRsp(m, Unbound, [0x82]);
        } else {
          ReturnRsp(m, Unbound, [0x81]);
        }
        return;
      }
      if !HasBit(users[u].allowedAuths, authtype) {
        ReturnRsp(m, Unbound, [INVALID_DATA_FIELD_CC]);
        return;
      }
      if activeSessions >= MAX_SESSIONS {
        ReturnRsp(m, Unbound, [OUT_OF_SPACE_CC]);
        return;
      }
      var sid := TempSid(nextChallSeq, users[u].idx);
      nextChallSeq := (nextChallSeq + 1) % 0x1_0000_0000;
      ReturnRsp(m, Unbound, [0] + Le32(sid) + CHALLENGE);
    }

    method HandleActivateSession(m: Msg, rnd: u32)
      requires Shape(View()) && Readable(m)
      modifies this, sessions
      ensures Did(old(sent), ActivateSession(old(View()), m, rnd))
    {
      hide OpenSession, ReactivateSession;
      if m.dataLen < 22 {
        return;
      }
      if m.session.sid % 2 == 1 {
        OpenFromTemporary(m, rnd);
      } else {
        ReactivateFromSession(m);
      }
    }

    /** Activation with no session established yet. */
    method OpenFromTemporary(m: Msg, rnd: u32)
      requires Shape(View()) && Readable(m)
      modifies this, sessions
      ensures Did(old(sent), OpenSession(old(View()), m, rnd))
    {
      hide Respond, Un32, Le32, HasBit, IssuedSid;
      var userIdx := m.session.sid / 2 % 64;
      if userIdx == 0 {
        return;
      }
      var auth: u8 := Arg(m, 0) % 16;
      var user := users[userIdx];
      if !user.valid || !HasBit(user.allowedAuths, auth) || !HasBit(user.allowedAuths, m.session.authType) {
        return;
      }
      if activeSessions >= MAX_SESSIONS {
        return;
      }
      var xmitSeq := Un32(Args(m, 18, 22));
      var dummySession := BLANK.(active := true, authtype := m.session.authType, xmitSeq := xmitSeq, sid := m.session.sid);
      if xmitSeq == 0 {
        ReturnRsp(m, Local(dummySession), [0x85]);
        return;
      }
      var maxPriv: u8 := Arg(m, 1) % 16;
      if user.privilege == 0xf || maxPriv > user.maxPriv {
        ReturnRsp(m, Local(dummySession), [0x86]);
        return;
      }
      var i := FindFreeSession();
      if i > MAX_SESSIONS {
        ReturnRsp(m, Local(dummySession), [0x81]);
        return;
      }
      ghost var l := View();
      var s := sessions[i].(active := true, rmcpplus := false, authtype := auth, xmitSeq := xmitSeq, maxPriv := maxPriv,
                            priv := PRIVILEGE_USER, userid := user.idx, timeLeft := defaultSessionTimeout);
      s := s.(recvSeq := rnd - rnd % 2);
      if s.recvSeq == 0 {
        s := s.(recvSeq := 2);
      }
      activeSessions := (activeSessions + 1) % 0x100;
      if sidSeq == 0 {
        sidSeq := sidSeq + 1;
      }
      s := s.(sid := IssuedSid(sidSeq, s.handle));
      sidSeq := (sidSeq + 1) % 0x1_0000_0000;
      sessions[i] := s;
      assert s == Activated(l, i, auth, xmitSeq, maxPriv, user, rnd);
      assert sessions[..] == l.sessions[i := s];
      ReturnRsp(m, Local(dummySession), [0, s.authtype] + Le32(s.sid) + Le32(s.recvSeq) + [s.maxPriv]);
    }

    /** Activation from inside a session: only the outbound number is taken. */
    method ReactivateFromSession(m: Msg)
      requires Shape(View()) && Readable(m)
      modifies this, sessions
      ensures Did(old(sent), ReactivateSession(old(View()), m))
    {
      hide Respond, Un32, Le32;
      var v := LookupSession(m.session.sid);
      if v.Unbound? {
        return;
      }
      ghost var before := sessions[..];
      sessions[v.i] := sessions[v.i].(xmitSeq := Un32(m.data[18..22]));
      var s := sessions[v.i];
      assert sessions[..] == before[v.i := s];
      ReturnRsp(m, v, [0, s.authtype] + Le32(s.sid) + Le32(s.recvSeq) + [s.maxPriv]);
    }

    method HandleSetSessionPrivilege(m: Msg)
      requires Shape(View()) && Readable(m)
      modifies this, sessions
      ensures Did(old(sent), SetSessionPrivilege(old(View()), m))
    {
      hide Respond;
      if m.dataLen < 1 {
        ReturnRsp(m, Unbound, [REQUEST_DATA_LENGTH_INVALID_CC]);
        return;
      }
      var v := LookupSession(m.session.sid);
      if v.Unbound? {
        return;
      }
      var priv: u8 := Arg(m, 0) % 16;
      if priv == 0 {
        priv := sessions[v.i].priv;
      }
      if priv == PRIVILEGE_CALLBACK {
        ReturnRsp(m, v, [0x80]);
        return;
      }
      if priv > sessions[v.i].maxPriv {
        ReturnRsp(m, v, [0x81]);
        return;
      }
      ghost var before := sessions[..];
      sessions[v.i] := sessions[v.i].(priv := priv);
      assert sessions[..] == before[v.i := before[v.i].(priv := priv)];
      ReturnRsp(m, v, [0, priv]);
    }

    /** The caller's session is used without a check: when it is nil the server stops. */
    method HandleCloseSession(m: Msg) returns (stopped: bool)
      requires Shape(View()) && Readable(m)
      modifies this, sessions
      ensures CameTo(old(View()), old(sent), CloseSession(old(View()), m), stopped)
    {
      hide Respond, Un32;
      stopped := false;
      var v := LookupSession(m.session.sid);
      if m.dataLen < 4 {
        ReturnRsp(m, v, [REQUEST_DATA_LENGTH_INVALID_CC]);
        return;
      }
      var target := v;
      var sid := Un32(Args(m, 0, 4));
      if v.Unbound? {
        return true;
      }
      if sid != sessions[v.i].sid {
        if sessions[v.i].priv != PRIVILEGE_ADMIN {
          ReturnRsp(m, v, [INSUFFICIENT_PRIVILEGE_CC]);
          return;
        }
        target := LookupSession(sid);
        if target.Unbound? {
          ReturnRsp(m, v, [0x87]);
          return;
        }
      }
      ReturnRsp(m, v, [0]);
      ghost var r := Respond(old(View()), m, v, [0]);
      sessions[target.i] := sessions[target.i].(active := false);
      assert sessions[..] == r.lan.sessions[target.i := r.lan.sessions[target.i].(active := false)];
      activeSessions := (activeSessions - 1) % 0x100;
    }

    /** The application network function: dispatch on the command.  A command without an entry
        calls a nil function. */
    method AppNetfn(m: Msg, rnd: u32) returns (stopped: bool)
      requires Shape(View()) && Readable(m)
      modifies this, sessions
      ensures CameTo(old(View()), old(sent), Step(old(View()), m, rnd), stopped)
      ensures stopped <==> Panics(old(View()), m)
    {
      hide GetChannelAuthCapabilities, GetSessionChallenge, ActivateSession, SetSessionPrivilege, CloseSession, Panics;
      StepPanics(View(), m, rnd);
      stopped := false;
      var cmd := m.message.cmd;
      if cmd == GET_CHANNEL_AUTH_CAPABILITIES_CMD {
        HandleGetChannelAuthCapabilities(m);
      } else if cmd == GET_SESSION_CHALLENGE_CMD {
        HandleGetSessionChallenge(m);
      } else if cmd == ACTIVATE_SESSION_CMD {
        HandleActivateSession(m, rnd);
      } else if cmd == SET_SESSION_PRIVILEGE_CMD {
        HandleSetSessionPrivilege(m);
      } else if cmd == CLOSE_SESSION_CMD {
        stopped := HandleCloseSession(m);
      } else if !Known(cmd) {
        stopped := true;
      }
    }

    /** Dispatch on the network function.  `other` is what a handler elsewhere comes to. */
    method HandleMsg(m: Msg, rnd: u32, other: Elsewhere) returns (stopped: bool)
      requires Shape(View()) && Readable(m) && (other.Data? ==> |other.data| + 37 <= MAX_MSG_RETURN_DATA)
      modifies this, sessions
      ensures CameTo(old(View()), old(sent), Serve(old(View()), m, rnd, other), stopped)
    {
      hide Step, Respond, Panics;
      stopped := false;
      if m.message.netfn == APP_NETFN {
        stopped := AppNetfn(m, rnd);
      } else if !HasHandler(m.message.netfn, m.message.cmd) {
        stopped := true;
      } else if MayAnswer(m.message.netfn, m.message.cmd) {
        match other {
          case Silence =>
          case Fault =>
            stopped := true;
          case Data(data) =>
            ReturnRsp(m, Unbound, data);
        }
      }
    }

    /** One datagram, whatever it holds: receive, answer a ping, parse, dispatch. */
    method HandleDatagram(pkt: seq<u8>, rnd: u32, other: Elsewhere) returns (stopped: bool)
      requires Shape(View()) && |pkt| <= MSG_BUFFER && (other.Data? ==> |other.data| + 37 <= MAX_MSG_RETURN_DATA)
      modifies this, sessions
      ensures CameTo(old(View()), old(sent) + Pong(pkt),
                     if RouteOf(pkt).None? then Done(Result(old(View()), [])) else Serve(old(View()), RouteOf(pkt).value, rnd, other),
                     stopped)
    {
      hide Serve, ParseRmcp, Un32, Le32;
      if |pkt| < 5 {
        return false;
      }
      var msg := new MsgT(pkt);
      assert msg.View() == Received(pkt + Zeros(MSG_BUFFER - |pkt|), |pkt|);
      if msg.data[3] == 6 {
        AnswerPing(pkt);
      } else if msg.data[3] == 7 {
        if msg.data[4] != AUTHTYPE_RMCP_PLUS {
          msg.IpmiParseRmcpMsg();
        }
      }
      var m := msg.View();
      assert RouteOf(pkt) == Some(m);
      stopped := HandleMsg(m, rnd, other);
    }

    /** The receive loop, over any datagrams: the tables go through the run of the requests
        they hold, and a request that stops the server ends it. */
    method ServeAll(ds: seq<Datagram>) returns (stopped: bool)
      requires Shape(View()) && Sendable(ds)
      modifies this, sessions
      ensures Shape(View()) && AllReadable(Requests(ds)) && View() == Run(old(View()), Requests(ds))
      ensures sent == old(sent) + Traffic(old(View()), ds)
    {
      hide Serve, Next, RouteOf, Pong, Shape, Stops, Run, Traffic, Requests;
      ghost var l, log := View(), sent;
      assert ds[0..] == ds;
      for k := 0 to |ds|
        invariant Shape(View())
        invariant Run(View(), Requests(ds[k..])) == Run(l, Requests(ds)) && sent + Traffic(View(), ds[k..]) == log + Traffic(l, ds)
      {
        TrafficStep(View(), ds, k);
        stopped := HandleDatagram(ds[k].pkt, ds[k].rnd, ds[k].other);
        if stopped {
          return;
        }
      }
      TrafficEnds(View(), ds);
      stopped := false;
    }

    /** Requests already parsed, in order, until one stops the server. */
    method ServeRequests(reqs: seq<Request>) returns (stopped: bool)
      requires Shape(View()) && AllReadable(reqs) && Brief(reqs)
      modifies this, sessions
      ensures Shape(View()) && View() == Run(old(View()), reqs) && stopped == Stopped(old(View()), reqs)
    {
      hide Serve, Shape, Stops;
      ghost var l := View();
      assert reqs[0..] == reqs;
      for k := 0 to |reqs|
        invariant Shape(View())
        invariant Run(View(), reqs[k..]) == Run(l, reqs) && Stopped(View(), reqs[k..]) == Stopped(l, reqs)
      {
        ServedHalts(View(), reqs[k]);
        ServedKeepsShape(View(), reqs[k]);
        assert reqs[k..][0] == reqs[k] && reqs[k..][1..] == reqs[k + 1..];
        stopped := HandleMsg(reqs[k].m, reqs[k].rnd, reqs[k].other);
        if stopped {
          return;
        }
      }
      stopped := false;
    }

    /** `asfPing`: the answer to a presence ping. */
    method AnswerPing(pkt: seq<u8>)
      requires |pkt| >= 5 && pkt[3] == 6
      modifies this`sent
      ensures sent == old(sent) + Pong(pkt)
    {
      hide Un32, Le32;
      if |pkt| < 12 || Un32(pkt[4..8]) != ASF_IANA || pkt[8] != 0x80 {
        return;
      }
      sent := sent + [[6, 0, 0xff, 6] + Le32(ASF_IANA) + [0x40, pkt[9], 0, 16] + Le32(ASF_IANA) + Zeros(4)
                      + [0x81] + Zeros(7)];
    }
  }
}
