/** What every run of the session manager keeps. */
module SessionInvariant {
  import opened Bits
  import opened Codes
  import opened Wire
  import opened Sessions

  function Count(ss: seq<Session>): nat {
    if ss == [] then 0 else Count(ss[..|ss| - 1]) + (if ss[|ss| - 1].active then 1 else 0)
  }

  /** Slot i sits at its own index, and an active one carries that index in its even id. */
  predicate SlotOk(s: Session, i: nat) {
    && s.handle == i && !s.rmcpplus
    && (s.active ==> i != 0 && s.sid % 2 == 0 && s.sid / 2 % 64 == i)
  }

  predicate Inv(l: Lan) {
    && Shape(l)
    && (forall i :: 0 <= i < |l.sessions| ==> SlotOk(l.sessions[i], i))
    && l.activeSessions == Count(l.sessions)
  }

  // ---------- counting ----------

  lemma {:induction false} CountUpdate(ss: seq<Session>, i: nat, s: Session)
    requires i < |ss|
    ensures Count(ss[i := s]) == Count(ss) - (if ss[i].active then 1 else 0) + (if s.active then 1 else 0)
    decreases |ss|
  {
    var n := |ss| - 1;
    if i == n {
      assert ss[i := s][..n] == ss[..n];
    } else {
      CountUpdate(ss[..n], i, s);
      assert ss[i := s][..n] == ss[..n][i := s];
    }
  }

  lemma {:induction false} CountBounds(ss: seq<Session>)
    ensures Count(ss) <= |ss|
    ensures ss != [] && !ss[0].active ==> Count(ss) < |ss|
    decreases |ss|
  {
    if ss != [] {
      CountBounds(ss[..|ss| - 1]);
    }
  }

  /** With slot 0 unused, the count is full exactly when no other slot is free. */
  lemma {:induction false} CountFull(ss: seq<Session>)
    requires ss != [] && !ss[0].active
    ensures Count(ss) == |ss| - 1 <==> forall k :: 1 <= k < |ss| ==> ss[k].active
    decreases |ss|
  {
    var n := |ss| - 1;
    if n > 0 {
      CountFull(ss[..n]);
      CountBounds(ss[..n]);
      assert forall k :: 1 <= k < n ==> ss[..n][k] == ss[k];
      if forall k :: 1 <= k < |ss| ==> ss[k].active {
        assert forall k :: 1 <= k < n ==> ss[..n][k].active;
      }
    }
  }

  /** The search finds a slot exactly when the counter is below the limit, so the
      "no session slot" reply is never sent and the table is never over-filled. */
  lemma FreeSlotIffBelowLimit(l: Lan)
    requires Inv(l)
    ensures l.activeSessions <= MAX_SESSIONS
    ensures FreeFrom(l.sessions, 1) <= MAX_SESSIONS <==> l.activeSessions < MAX_SESSIONS
  {
    CountBounds(l.sessions);
    CountFull(l.sessions);
  }

  /** A slot found by its id is active, so closing it never takes the counter below zero. */
  lemma ActiveCounted(l: Lan, i: nat)
    requires Inv(l) && i < |l.sessions| && l.sessions[i].active
    ensures 0 < l.activeSessions
  {
    CountUpdate(l.sessions, i, l.sessions[i].(active := false));
  }

  /** An active session's id leads back to it, and to no other slot. */
  lemma SidResolves(l: Lan, i: nat)
    requires Inv(l) && i < |l.sessions| && l.sessions[i].active
    ensures SidToSession(l.sessions, l.sessions[i].sid) == Slot(i)
    ensures forall k :: 0 <= k < |l.sessions| && k != i && l.sessions[k].active ==> l.sessions[k].sid != l.sessions[i].sid
  {
    assert SlotOk(l.sessions[i], i);
    forall k | 0 <= k < |l.sessions| && k != i && l.sessions[k].active
      ensures l.sessions[k].sid != l.sessions[i].sid
    {
      assert SlotOk(l.sessions[k], k);
    }
  }

  // ---------- ids ----------

  /** The issued id, as arithmetic: the low 25 bits of the sequence number above the slot. */
  lemma IssuedSidValue(used: u32, handle: u32)
    requires handle < 64
    ensures IssuedSid(used, handle) == 128 * (used as int % 0x200_0000) + 2 * handle
    ensures IssuedSid(used, handle) % 2 == 0 && IssuedSid(used, handle) / 2 % 64 == handle
  {
    hide BitOr, Shl32;
    var h: nat := used % 0x200_0000;
    Shl32Values(used);
    Shl32Values(handle);
    OrBelow128(h, 2 * handle);
    SlotField(h, handle);
  }

  /** Bits 1 to 6 of an id. */
  lemma SlotField(h: nat, i: nat)
    requires i < 64
    ensures (128 * h + 2 * i) / 2 == 64 * h + i && (128 * h + 2 * i + 1) / 2 == 64 * h + i
    ensures (64 * h + i) % 64 == i && (128 * h + 2 * i) % 2 == 0 && (128 * h + 2 * i + 1) % 2 == 1
  {
  }

  lemma OrBelow128(h: nat, b: nat)
    requires b < 128
    ensures BitOr(128 * h, b) == 128 * h + b
  {
    ShlValues(1);
    ShlValues(h);
    OrShifted(h, b, 7);
  }

  /** A temporary id is odd, and carries the index of its user exactly when that index fits
      the six bits kept for it: user 64's ids name user 0, which cannot log in. */
  lemma TempSidValue(challSeq: u32, userIdx: u8)
    requires userIdx <= MAX_USERS
    ensures TempSid(challSeq, userIdx) % 2 == 1
    ensures TempSid(challSeq, userIdx) / 2 % 64 == userIdx <==> userIdx < MAX_USERS
    ensures userIdx == MAX_USERS ==> TempSid(challSeq, userIdx) / 2 % 64 == 0
  {
    hide BitOr, Shl32, TempSid;
    var h: nat := challSeq % 0x200_0000;
    if userIdx < MAX_USERS {
      TempSidBelow(challSeq, userIdx);
      SlotField(h, userIdx);
    } else {
      TempSidAt64(challSeq);
      SlotField(h / 2 * 2 + 1, 0);
    }
  }

  lemma TempSidBelow(challSeq: u32, userIdx: u8)
    requires userIdx < MAX_USERS
    ensures TempSid(challSeq, userIdx) == 128 * (challSeq as int % 0x200_0000) + 2 * userIdx + 1
  {
    hide BitOr, Shl32;
    var h: nat := challSeq % 0x200_0000;
    Shl32Values(challSeq);
    Shl32Values(userIdx);
    OrBelow128(h, 2 * userIdx);
    OrOne(64 * h + userIdx);
  }

  lemma TempSidAt64(challSeq: u32)
    ensures TempSid(challSeq, 64) == 128 * (challSeq as int % 0x200_0000 / 2 * 2 + 1) + 1
  {
    hide BitOr, Shl32;
    var h: nat := challSeq % 0x200_0000;
    Shl32Values(challSeq);
    Shl32Values(64);
    OrBit7(h);
    OrOdd(h);
    OrOne(64 * (h / 2 * 2 + 1));
  }

  lemma OrOne(a: nat)
    ensures BitOr(2 * a, 1) == 2 * a + 1
  {
    OrZero(a);
    assert (2 * a) / 2 == a;
  }

  lemma OrOdd(a: nat)
    ensures BitOr(a, 1) == a / 2 * 2 + 1
  {
    OrZero(a / 2);
  }

  lemma {:induction false} OrDouble(a: nat, b: nat)
    ensures BitOr(2 * a, 2 * b) == 2 * BitOr(a, b)
  {
    assert (2 * a) / 2 == a && (2 * b) / 2 == b;
  }

  lemma OrBit7(h: nat)
    ensures BitOr(128 * h, 128) == 128 * BitOr(h, 1)
  {
    hide BitOr;
    OrDouble(64 * h, 64);
    OrDouble(32 * h, 32);
    OrDouble(16 * h, 16);
    OrDouble(8 * h, 8);
    OrDouble(4 * h, 4);
    OrDouble(2 * h, 2);
    OrDouble(h, 1);
  }

  // ---------- what one request can do ----------

  /** The table's slots are kept, opened one at a time, or closed one at a time. */
  datatype Effect = Kept | Opened(i: nat) | Closed(t: nat)

  /** The parts of a slot that stay as long as its session does. */
  predicate SameIdentity(s: Session, s': Session) {
    s'.active == s.active && s'.rmcpplus == s.rmcpplus && s'.handle == s.handle && s'.sid == s.sid
    && s'.userid == s.userid && s'.authtype == s.authtype && s'.maxPriv == s.maxPriv && s'.recvSeq == s.recvSeq
  }

  predicate SameExcept(ss: seq<Session>, ss': seq<Session>, except: nat) {
    |ss'| == |ss| && forall k :: 0 <= k < |ss| && k != except ==> SameIdentity(ss[k], ss'[k])
  }

  predicate SameConfig(l: Lan, l': Lan) {
    l'.users == l.users && l'.chanNum == l.chanNum && l'.chanPrivLimit == l.chanPrivLimit
    && l'.defaultSessionTimeout == l.defaultSessionTimeout
  }

  predicate Does(l: Lan, l': Lan, e: Effect)
    requires Shape(l)
  {
    && Shape(l') && SameConfig(l, l')
    && match e
       case Kept =>
         SameExcept(l.sessions, l'.sessions, |l.sessions|) && l'.sidSeq == l.sidSeq && l'.activeSessions == l.activeSessions
       case Opened(i) =>
         && i == FreeFrom(l.sessions, 1) && i <= MAX_SESSIONS && SameExcept(l.sessions, l'.sessions, i)
         && l'.sessions[i].active && !l'.sessions[i].rmcpplus && l'.sessions[i].handle == l.sessions[i].handle
         && l'.sessions[i].sid == IssuedSid(UsedSeq(l.sidSeq), l.sessions[i].handle)
         && l.activeSessions < MAX_SESSIONS && l'.activeSessions == l.activeSessions + 1
         && l'.sidSeq == (UsedSeq(l.sidSeq) + 1) % 0x1_0000_0000
       case Closed(t) =>
         && t < |l.sessions| && SameExcept(l.sessions, l'.sessions, t)
         && l.sessions[t].active && SameIdentity(l.sessions[t].(active := false), l'.sessions[t])
         && l'.activeSessions == (l.activeSessions - 1) % 0x100 && l'.sidSeq == l.sidSeq
  }

  lemma RespondKept(l: Lan, m: Msg, via: Via, data: seq<u8>)
    requires Shape(l) && (via.Slot? ==> via.i < |l.sessions|)
    ensures Does(l, Respond(l, m, via, data).lan, Kept)
    ensures Respond(l, m, via, data).lan.nextChallSeq == l.nextChallSeq
  {
    hide Packet;
  }

  /** A reply after an effect changes nothing about the effect. */
  lemma ThenRespond(l: Lan, l1: Lan, e: Effect, m: Msg, via: Via, data: seq<u8>)
    requires Shape(l) && Does(l, l1, e) && (via.Slot? ==> via.i < |l1.sessions|)
    ensures Does(l, Respond(l1, m, via, data).lan, e)
  {
    RespondKept(l1, m, via, data);
    hide Respond;
  }

  lemma OpenSessionEffect(l: Lan, m: Msg, rnd: u32) returns (e: Effect)
    requires Shape(l) && Readable(m)
    ensures Does(l, OpenSession(l, m, rnd).lan, e)
  {
    hide Respond, Un32, Le32, HasBit, IssuedSid, Packet;
    var userIdx := m.session.sid / 2 % 64;
    var user := l.users[userIdx];
    var xmitSeq := Un32(Args(m, 18, 22));
    var dummy := BLANK.(active := true, authtype := m.session.authType, xmitSeq := xmitSeq, sid := m.session.sid);
    var i := FreeFrom(l.sessions, 1);
    RespondKept(l, m, Local(dummy), [0x85]);
    RespondKept(l, m, Local(dummy), [0x86]);
    RespondKept(l, m, Local(dummy), [0x81]);
    if l.activeSessions >= MAX_SESSIONS || i > MAX_SESSIONS {
      e := Kept;
    } else {
      var s := Activated(l, i, Arg(m, 0) % 16, xmitSeq, Arg(m, 1) % 16, user, rnd);
      var l1 := l.(sessions := l.sessions[i := s], activeSessions := (l.activeSessions + 1) % 0x100,
                   sidSeq := (UsedSeq(l.sidSeq) + 1) % 0x1_0000_0000);
      ThenRespond(l, l1, Opened(i), m, Local(dummy), ActivationData(s));
      e := if OpenSession(l, m, rnd) == Respond(l1, m, Local(dummy), ActivationData(s)) then Opened(i) else Kept;
    }
  }

  lemma ReactivateSessionEffect(l: Lan, m: Msg)
    requires Shape(l) && Readable(m)
    ensures Does(l, ReactivateSession(l, m).lan, Kept)
  {
    hide Respond, Un32, Le32, Packet;
    var v := SidToSession(l.sessions, m.session.sid);
    if v.Slot? {
      var s := l.sessions[v.i].(xmitSeq := Un32(m.data[18..22]));
      ThenRespond(l, l.(sessions := l.sessions[v.i := s]), Kept, m, v, ActivationData(s));
    }
  }

  lemma SetSessionPrivilegeEffect(l: Lan, m: Msg)
    requires Shape(l) && Readable(m)
    ensures Does(l, SetSessionPrivilege(l, m).lan, Kept)
  {
    hide Respond, Packet;
    var v := SidToSession(l.sessions, m.session.sid);
    RespondKept(l, m, Unbound, [REQUEST_DATA_LENGTH_INVALID_CC]);
    if v.Slot? {
      var s := l.sessions[v.i];
      var priv: u8 := if Arg(m, 0) % 16 == 0 then s.priv else Arg(m, 0) % 16;
      RespondKept(l, m, v, [0x80]);
      RespondKept(l, m, v, [0x81]);
      ThenRespond(l, l.(sessions := l.sessions[v.i := s.(priv := priv)]), Kept, m, v, [0, priv]);
    }
  }

  lemma EndSessionEffect(l: Lan, m: Msg, i: nat, t: nat)
    requires Shape(l) && i < |l.sessions| && t < |l.sessions| && l.sessions[t].active
    ensures Does(l, EndSession(l, m, i, t).lan, Closed(t))
  {
    RespondKept(l, m, Slot(i), [0]);
    hide Respond;
  }

  lemma CloseSessionEffect(l: Lan, m: Msg) returns (e: Effect)
    requires Shape(l) && Readable(m)
    ensures CloseSession(l, m).Done? ==> Does(l, CloseSession(l, m).r.lan, e)
  {
    hide Respond, Un32, Packet, EndSession;
    var v := SidToSession(l.sessions, m.session.sid);
    var sid := Un32(Args(m, 0, 4));
    var t := SidToSession(l.sessions, sid);
    RespondKept(l, m, v, [REQUEST_DATA_LENGTH_INVALID_CC]);
    RespondKept(l, m, v, [INSUFFICIENT_PRIVILEGE_CC]);
    RespondKept(l, m, v, [0x87]);
    e := Kept;
    if m.dataLen >= 4 && v.Slot? {
      EndSessionEffect(l, m, v.i, v.i);
      if sid == l.sessions[v.i].sid {
        e := Closed(v.i);
      } else if l.sessions[v.i].priv == PRIVILEGE_ADMIN && t.Slot? {
        EndSessionEffect(l, m, v.i, t.i);
        e := Closed(t.i);
      }
    }
  }

  lemma StepEffect(l: Lan, m: Msg, rnd: u32) returns (e: Effect)
    requires Shape(l) && Readable(m)
    ensures Step(l, m, rnd).Done? ==> Does(l, Step(l, m, rnd).r.lan, e)
  {
    hide GetChannelAuthCapabilities, GetSessionChallenge, OpenSession, ReactivateSession, SetSessionPrivilege, CloseSession;
    var cmd := m.message.cmd;
    e := Kept;
    if cmd == GET_CHANNEL_AUTH_CAPABILITIES_CMD {
      AuthCapabilitiesEffect(l, m);
    } else if cmd == GET_SESSION_CHALLENGE_CMD {
      ChallengeEffect(l, m);
    } else if cmd == ACTIVATE_SESSION_CMD {
      if m.dataLen >= 22 && m.session.sid % 2 == 1 {
        e := OpenSessionEffect(l, m, rnd);
      } else {
        ReactivateSessionEffect(l, m);
      }
    } else if cmd == SET_SESSION_PRIVILEGE_CMD {
      SetSessionPrivilegeEffect(l, m);
    } else if cmd == CLOSE_SESSION_CMD {
      e := CloseSessionEffect(l, m);
    }
  }

  lemma AuthCapabilitiesEffect(l: Lan, m: Msg)
    requires Shape(l) && Readable(m)
    ensures Does(l, GetChannelAuthCapabilities(l, m).lan, Kept)
  {
    var channel: u8 := if Arg(m, 0) % 16 == 0xe then l.chanNum else Arg(m, 0) % 16;
    RespondKept(l, m, Unbound, [INVALID_DATA_FIELD_CC]);
    RespondKept(l, m, Unbound, [0, channel, 0x17, 0x6, 0, 0, 0, 0, 0]);
    hide Respond;
  }

  lemma ChallengeEffect(l: Lan, m: Msg)
    requires Shape(l) && Readable(m)
    ensures Does(l, GetSessionChallenge(l, m).lan, Kept)
  {
    hide Respond, TempSid, Le32, HasBit;
    var u := UserFrom(l.users, 1, Args(m, 1, 17), true, Arg(m, 0) % 16);
    RespondKept(l, m, Unbound, [0x82]);
    RespondKept(l, m, Unbound, [0x81]);
    RespondKept(l, m, Unbound, [INVALID_DATA_FIELD_CC]);
    RespondKept(l, m, Unbound, [OUT_OF_SPACE_CC]);
    if u <= MAX_USERS {
      ThenRespond(l, l.(nextChallSeq := (l.nextChallSeq + 1) % 0x1_0000_0000), Kept, m, Unbound,
                  [0] + Le32(TempSid(l.nextChallSeq, l.users[u].idx)) + CHALLENGE);
    }
  }

  // ---------- the invariant ----------

  lemma {:induction false} CountSame(ss: seq<Session>, ss': seq<Session>)
    requires SameExcept(ss, ss', |ss|)
    ensures Count(ss) == Count(ss')
    decreases |ss|
  {
    if ss != [] {
      CountSame(ss[..|ss| - 1], ss'[..|ss| - 1]);
    }
  }

  lemma EffectKeepsInv(l: Lan, l': Lan, e: Effect)
    requires Inv(l) && Does(l, l', e)
    ensures Inv(l')
  {
    hide IssuedSid;
    var ss, ss' := l.sessions, l'.sessions;
    match e {
      case Kept =>
        CountSame(ss, ss');
      case Opened(i) =>
        IssuedSidValue(UsedSeq(l.sidSeq), ss[i].handle);
        CountUpdate(ss, i, ss'[i]);
        CountSame(ss[i := ss'[i]], ss');
      case Closed(t) =>
        ActiveCounted(l, t);
        CountUpdate(ss, t, ss'[t]);
        CountSame(ss[t := ss'[t]], ss');
    }
  }

  // ---------- runs ----------

  /** A request of any network function; `other` is what a handler outside the application
      function comes to. */
  datatype Request = Request(m: Msg, rnd: u32, other: Elsewhere)

  predicate AllReadable(reqs: seq<Request>) {
    forall k :: 0 <= k < |reqs| ==> Readable(reqs[k].m)
  }

  /** What a request does to the slots: a reply of another handler opens and closes none. */
  lemma ServeEffect(l: Lan, q: Request) returns (e: Effect)
    requires Shape(l) && Readable(q.m)
    ensures Served(l, q).Done? ==> Does(l, Served(l, q).r.lan, e)
    ensures !e.Kept? ==> q.m.message.netfn == APP_NETFN
  {
    hide Step, Respond;
    e := Kept;
    if q.m.message.netfn == APP_NETFN {
      e := StepEffect(l, q.m, q.rnd);
    } else if q.other.Data? {
      RespondKept(l, q.m, Unbound, q.other.data);
    }
  }

  function Served(l: Lan, q: Request): Outcome
    requires Shape(l) && Readable(q.m)
  {
    Serve(l, q.m, q.rnd, q.other)
  }

  /** A request that stops the server. */
  predicate Halts(l: Lan, q: Request)
    requires Shape(l)
  {
    Stops(l, q.m, q.other)
  }

  /** The tables after one request; a panic leaves them as they were. */
  function Next(l: Lan, q: Request): (l': Lan)
    requires Shape(l) && Readable(q.m)
    ensures Shape(l')
  {
    ServedKeepsShape(l, q);
    if Served(l, q).Done? then Served(l, q).r.lan else l
  }

  lemma ServedKeepsShape(l: Lan, q: Request)
    requires Shape(l) && Readable(q.m)
    ensures Served(l, q).Done? ==> Shape(Served(l, q).r.lan)
  {
    hide Served;
    var e := ServeEffect(l, q);
  }

  /** A panic ends the run. */
  function Run(l: Lan, reqs: seq<Request>): (l': Lan)
    requires Shape(l) && AllReadable(reqs)
    ensures Shape(l')
    decreases |reqs|
  {
    if reqs == [] || Halts(l, reqs[0]) then l else Run(Next(l, reqs[0]), reqs[1..])
  }

  /** Some request of the run stops the server. */
  predicate Stopped(l: Lan, reqs: seq<Request>)
    requires Shape(l) && AllReadable(reqs)
    decreases |reqs|
  {
    reqs != [] && (Halts(l, reqs[0]) || Stopped(Next(l, reqs[0]), reqs[1..]))
  }

  /** Reply data fits the send buffer. */
  predicate Brief(reqs: seq<Request>) {
    forall k :: 0 <= k < |reqs| && reqs[k].other.Data? ==> |reqs[k].other.data| + 37 <= MAX_MSG_RETURN_DATA
  }

  lemma {:induction false} RunKeepsInv(l: Lan, reqs: seq<Request>)
    requires Inv(l) && AllReadable(reqs)
    ensures Inv(Run(l, reqs)) && SameConfig(l, Run(l, reqs))
    decreases |reqs|
  {
    hide Next, Halts;
    if reqs != [] {
      NextKeepsInv(l, reqs[0]);
      RunKeepsInv(Next(l, reqs[0]), reqs[1..]);
    }
  }

  lemma NextKeepsInv(l: Lan, q: Request)
    requires Inv(l) && Readable(q.m)
    ensures Inv(Next(l, q)) && SameConfig(l, Next(l, q))
  {
    hide Served;
    var e := ServeEffect(l, q);
    if Served(l, q).Done? {
      EffectKeepsInv(l, Served(l, q).r.lan, e);
    }
  }

  /** How a slot comes to be active: by an activation under a temporary id, which sets its
      limit, its level and the outbound number asked for, never zero. */
  lemma Opening(l: Lan, q: Request, i: nat)
    requires Inv(l) && Readable(q.m) && i < |l.sessions| && !l.sessions[i].active && Next(l, q).sessions[i].active
    ensures q.m.message.netfn == APP_NETFN && q.m.message.cmd == ACTIVATE_SESSION_CMD && q.m.session.sid % 2 == 1
    ensures var s := Next(l, q).sessions[i];
            && s.maxPriv == Arg(q.m, 1) % 16 && s.priv == PRIVILEGE_USER
            && s.xmitSeq == Un32(Args(q.m, 18, 22)) != 0 && s.sid == IssuedSid(UsedSeq(l.sidSeq), i)
  {
    hide GetChannelAuthCapabilities, GetSessionChallenge, OpenSession, ReactivateSession, SetSessionPrivilege, CloseSession,
         Respond, Un32, IssuedSid;
    var m, cmd := q.m, q.m.message.cmd;
    if m.message.netfn != APP_NETFN {
      if q.other.Data? {
        RespondKept(l, m, Unbound, q.other.data);
      }
    } else if cmd == GET_CHANNEL_AUTH_CAPABILITIES_CMD {
      AuthCapabilitiesEffect(l, m);
    } else if cmd == GET_SESSION_CHALLENGE_CMD {
      ChallengeEffect(l, m);
    } else if cmd == ACTIVATE_SESSION_CMD {
      if m.dataLen >= 22 && m.session.sid % 2 == 1 {
        OpenSessionOpens(l, m, q.rnd, i);
      } else {
        ReactivateSessionEffect(l, m);
      }
    } else if cmd == SET_SESSION_PRIVILEGE_CMD {
      SetSessionPrivilegeEffect(l, m);
    } else if cmd == CLOSE_SESSION_CMD && CloseSession(l, m).Done? {
      CloseOpensNothing(l, m, i);
    }
  }

  lemma OpenSessionOpens(l: Lan, m: Msg, rnd: u32, i: nat)
    requires Inv(l) && Readable(m) && i < |l.sessions| && !l.sessions[i].active
    requires Shape(OpenSession(l, m, rnd).lan) && OpenSession(l, m, rnd).lan.sessions[i].active
    ensures var s := OpenSession(l, m, rnd).lan.sessions[i];
            && s.maxPriv == Arg(m, 1) % 16 && s.priv == PRIVILEGE_USER
            && s.xmitSeq == Un32(Args(m, 18, 22)) != 0 && s.sid == IssuedSid(UsedSeq(l.sidSeq), i)
  {
    hide Packet, Un32, Le32, HasBit, IssuedSid, RecvSeq;
    assert SlotOk(l.sessions[i], i);
  }

  lemma CloseOpensNothing(l: Lan, m: Msg, i: nat)
    requires Inv(l) && Readable(m) && i < |l.sessions| && !l.sessions[i].active && CloseSession(l, m).Done?
    ensures Shape(CloseSession(l, m).r.lan) && !CloseSession(l, m).r.lan.sessions[i].active
  {
    hide Respond, Un32;
    var v := SidToSession(l.sessions, m.session.sid);
    RespondKept(l, m, v, [REQUEST_DATA_LENGTH_INVALID_CC]);
    RespondKept(l, m, v, [INSUFFICIENT_PRIVILEGE_CC]);
    RespondKept(l, m, v, [0x87]);
    RespondKept(l, m, v, [0]);
  }

  lemma {:induction false} NoneActive(ss: seq<Session>)
    requires forall k :: 0 <= k < |ss| ==> !ss[k].active
    ensures Count(ss) == 0
    decreases |ss|
  {
    if ss != [] {
      NoneActive(ss[..|ss| - 1]);
    }
  }

  /** From start-up, whatever requests arrive: the counter is the number of active slots,
      at most 16, slot 0 is never active, and every active id is even, carries its slot and
      leads back to it. */
  lemma EveryRunIsConsistent(users: seq<User>, chanNum: u8, chanPrivLimit: u8, reqs: seq<Request>)
    requires |users| == MAX_USERS + 1 && AllReadable(reqs)
    ensures var l := Run(Initial(users, chanNum, chanPrivLimit), reqs);
            && Inv(l) && l.activeSessions == Count(l.sessions) <= MAX_SESSIONS && !l.sessions[0].active
            && forall i :: 0 <= i < |l.sessions| && l.sessions[i].active ==>
                 l.sessions[i].sid % 2 == 0 && SidToSession(l.sessions, l.sessions[i].sid) == Slot(i)
  {
    var l0 := Initial(users, chanNum, chanPrivLimit);
    NoneActive(l0.sessions);
    RunKeepsInv(l0, reqs);
    hide Run;
    var l := Run(l0, reqs);
    FreeSlotIffBelowLimit(l);
    assert SlotOk(l.sessions[0], 0);
    forall i | 0 <= i < |l.sessions| && l.sessions[i].active
      ensures l.sessions[i].sid % 2 == 0 && SidToSession(l.sessions, l.sessions[i].sid) == Slot(i)
    {
      assert SlotOk(l.sessions[i], i);
      SidResolves(l, i);
    }
  }

  // ---------- datagrams ----------

  /** A received datagram, with the random number drawn and what a handler elsewhere comes to
      while it is served. */
  datatype Datagram = Datagram(pkt: seq<u8>, rnd: u32, other: Elsewhere)

  /** It fits the receive buffer, and the reply data fits the send buffer. */
  predicate Sendable(ds: seq<Datagram>) {
    forall k :: 0 <= k < |ds| ==>
      |ds[k].pkt| <= MSG_BUFFER && (ds[k].other.Data? ==> |ds[k].other.data| + 37 <= MAX_MSG_RETURN_DATA)
  }

  /** The requests datagrams hold: all but those too short to be handled. */
  function Requests(ds: seq<Datagram>): (reqs: seq<Request>)
    requires Sendable(ds)
    ensures AllReadable(reqs)
    decreases |ds|
  {
    if ds == [] then []
    else
      (if RouteOf(ds[0].pkt).Some? then [Request(RouteOf(ds[0].pkt).value, ds[0].rnd, ds[0].other)] else []) + Requests(ds[1..])
  }

  /** Everything the server sends in return, in order. */
  function Traffic(l: Lan, ds: seq<Datagram>): seq<seq<u8>>
    requires Shape(l) && Sendable(ds)
    decreases |ds|
  {
    if ds == [] then []
    else if RouteOf(ds[0].pkt).None? then Pong(ds[0].pkt) + Traffic(l, ds[1..])
    else
      var q := Request(RouteOf(ds[0].pkt).value, ds[0].rnd, ds[0].other);
      Pong(ds[0].pkt) + if Halts(l, q) then [] else PacketsOf(l, q) + Traffic(Next(l, q), ds[1..])
  }

  function PacketsOf(l: Lan, q: Request): seq<seq<u8>>
    requires Shape(l) && Readable(q.m)
  {
    if Served(l, q).Done? then Served(l, q).r.sent else []
  }

  /** The k-th datagram's part in run and traffic. */
  lemma TrafficStep(l: Lan, ds: seq<Datagram>, k: nat)
    requires Shape(l) && Sendable(ds) && k < |ds|
    ensures var d, rest := ds[k], ds[k + 1..];
            Sendable(rest) &&
            if RouteOf(d.pkt).None? then
              Run(l, Requests(ds[k..])) == Run(l, Requests(rest)) && Traffic(l, ds[k..]) == Pong(d.pkt) + Traffic(l, rest)
            else
              var q := Request(RouteOf(d.pkt).value, d.rnd, d.other);
              if Served(l, q).Panic? then Run(l, Requests(ds[k..])) == l && Traffic(l, ds[k..]) == Pong(d.pkt)
              else
                && Shape(Served(l, q).r.lan)
                && Run(l, Requests(ds[k..])) == Run(Served(l, q).r.lan, Requests(rest))
                && Traffic(l, ds[k..]) == Pong(d.pkt) + Served(l, q).r.sent + Traffic(Served(l, q).r.lan, rest)
  {
    hide Served, RouteOf, Pong, Stops;
    var now, rest := ds[k..], ds[k + 1..];
    assert now[0] == ds[k] && now[1..] == rest;
    if RouteOf(ds[k].pkt).Some? {
      var q := Request(RouteOf(ds[k].pkt).value, ds[k].rnd, ds[k].other);
      ServedHalts(l, q);
      ServedKeepsShape(l, q);
      assert Requests(now)[0] == q && Requests(now)[1..] == Requests(rest);
    } else {
      assert Requests(now) == Requests(rest);
    }
  }

  lemma TrafficEnds(l: Lan, ds: seq<Datagram>)
    requires Shape(l)
    ensures Run(l, Requests(ds[|ds|..])) == l && Traffic(l, ds[|ds|..]) == []
  {
  }

  lemma ServedHalts(l: Lan, q: Request)
    requires Shape(l) && Readable(q.m)
    ensures Served(l, q).Panic? <==> Halts(l, q)
  {
    ServeStops(l, q.m, q.rnd, q.other);
  }

  // ---------- what stops the server ----------

  /** A close of session 0, sent outside any session. */
  const NULL_CLOSE: seq<u8> := Frame(Head(AUTHTYPE_NONE, 0, 0, 11, CLIENT_RSADDR, Pack(APP_NETFN, 0), CLIENT_RQADDR,
                                          Pack(1, 0), CLOSE_SESSION_CMD), [0, 0, 0, 0])

  /** A close under session id 0, or under any odd id, never resolves, because slot 0 is never
      active and issued ids are even. */
  lemma NeverResolves(l: Lan, m: Msg, other: Elsewhere)
    requires Inv(l) && m.message.netfn == APP_NETFN && m.message.cmd == CLOSE_SESSION_CMD && m.dataLen >= 4
    requires m.session.sid == 0 || m.session.sid % 2 == 1
    ensures Stops(l, m, other)
  {
    assert SlotOk(l.sessions[0], 0);
  }

  /** So this datagram stops the server wherever a run has taken it. */
  lemma NullCloseStops(users: seq<User>, chanNum: u8, chanPrivLimit: u8, reqs: seq<Request>, rnd: u32, other: Elsewhere)
    requires |users| == MAX_USERS + 1 && AllReadable(reqs)
    ensures IsAppRequest(NULL_CLOSE)
    ensures Served(Run(Initial(users, chanNum, chanPrivLimit), reqs), Request(Arrived(NULL_CLOSE), rnd, other)).Panic?
  {
    hide Run, Pack, Frame, Serve, Stops;
    EveryRunIsConsistent(users, chanNum, chanPrivLimit, reqs);
    var l := Run(Initial(users, chanNum, chanPrivLimit), reqs);
    NullCloseParsed();
    NeverResolves(l, Arrived(NULL_CLOSE), other);
    ServeStops(l, Arrived(NULL_CLOSE), rnd, other);
  }

  lemma NullCloseParsed()
    ensures IsAppRequest(NULL_CLOSE)
    ensures var m := Arrived(NULL_CLOSE); m.message.netfn == APP_NETFN && m.message.cmd == CLOSE_SESSION_CMD && m.session.sid == 0 && m.dataLen >= 4
  {
    hide Pack, Frame, ParseRmcp, Le32;
    var h := Head(AUTHTYPE_NONE, 0, 0, 11, CLIENT_RSADDR, Pack(APP_NETFN, 0), CLIENT_RQADDR, Pack(1, 0), CLOSE_SESSION_CMD);
    var data := NULL_CLOSE + Zeros(MSG_BUFFER - |NULL_CLOSE|);
    FrameBytes(h, [0, 0, 0, 0], data);
    ParseFrame(h, [0, 0, 0, 0], data, |NULL_CLOSE|);
    PackValue(APP_NETFN, 0);
  }
}
