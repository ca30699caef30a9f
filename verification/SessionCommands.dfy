/** What the session commands mean: for each one, exactly when it is granted, what it leaves in
    the tables, and how it is answered.  The laws speak of a request as the server serves it,
    in any state the table invariant holds in. */
module SessionCommands {
  import opened Bits
  import opened Codes
  import opened Wire
  import opened Sessions
  import opened SessionInvariant
  import opened SessionPrivilege
  import opened SessionHistory

  /** The request is the application command cmd. */
  predicate IsCommand(q: Request, cmd: u8) {
    Readable(q.m) && q.m.message.netfn == APP_NETFN && q.m.message.cmd == cmd
  }

  /** It is answered by one packet with this data, on session s. */
  predicate Answered(l: Lan, q: Request, s: Session, data: seq<u8>)
    requires Shape(l) && Readable(q.m)
  {
    Served(l, q).Done? && Served(l, q).r.sent == [Packet(q.m, s, data)]
  }

  /** A reply on an open slot uses up one number of it and changes nothing else. */
  lemma OnSlot(l: Lan, m: Msg, i: nat, data: seq<u8>)
    requires Inv(l) && i < |l.sessions| && l.sessions[i].active && m.session.sid == l.sessions[i].sid
    ensures Respond(l, m, Slot(i), data) ==
            Result(l.(sessions := l.sessions[i := Advanced(l.sessions[i])]), [Packet(m, l.sessions[i], data)])
    ensures m.session.sid != 0
  {
    hide Packet;
    assert SlotOk(l.sessions[i], i);
  }

  // ---------- close ----------

  /** The close names session t, and its sender may end it. */
  predicate MayClose(l: Lan, m: Msg, i: nat, t: nat)
    requires Shape(l) && Readable(m) && i < |l.sessions|
  {
    SidToSession(l.sessions, Un32(Args(m, 0, 4))) == Slot(t) && (t == i || l.sessions[i].priv == PRIVILEGE_ADMIN)
  }

  /** A close sent on session i ends session t exactly when it names t and its sender is t
      itself or an administrator.  Then the counter is one lower, the id resolves to nothing
      and every other slot is as it was; otherwise no session ends.  Completion code zero is
      answered exactly when a session ended. */
  lemma CloseCloses(l: Lan, q: Request, i: nat, t: nat)
    requires Inv(l) && IsCommand(q, CLOSE_SESSION_CMD) && q.m.dataLen >= 4
    requires SidToSession(l.sessions, q.m.session.sid) == Slot(i) && t < |l.sessions| && l.sessions[t].active
    ensures !Next(l, q).sessions[t].active <==> MayClose(l, q.m, i, t)
    ensures MayClose(l, q.m, i, t) ==>
              && Answered(l, q, l.sessions[i], [0]) && Next(l, q).activeSessions == l.activeSessions - 1
              && SidToSession(Next(l, q).sessions, l.sessions[t].sid).Unbound?
              && Un32(Args(q.m, 0, 4)) == l.sessions[t].sid && Next(l, q).sidSeq == l.sidSeq
              && SameExcept(l.sessions, Next(l, q).sessions, t)
    ensures (forall k :: 0 <= k < |l.sessions| && l.sessions[k].active ==> !MayClose(l, q.m, i, k)) ==>
              && Next(l, q).activeSessions == l.activeSessions && SameExcept(l.sessions, Next(l, q).sessions, |l.sessions|)
              && Answered(l, q, l.sessions[i],
                          [if l.sessions[i].priv != PRIVILEGE_ADMIN then INSUFFICIENT_PRIVILEGE_CC else 0x87])
  {
    hide Packet, Un32, Respond;
    var m := q.m;
    OnSlot(l, m, i, [0]);
    OnSlot(l, m, i, [INSUFFICIENT_PRIVILEGE_CC]);
    OnSlot(l, m, i, [0x87]);
    SidResolves(l, i);
    SidResolves(l, t);
    ActiveCounted(l, t);
  }

  /** Issue, close, and anything after: the j-th id of a run, closed by q after the run, resolves
      to nothing until 2^25-1 activations after the one that issued it. */
  lemma ClosedForGood(l: Lan, before: seq<Request>, j: nat, q: Request, i: nat, t: nat, after: seq<Request>)
    requires Inv(l) && AllReadable(before) && AllReadable(after) && j < |Issued(l, before)|
    requires var l1, x := Run(l, before), Issued(l, before)[j];
             && SidToSession(l1.sessions, x) == Slot(t)
             && IsCommand(q, CLOSE_SESSION_CMD) && q.m.dataLen >= 4 && SidToSession(l1.sessions, q.m.session.sid) == Slot(i)
             && MayClose(l1, q.m, i, t)
             && |Issued(l, before)| - j + |Issued(Next(l1, q), after)| <= WINDOW - 1
    ensures SidToSession(Run(Next(Run(l, before), q), after).sessions, Issued(l, before)[j]).Unbound?
  {
    hide Issued, IssuedSid, Run, Next, MayClose, IsCommand, SidToSession, UsedSeq;
    var l1 := Run(l, before);
    RunKeepsInv(l, before);
    var u, h := IssuedAge(l, before, j);
    CommandReadable(q, CLOSE_SESSION_CMD);
    CloseUnbinds(l1, q, i, t, Issued(l, before)[j]);
    NextKeepsInv(l1, q);
    ClosedSidStaysClosed(Next(l1, q), after, u, h, |Issued(l, before)| - j);
  }

  lemma CloseUnbinds(l: Lan, q: Request, i: nat, t: nat, x: u32)
    requires Inv(l) && IsCommand(q, CLOSE_SESSION_CMD) && q.m.dataLen >= 4
    requires SidToSession(l.sessions, q.m.session.sid) == Slot(i) && SidToSession(l.sessions, x) == Slot(t) && MayClose(l, q.m, i, t)
    ensures SidToSession(Next(l, q).sessions, x).Unbound? && Next(l, q).sidSeq == l.sidSeq
  {
    hide IsCommand, Next, Un32;
    CloseCloses(l, q, i, t);
  }

  lemma CommandReadable(q: Request, cmd: u8)
    requires IsCommand(q, cmd)
    ensures Readable(q.m)
  {
  }

  // ---------- set privilege ----------

  /** The level a set-privilege request asks for; zero asks for none. */
  function Asked(m: Msg): u8
    requires Readable(m)
  {
    Arg(m, 0) % 16
  }

  /** The request raises or lowers the level of session i. */
  predicate Grants(l: Lan, q: Request, i: nat)
    requires Shape(l) && i < |l.sessions|
  {
    && IsCommand(q, SET_SESSION_PRIVILEGE_CMD) && q.m.dataLen >= 1 && SidToSession(l.sessions, q.m.session.sid) == Slot(i)
    && PRIVILEGE_USER <= Asked(q.m) <= l.sessions[i].maxPriv
  }

  /** Level zero keeps the level and reports it, unless even that is above the limit; a level
      from the user level up to the limit is taken; the callback level and levels above the
      limit are refused.  Nothing but this session's level and number changes. */
  lemma PrivilegeSet(l: Lan, q: Request, i: nat)
    requires Inv(l) && AllBounded(l) && IsCommand(q, SET_SESSION_PRIVILEGE_CMD) && q.m.dataLen >= 1
    requires SidToSession(l.sessions, q.m.session.sid) == Slot(i)
    ensures var s, a := l.sessions[i], Asked(q.m);
            var level := if Grants(l, q, i) then a else s.priv;
            && Next(l, q) == l.(sessions := l.sessions[i := Advanced(s.(priv := level))])
            && Answered(l, q, s,
                        if a == PRIVILEGE_CALLBACK then [0x80]
                        else if (if a == 0 then s.priv else a) > s.maxPriv then [0x81]
                        else [0, level])
  {
    hide Packet, Un32, Respond;
    var m, s := q.m, l.sessions[i];
    assert Bounded(l.users, s);
    var priv: u8 := if Arg(m, 0) % 16 == 0 then s.priv else Arg(m, 0) % 16;
    var l1 := l.(sessions := l.sessions[i := s.(priv := priv)]);
    EffectKeepsInv(l, l1, Kept);
    OnSlot(l, m, i, [0x80]);
    OnSlot(l, m, i, [0x81]);
    OnSlot(l1, m, i, [0, priv]);
    SamePacket(m, s, s.(priv := priv), [0, priv]);
    assert l1.sessions[i := Advanced(s.(priv := priv))] == l.sessions[i := Advanced(s.(priv := priv))];
    assert s.(priv := s.priv) == s;
  }

  lemma SamePacket(m: Msg, s: Session, s': Session, data: seq<u8>)
    requires s'.authtype == s.authtype && s'.xmitSeq == s.xmitSeq && s'.sid == s.sid
    ensures Packet(m, s', data) == Packet(m, s, data)
  {
  }

  // ---------- levels over runs ----------

  predicate SameLevels(l: Lan, l': Lan) {
    |l'.sessions| == |l.sessions| && forall k :: 0 <= k < |l.sessions| ==> l'.sessions[k].priv == l.sessions[k].priv
  }

  lemma RespondLevels(l: Lan, m: Msg, via: Via, data: seq<u8>)
    requires Shape(l) && (via.Slot? ==> via.i < |l.sessions|)
    ensures SameLevels(l, Respond(l, m, via, data).lan)
  {
    hide Packet;
  }

  lemma QueriesLevels(l: Lan, m: Msg)
    requires Shape(l) && Readable(m)
    ensures SameLevels(l, GetChannelAuthCapabilities(l, m).lan) && SameLevels(l, GetSessionChallenge(l, m).lan)
  {
    hide Respond, TempSid, HasBit, Le32;
    var channel: u8 := if Arg(m, 0) % 16 == 0xe then l.chanNum else Arg(m, 0) % 16;
    RespondLevels(l, m, Unbound, [INVALID_DATA_FIELD_CC]);
    RespondLevels(l, m, Unbound, [0, channel, 0x17, 0x6, 0, 0, 0, 0, 0]);
    RespondLevels(l, m, Unbound, [0x82]);
    RespondLevels(l, m, Unbound, [0x81]);
    RespondLevels(l, m, Unbound, [OUT_OF_SPACE_CC]);
    var u := UserFrom(l.users, 1, Args(m, 1, 17), true, Arg(m, 0) % 16);
    if u <= MAX_USERS {
      RespondLevels(l.(nextChallSeq := (l.nextChallSeq + 1) % 0x1_0000_0000), m, Unbound,
                    [0] + Le32(TempSid(l.nextChallSeq, l.users[u].idx)) + CHALLENGE);
    }
  }

  lemma SessionsLevels(l: Lan, m: Msg)
    requires Shape(l) && Readable(m)
    ensures SameLevels(l, ReactivateSession(l, m).lan)
    ensures m.dataLen < 1 || SidToSession(l.sessions, m.session.sid).Unbound? ==> SameLevels(l, SetSessionPrivilege(l, m).lan)
  {
    hide Respond, Un32, Le32;
    RespondLevels(l, m, Unbound, [REQUEST_DATA_LENGTH_INVALID_CC]);
    var v := SidToSession(l.sessions, m.session.sid);
    if v.Slot? {
      var s := l.sessions[v.i].(xmitSeq := Un32(m.data[18..22]));
      RespondLevels(l.(sessions := l.sessions[v.i := s]), m, v, ActivationData(s));
    }
  }

  lemma CloseLevels(l: Lan, m: Msg)
    requires Shape(l) && Readable(m) && CloseSession(l, m).Done?
    ensures SameLevels(l, CloseSession(l, m).r.lan)
  {
    hide Respond, Un32;
    var v := SidToSession(l.sessions, m.session.sid);
    RespondLevels(l, m, v, [REQUEST_DATA_LENGTH_INVALID_CC]);
    RespondLevels(l, m, v, [INSUFFICIENT_PRIVILEGE_CC]);
    RespondLevels(l, m, v, [0x87]);
    RespondLevels(l, m, v, [0]);
  }

  lemma OpenLevels(l: Lan, m: Msg, rnd: u32, i: nat)
    requires Shape(l) && Readable(m) && i < |l.sessions| && l.sessions[i].active
    ensures var r := OpenSession(l, m, rnd).lan; i < |r.sessions| && r.sessions[i].priv == l.sessions[i].priv
  {
    hide Packet, Un32, Le32, HasBit, IssuedSid, RecvSeq;
  }

  /** Only a granted request of its own changes an open session's level. */
  lemma NextLevel(l: Lan, q: Request, i: nat)
    requires Inv(l) && AllBounded(l) && Readable(q.m) && i < |l.sessions| && l.sessions[i].active
    ensures Next(l, q).sessions[i].priv == if Grants(l, q, i) then Asked(q.m) else l.sessions[i].priv
  {
    hide GetChannelAuthCapabilities, GetSessionChallenge, OpenSession, ReactivateSession, SetSessionPrivilege, CloseSession, Respond,
         Bounded;
    if q.m.message.netfn != APP_NETFN {
      if q.other.Data? {
        RespondLevels(l, q.m, Unbound, q.other.data);
      }
    } else {
      QueriesLevels(l, q.m);
      SessionsLevels(l, q.m);
      if CloseSession(l, q.m).Done? {
        CloseLevels(l, q.m);
      }
      OpenLevels(l, q.m, q.rnd, i);
      var v := SidToSession(l.sessions, q.m.session.sid);
      if q.m.message.cmd == SET_SESSION_PRIVILEGE_CMD && q.m.dataLen >= 1 && v.Slot? {
        PrivilegeSet(l, q, v.i);
      }
    }
  }

  /** The levels granted to session i over a run, in order. */
  function Granted(l: Lan, reqs: seq<Request>, i: nat): seq<u8>
    requires Shape(l) && AllReadable(reqs) && i < MAX_SESSIONS + 1
    decreases |reqs|
  {
    if reqs == [] || Halts(l, reqs[0]) then []
    else (if Grants(l, reqs[0], i) then [Asked(reqs[0].m)] else []) + Granted(Next(l, reqs[0]), reqs[1..], i)
  }

  function Last(vs: seq<u8>, otherwise: u8): u8 {
    if vs == [] then otherwise else vs[|vs| - 1]
  }

  lemma {:induction false} LevelOverRun(l: Lan, reqs: seq<Request>, i: nat)
    requires Inv(l) && AllBounded(l) && AllReadable(reqs) && StaysActive(l, reqs, i)
    ensures i < |Run(l, reqs).sessions| && Run(l, reqs).sessions[i].priv == Last(Granted(l, reqs, i), l.sessions[i].priv)
    decreases |reqs|
  {
    hide Next, Halts, SlotOk, Count, Bounded, Grants;
    if reqs != [] && !Halts(l, reqs[0]) {
      NextKeepsInv(l, reqs[0]);
      NextBounded(l, reqs[0]);
      NextLevel(l, reqs[0], i);
      LevelOverRun(Next(l, reqs[0]), reqs[1..], i);
    }
  }

  /** From start-up: for as long as a session lasts, its level is the last one it was granted
      since its activation q, or the user level if none was. */
  lemma LevelIsGranted(before: seq<Request>, q: Request, after: seq<Request>, i: nat)
    requires AllReadable(before) && Readable(q.m) && AllReadable(after) && i <= MAX_SESSIONS
    requires var l := Run(Initial(InitUsers(), 1, PRIVILEGE_ADMIN), before);
             !l.sessions[i].active && StaysActive(Next(l, q), after, i)
    ensures var l1 := Next(Run(Initial(InitUsers(), 1, PRIVILEGE_ADMIN), before), q);
            Run(l1, after).sessions[i].priv == Last(Granted(l1, after, i), PRIVILEGE_USER)
  {
    hide Run, Next, Initial, SlotOk, Count, AllBounded, StaysActive, Granted, IssuedSid, Un32;
    var l0 := Initial(InitUsers(), 1, PRIVILEGE_ADMIN);
    StartsBounded();
    RunBounded(l0, before);
    RunKeepsInv(l0, before);
    var l := Run(l0, before);
    ActiveNow(Next(l, q), after, i);
    Opening(l, q, i);
    NextKeepsInv(l, q);
    NextBounded(l, q);
    LevelOverRun(Next(l, q), after, i);
  }

  // ---------- activation ----------

  /** The guards of an activation under a temporary id, in the user's and the message's terms. */
  predicate MayOpen(l: Lan, m: Msg)
    requires Shape(l) && Readable(m)
  {
    var u := m.session.sid / 2 % 64;
    && u != 0 && l.users[u].valid
    && HasBit(l.users[u].allowedAuths, Arg(m, 0) % 16) && HasBit(l.users[u].allowedAuths, m.session.authType)
    && l.activeSessions < MAX_SESSIONS && Un32(Args(m, 18, 22)) != 0
    && l.users[u].privilege != 0xf && Arg(m, 1) % 16 <= l.users[u].maxPriv
  }

  /** The session it opens. */
  predicate OpensAs(l: Lan, q: Request, i: nat, s: Session)
    requires Shape(l) && Readable(q.m) && i < |l.sessions|
  {
    var u := q.m.session.sid / 2 % 64;
    && s.active && !s.rmcpplus && s.handle == l.sessions[i].handle && s.sid == IssuedSid(UsedSeq(l.sidSeq), i)
    && s.userid == l.users[u].idx && s.authtype == Arg(q.m, 0) % 16 && s.maxPriv == Arg(q.m, 1) % 16
    && s.priv == PRIVILEGE_USER && s.xmitSeq == Un32(Args(q.m, 18, 22)) && s.timeLeft == l.defaultSessionTimeout
    && s.recvSeq % 2 == 0 && (if q.rnd >= 2 then q.rnd - 1 <= s.recvSeq <= q.rnd else s.recvSeq == 2)
  }

  /** Exactly under these guards an activation opens a session, in the first free slot, and is
      answered under the temporary id with the fields of that session; a number of zero and a
      limit beyond the user's are answered with their codes once the guards before them hold;
      otherwise there is no answer, and nothing changes. */
  lemma ActivationOpens(l: Lan, q: Request)
    requires Inv(l) && IsCommand(q, ACTIVATE_SESSION_CMD) && q.m.dataLen >= 22 && q.m.session.sid % 2 == 1
    ensures (exists i :: 0 <= i < |l.sessions| && !l.sessions[i].active && Next(l, q).sessions[i].active) <==> MayOpen(l, q.m)
    ensures MayOpen(l, q.m) ==>
              var i := FreeFrom(l.sessions, 1);
              && i <= MAX_SESSIONS && OpensAs(l, q, i, Next(l, q).sessions[i])
              && Next(l, q) == l.(sessions := l.sessions[i := Next(l, q).sessions[i]], activeSessions := l.activeSessions + 1,
                                  sidSeq := (UsedSeq(l.sidSeq) + 1) % 0x1_0000_0000)
              && var s := Next(l, q).sessions[i];
                 Answered(l, q, Replying(q.m), [0, s.authtype] + Le32(s.sid) + Le32(s.recvSeq) + [s.maxPriv])
    ensures !MayOpen(l, q.m) ==>
              && Next(l, q) == l
              && var u := q.m.session.sid / 2 % 64;
                 if u != 0 && l.users[u].valid && HasBit(l.users[u].allowedAuths, Arg(q.m, 0) % 16)
                    && HasBit(l.users[u].allowedAuths, q.m.session.authType) && l.activeSessions < MAX_SESSIONS
                 then Answered(l, q, Replying(q.m), [if Un32(Args(q.m, 18, 22)) == 0 then 0x85 else 0x86])
                 else Served(l, q) == Done(Result(l, []))
  {
    hide Packet, Un32, Le32, HasBit, IssuedSid;
    FreeSlotIffBelowLimit(l);
    if MayOpen(l, q.m) {
      var i := FreeFrom(l.sessions, 1);
      assert SlotOk(l.sessions[i], i);
    }
  }

  /** The guards in values, for the configured users: the nameless user with types 0 and 4 up to
      the user level, "ipmiusr" with type 0 up to administrator. */
  lemma MayOpenConfigured(l: Lan, m: Msg)
    requires Shape(l) && Readable(m) && l.users == InitUsers()
    ensures var u, t, level := m.session.sid / 2 % 64, Arg(m, 0) % 16, Arg(m, 1) % 16;
            MayOpen(l, m) <==>
              && l.activeSessions < 16 && Un32(Args(m, 18, 22)) != 0
              && ((u == 1 && t in {0, 4} && m.session.authType in {0, 4} && level <= 2)
                  || (u == 2 && t == 0 && m.session.authType == 0 && level <= 4))
  {
    hide HasBit, Un32;
    TypeBits(Arg(m, 0) % 16);
    TypeBits(m.session.authType);
  }

  /** The first ids after start-up: "ipmiusr" is challenged under 5, and the first session opened
      is number 130 on slot 1, due to last 30 seconds. */
  lemma FirstIds(q: Request)
    requires IsCommand(q, ACTIVATE_SESSION_CMD) && q.m.dataLen >= 22 && q.m.session.sid % 2 == 1
    ensures var l := Initial(InitUsers(), 1, PRIVILEGE_ADMIN);
            && TempSid(l.nextChallSeq, 2) == 5 && Inv(l)
            && (MayOpen(l, q.m) ==>
                  && Next(l, q).sessions[1].active && Next(l, q).sessions[1].sid == 130 && Next(l, q).sessions[1].timeLeft == 30
                  && Next(l, q).activeSessions == 1 && UsedSeq(Next(l, q).sidSeq) == 2)
  {
    hide TempSid, IssuedSid, Next, MayOpen, InitUsers, Count, SlotOk, Packet, Le32, ActivationData, Answered, Served, IsCommand, Un32;
    var l := Initial(InitUsers(), 1, PRIVILEGE_ADMIN);
    StartsBounded();
    CommandReadable(q, ACTIVATE_SESSION_CMD);
    ActivationOpens(l, q);
    TempSidBelow(0, 2);
    IssuedSidValue(1, 1);
    assert !l.sessions[1].active;
  }

  /** Re-activation under an open session's id installs the number at absolute bytes 18 to 21,
      answers under it with the session's fields, and moves on by one; nothing else changes.
      Under an id that resolves to nothing it does nothing. */
  lemma Reactivation(l: Lan, q: Request)
    requires Inv(l) && IsCommand(q, ACTIVATE_SESSION_CMD) && q.m.session.sid % 2 == 0 && q.m.dataLen >= 22
    ensures match SidToSession(l.sessions, q.m.session.sid)
            case Slot(i) =>
              var s := l.sessions[i].(xmitSeq := Un32(q.m.data[18..22]));
              && Next(l, q) == l.(sessions := l.sessions[i := Advanced(s)])
              && Answered(l, q, s, [0, s.authtype] + Le32(s.sid) + Le32(s.recvSeq) + [s.maxPriv])
            case _ => Served(l, q) == Done(Result(l, []))
  {
    hide Packet, Un32, Le32;
    var v := SidToSession(l.sessions, q.m.session.sid);
    if v.Slot? {
      var s := l.sessions[v.i].(xmitSeq := Un32(q.m.data[18..22]));
      var l1 := l.(sessions := l.sessions[v.i := s]);
      EffectKeepsInv(l, l1, Kept);
      OnSlot(l1, q.m, v.i, [0, s.authtype] + Le32(s.sid) + Le32(s.recvSeq) + [s.maxPriv]);
      assert l1.sessions[v.i := Advanced(s)] == l.sessions[v.i := Advanced(s)];
    }
  }

  /** Requests below the lengths asked for, which compare the whole datagram's length: an
      activation is ignored, the two others are answered with the length code, but no datagram
      served is that short for those.  A privilege request under an id that resolves to nothing
      is ignored. */
  lemma ShortRequests(l: Lan, q: Request)
    requires Inv(l) && Readable(q.m) && q.m.message.netfn == APP_NETFN
    ensures IsCommand(q, ACTIVATE_SESSION_CMD) && q.m.dataLen < 22 ==> Served(l, q) == Done(Result(l, []))
    ensures (IsCommand(q, CLOSE_SESSION_CMD) && q.m.dataLen < 4) || (IsCommand(q, SET_SESSION_PRIVILEGE_CMD) && q.m.dataLen < 1) ==>
              Served(l, q) == Done(Respond(l, q.m, Unbound, [0xC7]))
    ensures IsCommand(q, SET_SESSION_PRIVILEGE_CMD) && q.m.dataLen >= 1 && SidToSession(l.sessions, q.m.session.sid).Unbound? ==>
              Served(l, q) == Done(Result(l, []))
    ensures FromWire(q.m) ==> q.m.dataLen >= 5
  {
    hide Packet, Un32;
  }

  /** What the reply to an activation travels on: the temporary id, the message's type and the
      number asked for. */
  function Replying(m: Msg): Session
    requires Readable(m)
  {
    BLANK.(active := true, authtype := m.session.authType, xmitSeq := Un32(Args(m, 18, 22)), sid := m.session.sid)
  }

  // ---------- challenge and capabilities ----------

  /** User u is the first with this name. */
  predicate Named(us: seq<User>, name: seq<u8>, u: nat) {
    && 1 <= u < |us| && us[u].username == name
    && forall k :: 1 <= k < u ==> us[k].username != name
  }

  /** A temporary id is issued exactly to a known user, for a type that user may use, while
      there is room; it carries the challenge number and the user.  Refusals are answered in
      the order of those tests, and outside a session only type zero is served at all. */
  lemma ChallengeIssued(l: Lan, q: Request)
    requires Inv(l) && IsCommand(q, GET_SESSION_CHALLENGE_CMD)
    ensures var t, name := Arg(q.m, 0) % 16, Args(q.m, 1, 17);
            if q.m.session.sid == 0 && q.m.session.authType != AUTHTYPE_NONE then Served(l, q) == Done(Result(l, []))
            else if forall u :: 1 <= u <= MAX_USERS ==> l.users[u].username != name then
              Served(l, q) == Done(Respond(l, q.m, Unbound, [if name == Zeros(16) then 0x82 else 0x81]))
            else
              exists u: nat :: Named(l.users, name, u) &&
                if !HasBit(l.users[u].allowedAuths, t) then Served(l, q) == Done(Respond(l, q.m, Unbound, [INVALID_DATA_FIELD_CC]))
                else if l.activeSessions == MAX_SESSIONS then Served(l, q) == Done(Respond(l, q.m, Unbound, [OUT_OF_SPACE_CC]))
                else
                  Served(l, q) == Done(Respond(l.(nextChallSeq := (l.nextChallSeq + 1) % 0x1_0000_0000), q.m, Unbound,
                                               [0] + Le32(TempSid(l.nextChallSeq, l.users[u].idx)) + CHALLENGE))
  {
    hide Respond, TempSid, Le32, HasBit, SlotOk, Count;
    FreeSlotIffBelowLimit(l);
    var u := UserFrom(l.users, 1, Args(q.m, 1, 17), true, Arg(q.m, 0) % 16);
    if u <= MAX_USERS {
      assert Named(l.users, Args(q.m, 1, 17), u);
    }
  }

  /** In values, for the configured users: "ipmiusr" with type 0, and the nameless user with
      types 0 and 4; any other name is unknown, and no name is ever answered 0x82. */
  lemma ChallengeConfigured(l: Lan, q: Request)
    requires Inv(l) && l.users == InitUsers() && IsCommand(q, GET_SESSION_CHALLENGE_CMD)
    requires q.m.session.sid != 0 || q.m.session.authType == AUTHTYPE_NONE
    ensures var t, name := Arg(q.m, 0) % 16, Args(q.m, 1, 17);
            var u := if name == Padded(IPMIUSR) then 2 else 1;
            if name != Padded(IPMIUSR) && name != Zeros(16) then Served(l, q) == Done(Respond(l, q.m, Unbound, [0x81]))
            else if t != 0 && !(u == 1 && t == 4) then Served(l, q) == Done(Respond(l, q.m, Unbound, [INVALID_DATA_FIELD_CC]))
            else if l.activeSessions == MAX_SESSIONS then Served(l, q) == Done(Respond(l, q.m, Unbound, [OUT_OF_SPACE_CC]))
            else
              Served(l, q) == Done(Respond(l.(nextChallSeq := (l.nextChallSeq + 1) % 0x1_0000_0000), q.m, Unbound,
                                           [0] + Le32(TempSid(l.nextChallSeq, u))
                                           + [0, 1, 2, 3, 4, 5, 6, 7, 8, 9, 10, 11, 12, 13, 14, 15]))
  {
    hide Respond, TempSid, Le32, HasBit, Served;
    ChallengeIssued(l, q);
    var us, name := l.users, Args(q.m, 1, 17);
    assert Padded(IPMIUSR)[0] == 0x69 && Zeros(16)[0] == 0;
    assert us[1].username == Zeros(16) && us[2].username == Padded(IPMIUSR);
    TypeBits(Arg(q.m, 0) % 16);
    assert forall u :: 3 <= u <= MAX_USERS ==> us[u].username == [];
  }

  /** For the configured channel 1 limited to administrator: capabilities are given for "this
      channel" or channel 1 and a level up to administrator, refused otherwise, and not given
      where extended data is asked for or a type is used outside a session. */
  lemma CapabilitiesGiven(l: Lan, q: Request)
    requires Inv(l) && l.chanNum == 1 && l.chanPrivLimit == PRIVILEGE_ADMIN && IsCommand(q, GET_CHANNEL_AUTH_CAPABILITIES_CMD)
    ensures var channel, level := Arg(q.m, 0), Arg(q.m, 1) % 16;
            if channel >= 0x80 || (q.m.session.sid == 0 && q.m.session.authType != AUTHTYPE_NONE) then Served(l, q) == Done(Result(l, []))
            else if channel % 16 in {1, 14} && level <= 4 then
              Served(l, q) == Done(Respond(l, q.m, Unbound, [0, 1, 0x17, 0x06, 0, 0, 0, 0, 0]))
            else Served(l, q) == Done(Respond(l, q.m, Unbound, [0xCC]))
  {
    hide Respond;
  }
}
