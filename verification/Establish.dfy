/** Session establishment over a network that fails and loses, at a server that serves other
    clients in between: the walk of the state table as a function, and what comes of it. */
module Establish {
  import opened Bits
  import opened Codes
  import opened Wire
  import opened Sessions
  import opened SessionInvariant
  import opened SessionPrivilege
  import opened SessionCommands
  import opened Client
  import opened Handshake

  /** What the client needs on entering state k: a temporary id of "ipmiusr" for the
      activation, and afterwards the limit it asked for. */
  predicate Fits(l: Lan, c: Ctx, k: nat, q: u32) {
    && Inv(l) && Configured(l) && |c.challengeStr| == 16
    && (k == 2 ==> c.tempSessionId == TempSid(q, 2)) && (k >= 3 ==> c.maxPrivLevel == PRIVILEGE_OPERATOR)
  }

  /** How a server in state l meets the request of state k: a full table refuses the challenge
      and ignores the activation; the last request is ignored once the session is closed, and
      refused should its id have come to name a session the client could not use. */
  function MeetState(l: Lan, c: Ctx, k: nat): Server
    requires Shape(l)
  {
    var v := SidToSession(l.sessions, c.sessionId);
    if k == 1 then (if l.activeSessions < MAX_SESSIONS then Answers else Refuses)
    else if k == 2 then (if l.activeSessions < MAX_SESSIONS then Answers else AnswersFirst(0))
    else if k == 3 then
      if v.Unbound? then AnswersFirst(0)
      else if l.sessions[v.i].authtype != AUTHTYPE_NONE || l.sessions[v.i].maxPriv < PRIVILEGE_OPERATOR then Refuses
      else Answers
    else Answers
  }

  // ---------- the refusals of the last state ----------

  /** A closed session's privilege request is not answered. */
  lemma SetPrivClosed(l: Lan, c: Ctx, rnd: u32)
    requires Inv(l) && |c.challengeStr| == 16 && SidToSession(l.sessions, c.sessionId).Unbound?
    ensures IsAppRequest(RequestMsg(c, SetPriv)) && Step(l, Arrived(RequestMsg(c, SetPriv)), rnd) == Done(Result(l, []))
  {
    hide RequestMsg, Arrived, IsAppRequest, Respond, SidToSession;
    RequestDelivered(c, SetPriv);
  }

  /** A packet with an auth code has a zero where the reply length would be, so no state
      accepts it. */
  lemma AuthNotAccepted(m: Msg, s: Session, data: seq<u8>, st: State)
    requires s.authtype != AUTHTYPE_NONE && |data| <= 60
    ensures |Packet(m, s, data)| <= MAX_MSG_RETURN_DATA && !Accepts(st, ReplyBuffer(Packet(m, s, data)))
  {
    hide Le32, Pack;
    var pkt := Packet(m, s, data);
    var h := ResponseHead(m, s.authtype, s.xmitSeq, s.sid, |data|);
    assert pkt[13] == SessionHeader(h)[13] == 0;
  }

  /** On a session with auth codes, or limited below the level asked for, the server answers
      with an auth code or an error. */
  lemma RefusesSetPriv(l: Lan, m: Msg, i: nat) returns (s: Session, data: seq<u8>)
    requires Inv(l) && i < |l.sessions| && Carries(m, SET_SESSION_PRIVILEGE_CMD, l.sessions[i].sid, [PRIVILEGE_OPERATOR])
    requires SidToSession(l.sessions, l.sessions[i].sid) == Slot(i)
    requires l.sessions[i].authtype != AUTHTYPE_NONE || l.sessions[i].maxPriv < PRIVILEGE_OPERATOR
    ensures SetSessionPrivilege(l, m).sent == [Packet(m, s, data)] && |data| <= 60
    ensures s.authtype != AUTHTYPE_NONE || data == [0x81]
  {
    hide Packet, Respond, SlotOk, Count;
    CarriedByte(m, SET_SESSION_PRIVILEGE_CMD, l.sessions[i].sid, [PRIVILEGE_OPERATOR], 0);
    s := l.sessions[i];
    if s.maxPriv < PRIVILEGE_OPERATOR {
      data := [0x81];
      OnSlot(l, m, i, data);
    } else {
      data := [0, PRIVILEGE_OPERATOR];
      s := s.(priv := PRIVILEGE_OPERATOR);
      var l1 := l.(sessions := l.sessions[i := s]);
      EffectKeepsInv(l, l1, Kept);
      OnSlot(l1, m, i, data);
    }
  }

  /** Such a reply is not acceptable. */
  lemma SetPrivRefused(l: Lan, c: Ctx, i: nat, rnd: u32) returns (r: Result)
    requires Inv(l) && |c.challengeStr| == 16 && c.maxPrivLevel == PRIVILEGE_OPERATOR
    requires SidToSession(l.sessions, c.sessionId) == Slot(i)
    requires l.sessions[i].authtype != AUTHTYPE_NONE || l.sessions[i].maxPriv < PRIVILEGE_OPERATOR
    ensures Serves(l, RequestMsg(c, SetPriv), rnd, r) && Inv(r.lan) && SameConfig(l, r.lan)
    ensures |r.sent| == 1 && !Accepts(SetPriv, ReplyBuffer(r.sent[0]))
  {
    hide RequestMsg, Arrived, IsAppRequest, Packet, ReplyBuffer, Accepts, Carries, SetSessionPrivilege, SlotOk, Count;
    RequestDelivered(c, SetPriv);
    var m := Arrived(RequestMsg(c, SetPriv));
    CarriesCommand(m, SET_SESSION_PRIVILEGE_CMD, c.sessionId, [PRIVILEGE_OPERATOR]);
    var s, data := RefusesSetPriv(l, m, i);
    r := SetSessionPrivilege(l, m);
    SetSessionPrivilegeEffect(l, m);
    EffectKeepsInv(l, r.lan, Kept);
    if s.authtype != AUTHTYPE_NONE {
      AuthNotAccepted(m, s, data, SetPriv);
    } else {
      ErrorNotAccepted(m, s, 0x81, SetPriv);
    }
  }

  /** A one-byte reply is accepted in no state: none expects that length. */
  lemma ErrorNotAccepted(m: Msg, s: Session, code: u8, st: State)
    ensures |Packet(m, s, [code])| <= MAX_MSG_RETURN_DATA && !Accepts(st, ReplyBuffer(Packet(m, s, [code])))
  {
    hide Packet, ReplyBuffer;
    if s.authtype != AUTHTYPE_NONE {
      AuthNotAccepted(m, s, [code], st);
    } else {
      Returned(m, s, [code]);
    }
  }

  // ---------- one arrival ----------

  /** The client's session is slot i of the server, usable to it. */
  predicate Usable(l: Lan, c: Ctx, i: nat)
    requires Shape(l)
  {
    && SidToSession(l.sessions, c.sessionId) == Slot(i) && c.maxPrivLevel == PRIVILEGE_OPERATOR
    && l.sessions[i].authtype == AUTHTYPE_NONE && PRIVILEGE_OPERATOR <= l.sessions[i].maxPriv
  }

  /** What one arrival of state k's request comes to, whatever the server did before: it is
      met as `MeetState` says, and where it is answered acceptably the client fits the next
      state.  An activation takes a slot that was free and leaves every open session alone;
      the last request raises the client's session. */
  lemma Meets(l: Lan, c: Ctx, k: nat, q: u32, rnd: u32) returns (r: Result, c': Ctx, q': u32, i: nat)
    requires k < 4 && Fits(l, c, k, q)
    ensures Serves(l, RequestMsg(c, StateAt(k)), rnd, r) && Inv(r.lan) && SameConfig(l, r.lan)
    ensures r.sent == [] <==> MeetState(l, c, k).AnswersFirst?
    ensures r.sent != [] ==>
              var d := ReplyBuffer(r.sent[|r.sent| - 1]);
              && (Accepts(StateAt(k), d) <==> MeetState(l, c, k).Answers?)
              && (Accepts(StateAt(k), d) ==> c' == Parsed(Built(c, StateAt(k)), StateAt(k), d) && Fits(r.lan, c', k + 1, q'))
    ensures k == 2 && r.sent != [] ==>
              && i <= MAX_SESSIONS && !l.sessions[i].active && Usable(r.lan, c', i)
              && r.lan.sessions[i].maxPriv == PRIVILEGE_OPERATOR && c'.sessionSeq == r.lan.sessions[i].recvSeq < 0xFFFF_FFFF
              && forall b :: 0 <= b < |l.sessions| && l.sessions[b].active ==>
                   r.lan.sessions[b] == l.sessions[b] && c'.sessionId != l.sessions[b].sid
    ensures k == 3 && MeetState(l, c, k).Answers? ==>
              && Usable(l, c, i) && Usable(r.lan, c', i) && SameIdentity(l.sessions[i], r.lan.sessions[i])
              && r.lan.sessions[i].priv == c'.privLevel == PRIVILEGE_OPERATOR
              && c'.sessionSeq == (c.sessionSeq + 1) % 0x1_0000_0000 && c'.sessionId == c.sessionId
  {
    hide RequestMsg, Arrived, IsAppRequest, Step, Accepts, Parsed, Built, ReplyBuffer, TempSid, Succeeds;
    c', q', i := c, q, 0;
    FreeSlotIffBelowLimit(l);
    if k == 0 {
      AuthCapSucceeds(l, c, rnd);
      c' := Built(c, AuthCap);
      r := SuccessServes(l, c, AuthCap, rnd, l, c');
      BuiltKeeps(c, AuthCap);
    } else if k == 1 {
      r, c', q' := MeetsChallenge(l, c, rnd);
    } else if k == 2 {
      r, c', i := MeetsActivate(l, c, q, rnd);
    } else {
      r, c', i := MeetsSetPriv(l, c, rnd);
    }
  }

  lemma BuiltKeeps(c: Ctx, st: State)
    ensures Built(c, st) == c.(rqSeq := Built(c, st).rqSeq, sessionSeq := Built(c, st).sessionSeq)
    ensures Built(c, st).sessionSeq == if st.SetPriv? then (c.sessionSeq + 1) % 0x1_0000_0000 else c.sessionSeq
  {
  }

  lemma MeetsChallenge(l: Lan, c: Ctx, rnd: u32) returns (r: Result, c': Ctx, q': u32)
    requires Inv(l) && Configured(l) && |c.challengeStr| == 16 && l.activeSessions <= MAX_SESSIONS
    ensures Serves(l, RequestMsg(c, Challenge), rnd, r) && Inv(r.lan) && SameConfig(l, r.lan) && |r.sent| == 1
    ensures Accepts(Challenge, ReplyBuffer(r.sent[0])) <==> l.activeSessions < MAX_SESSIONS
    ensures l.activeSessions < MAX_SESSIONS ==>
              && c' == Parsed(Built(c, Challenge), Challenge, ReplyBuffer(r.sent[0]))
              && |c'.challengeStr| == 16 && c'.tempSessionId == TempSid(q', 2)
  {
    hide RequestMsg, Arrived, IsAppRequest, Step, Accepts, Parsed, Built, ReplyBuffer, TempSid, Succeeds;
    c', q' := c, l.nextChallSeq;
    if l.activeSessions < MAX_SESSIONS {
      ChallengeSucceeds(l, c, rnd);
      c' := Built(c, Challenge).(tempSessionId := TempSid(l.nextChallSeq, 2), challengeStr := CHALLENGE);
      r := SuccessServes(l, c, Challenge, rnd, Challenged(l), c');
    } else {
      var pkt := ChallengeFull(l, c, rnd);
      r := Result(l, [pkt]);
    }
  }

  lemma MeetsActivate(l: Lan, c: Ctx, q: u32, rnd: u32) returns (r: Result, c': Ctx, i: nat)
    requires Inv(l) && Configured(l) && |c.challengeStr| == 16 && l.activeSessions <= MAX_SESSIONS && c.tempSessionId == TempSid(q, 2)
    ensures Serves(l, RequestMsg(c, Activate), rnd, r) && Inv(r.lan) && SameConfig(l, r.lan)
    ensures r.sent == [] <==> l.activeSessions == MAX_SESSIONS
    ensures r.sent != [] ==>
              && Accepts(Activate, ReplyBuffer(r.sent[|r.sent| - 1]))
              && c' == Parsed(Built(c, Activate), Activate, ReplyBuffer(r.sent[|r.sent| - 1])) && |c'.challengeStr| == 16
              && i <= MAX_SESSIONS && !l.sessions[i].active && Usable(r.lan, c', i)
              && r.lan.sessions[i].maxPriv == PRIVILEGE_OPERATOR && c'.sessionSeq == r.lan.sessions[i].recvSeq < 0xFFFF_FFFF
              && forall b :: 0 <= b < |l.sessions| && l.sessions[b].active ==>
                   r.lan.sessions[b] == l.sessions[b] && c'.sessionId != l.sessions[b].sid
  {
    hide RequestMsg, Arrived, IsAppRequest, Step, Accepts, Parsed, ReplyBuffer, TempSid, Succeeds, OpenedSlot, IssuedSid;
    c', i := c, FreeFrom(l.sessions, 1);
    if l.activeSessions < MAX_SESSIONS {
      var s, l' := OpenedSlot(l, rnd), AfterOpen(l, rnd);
      ActivateSucceeds(l, c, q, rnd);
      c' := Built(c, Activate).(sessionId := s.sid, sessionSeq := s.recvSeq, maxPrivLevel := PRIVILEGE_OPERATOR);
      r := SuccessServes(l, c, Activate, rnd, l', c');
      AfterOpenInv(l, rnd);
      OpenedSlotFields(l, rnd);
      SidResolves(l', i);
      BuiltKeeps(c, Activate);
    } else {
      ActivateFull(l, c, q, rnd);
      r := Result(l, []);
    }
  }

  lemma MeetsSetPriv(l: Lan, c: Ctx, rnd: u32) returns (r: Result, c': Ctx, i: nat)
    requires Inv(l) && Configured(l) && |c.challengeStr| == 16 && c.maxPrivLevel == PRIVILEGE_OPERATOR
    ensures Serves(l, RequestMsg(c, SetPriv), rnd, r) && Inv(r.lan) && SameConfig(l, r.lan)
    ensures r.sent == [] <==> MeetState(l, c, 3).AnswersFirst?
    ensures r.sent != [] ==> (Accepts(SetPriv, ReplyBuffer(r.sent[|r.sent| - 1])) <==> MeetState(l, c, 3).Answers?)
    ensures MeetState(l, c, 3).Answers? ==>
              && c' == Parsed(Built(c, SetPriv), SetPriv, ReplyBuffer(r.sent[|r.sent| - 1])) && |c'.challengeStr| == 16
              && Usable(l, c, i) && Usable(r.lan, c', i) && SameIdentity(l.sessions[i], r.lan.sessions[i])
              && r.lan.sessions[i].priv == c'.privLevel == PRIVILEGE_OPERATOR
              && c'.sessionSeq == (c.sessionSeq + 1) % 0x1_0000_0000 && c'.sessionId == c.sessionId
  {
    hide RequestMsg, Arrived, IsAppRequest, Step, Accepts, Parsed, Built, ReplyBuffer, Succeeds;
    var v := SidToSession(l.sessions, c.sessionId);
    c', i := c, 0;
    if v.Unbound? {
      SetPrivClosed(l, c, rnd);
      r := Result(l, []);
    } else if MeetState(l, c, 3).Refuses? {
      r := SetPrivRefused(l, c, v.i, rnd);
    } else {
      i := v.i;
      var s := Advanced(l.sessions[i].(priv := PRIVILEGE_OPERATOR));
      var l' := l.(sessions := l.sessions[i := s]);
      SetPrivSucceeds(l, c, i, rnd);
      BuiltKeeps(c, SetPriv);
      c' := Built(c, SetPriv).(privLevel := PRIVILEGE_OPERATOR);
      r := SuccessServes(l, c, SetPriv, rnd, l', c');
      EffectKeepsInv(l, l', Kept);
      SidResolves(l', i);
    }
  }

  // ---------- the walk ----------

  /** One try: what the server serves for other clients before the request could arrive, and
      what the try meets. */
  datatype Try = Try(others: seq<Request>, fate: Fate)

  predicate AllServable(tries: seq<Try>) {
    forall j :: 0 <= j < |tries| ==> AllReadable(tries[j].others)
  }

  function FatesOf(tries: seq<Try>): (fs: seq<Fate>)
    ensures |fs| == |tries|
  {
    seq(|tries|, j requires 0 <= j < |tries| => tries[j].fate)
  }

  /** What the server does with a packet that arrives. */
  function Handled(l: Lan, pkt: seq<u8>, rnd: u32): (r: Result)
    requires Shape(l) && |pkt| <= MSG_BUFFER
    ensures Shape(r.lan)
  {
    var q := SessionInvariant.Request(Arrived(pkt), rnd, Silence);
    ServedKeepsShape(l, q);
    if Served(l, q).Done? then Served(l, q).r else Result(l, [])
  }

  /** The reply to be read, if there is one. */
  function ReplyOf(r: Result): (d: Option<seq<u8>>)
    ensures d.Some? ==> |d.value| == MAX_MSG_RETURN_DATA
  {
    if r.sent == [] || |r.sent[|r.sent| - 1]| > MAX_MSG_RETURN_DATA then None else Some(ReplyBuffer(r.sent[|r.sent| - 1]))
  }

  /** Both ends at some point of the walk. */
  datatype Where = Where(end: End, lan: Lan, ctx: Ctx)

  /** The server after one try of state k that meets f. */
  function AfterTry(l: Lan, c: Ctx, k: nat, f: Fate, rnd: u32): (l': Lan)
    requires Shape(l) && |c.challengeStr| == 16 && k < 4
    ensures Shape(l')
  {
    if Reaches(f) then Handled(l, RequestMsg(c, StateAt(k)), rnd).lan else l
  }

  /** The retry loop of state k: the request is built once; a server stopped by another
      client's request answers nothing any more. */
  function StateLoop(l: Lan, c: Ctx, k: nat, tries: seq<Try>, rnd: u32): (w: Where)
    requires Shape(l) && |c.challengeStr| == 16 && k < 4 && AllServable(tries)
    ensures Shape(w.lan)
    decreases |tries|
  {
    var st := StateAt(k);
    if tries == [] then Where(GaveUp, l, Built(c, st))
    else
      var l1, f := Run(l, tries[0].others), tries[0].fate;
      var d := ReplyOf(Handled(l1, RequestMsg(c, st), rnd));
      var l2 := AfterTry(l1, c, k, f, rnd);
      if Stopped(l, tries[0].others) then Where(Verdict(AnswersFirst(0), 0, FatesOf(tries)), l1, Built(c, st))
      else if f.Silent? || (f.Delivered? && d.None?) then Where(Blocked, l2, Built(c, st))
      else if f.Delivered? && Accepts(st, d.value) then Where(Accepted, l2, Parsed(Built(c, st), st, d.value))
      else StateLoop(l2, c, k, tries[1..], rnd)
  }

  predicate AllStates(tries: seq<seq<Try>>) {
    |tries| == 4 && forall k :: 0 <= k < 4 ==> AllServable(tries[k])
  }

  /** Both ends after the first k states, or where the walk ended before. */
  function Reached(l: Lan, c: Ctx, tries: seq<seq<Try>>, rnd: u32, k: nat): (w: Where)
    requires Shape(l) && AllStates(tries) && k <= 4
    ensures Shape(w.lan)
  {
    if k == 0 then Where(Accepted, l, c)
    else
      var w := Reached(l, c, tries, rnd, k - 1);
      if w.end.Accepted? && |w.ctx.challengeStr| == 16 then StateLoop(w.lan, w.ctx, k - 1, tries[k - 1], rnd) else w
  }

  // ---------- one state's loop ----------

  /** The state in which try j finds the server, if it is reached and the server is still up. */
  function Found(l: Lan, c: Ctx, k: nat, tries: seq<Try>, rnd: u32, j: nat): (o: Option<Lan>)
    requires Shape(l) && |c.challengeStr| == 16 && k < 4 && AllServable(tries) && j < |tries|
    ensures o.Some? ==> Shape(o.value)
    decreases j
  {
    var l1 := Run(l, tries[0].others);
    if Stopped(l, tries[0].others) then None
    else if j == 0 then Some(l1)
    else Found(AfterTry(l1, c, k, tries[0].fate, rnd), c, k, tries[1..], rnd, j - 1)
  }

  /** How try j goes: none for an error, an unacceptable datagram or a refusal, which are
      retried; done when it is delivered to a server that answers it acceptably in the state it
      finds; blocked by silence, the server's or the network's. */
  function Going(l: Lan, c: Ctx, k: nat, tries: seq<Try>, rnd: u32, j: nat): Option<End>
    requires Shape(l) && |c.challengeStr| == 16 && k < 4 && AllServable(tries) && j < |tries|
  {
    var o := Found(l, c, k, tries, rnd, j);
    match tries[j].fate
    case Failed(_) => None
    case Garbled(_, _) => None
    case Silent(_) => Some(Blocked)
    case Delivered =>
      if o.None? then Some(Blocked)
      else
        match MeetState(o.value, c, k)
        case Answers => Some(Accepted)
        case Refuses => None
        case AnswersFirst(_) => Some(Blocked)
  }

  function AllGoing(l: Lan, c: Ctx, k: nat, tries: seq<Try>, rnd: u32): (gs: seq<Option<End>>)
    requires Shape(l) && |c.challengeStr| == 16 && k < 4 && AllServable(tries)
    ensures |gs| == |tries|
  {
    seq(|tries|, j requires 0 <= j < |tries| => Going(l, c, k, tries, rnd, j))
  }

  /** The first end there is, or giving up. */
  function FirstEnd(gs: seq<Option<End>>): End {
    if gs == [] then GaveUp else if gs[0].Some? then gs[0].value else FirstEnd(gs[1..])
  }

  /** It is an end that comes before any other. */
  lemma {:induction false} FirstEndIs(gs: seq<Option<End>>, e: End)
    requires e != GaveUp
    ensures FirstEnd(gs) == e <==> exists j :: 0 <= j < |gs| && gs[j] == Some(e) && forall i :: 0 <= i < j ==> gs[i].None?
    decreases |gs|
  {
    if gs != [] {
      FirstEndIs(gs[1..], e);
      assert forall j :: 0 <= j < |gs| - 1 ==> gs[1..][j] == gs[j + 1];
    }
  }

  /** The activation that was answered took a slot that was free in l1 and left the sessions
      that were open there alone; the client holds the new one. */
  predicate Opened(l1: Lan, l2: Lan, c': Ctx, i: nat)
    requires Shape(l1) && Shape(l2)
  {
    && i <= MAX_SESSIONS && !l1.sessions[i].active && Usable(l2, c', i)
    && l2.sessions[i].maxPriv == PRIVILEGE_OPERATOR && c'.sessionSeq == l2.sessions[i].recvSeq < 0xFFFF_FFFF
    && forall b :: 0 <= b < |l1.sessions| && l1.sessions[b].active ==>
         l2.sessions[b] == l1.sessions[b] && c'.sessionId != l1.sessions[b].sid
  }

  /** The privilege request that was answered raised the client's session on both ends. */
  predicate Raised(l1: Lan, l2: Lan, c: Ctx, c': Ctx, i: nat)
    requires Shape(l1) && Shape(l2)
  {
    && Usable(l1, c, i) && Usable(l2, c', i) && SameIdentity(l1.sessions[i], l2.sessions[i])
    && l2.sessions[i].priv == c'.privLevel == PRIVILEGE_OPERATOR
    && c'.sessionSeq == (c.sessionSeq + 1) % 0x1_0000_0000 && c'.sessionId == c.sessionId
  }

  /** One try of a loop, step by step. */
  lemma OneTry(l: Lan, c: Ctx, k: nat, q: u32, others: seq<Request>, f: Fate, rnd: u32)
    returns (l1: Lan, d: Option<seq<u8>>, l2: Lan, c': Ctx, q': u32, i: nat)
    requires k < 4 && Fits(l, c, k, q) && Shape(l) && AllReadable(others)
    ensures l1 == Run(l, others) && d == ReplyOf(Handled(l1, RequestMsg(c, StateAt(k)), rnd)) && l2 == AfterTry(l1, c, k, f, rnd)
    ensures Fits(l1, c, k, q) && Fits(l2, c, k, q)
    ensures var s := MeetState(l1, c, k);
            && (d.None? <==> s.AnswersFirst?) && (s.AnswersFirst? ==> s.n == 0)
            && (d.Some? ==> (Accepts(StateAt(k), d.value) <==> s.Answers?))
            && (s.Answers? && f.Delivered? ==>
                  c' == Parsed(Built(c, StateAt(k)), StateAt(k), d.value) && Fits(l2, c', k + 1, q')
                  && (k == 2 ==> Opened(l1, l2, c', i)) && (k == 3 ==> Raised(l1, l2, c, c', i)))
    ensures k == 3 && MeetState(l1, c, k).Answers? ==>
              Usable(l1, c, i) && Usable(l2, c, i) && SameIdentity(l1.sessions[i], l2.sessions[i])
  {
    hide Run, RequestMsg, Arrived, IsAppRequest, Step, Accepts, Parsed, Built, ReplyBuffer, TempSid, Inv, Configured;
    RunKeepsInv(l, others);
    l1 := Run(l, others);
    StaysFit(l, l1, c, k, q);
    var r;
    r, c', q', i := Meets(l1, c, k, q, rnd);
    ServesHandled(l1, RequestMsg(c, StateAt(k)), rnd, r);
    d := ReplyOf(r);
    l2 := AfterTry(l1, c, k, f, rnd);
    StaysFit(l1, r.lan, c, k, q);
  }

  lemma StaysFit(l: Lan, l': Lan, c: Ctx, k: nat, q: u32)
    requires Fits(l, c, k, q) && Inv(l') && SameConfig(l, l')
    ensures Fits(l', c, k, q) && Shape(l')
  {
  }

  lemma ServesHandled(l: Lan, pkt: seq<u8>, rnd: u32, r: Result)
    requires Shape(l) && Serves(l, pkt, rnd, r)
    ensures Handled(l, pkt, rnd) == r
  {
    hide Step;
  }

  lemma {:induction false} DownForGood(l: Lan, c: Ctx, k: nat, tries: seq<Try>, rnd: u32, a: nat, j: nat)
    requires Shape(l) && |c.challengeStr| == 16 && k < 4 && AllServable(tries) && j <= |tries|
    requires tries != [] && Stopped(l, tries[0].others)
    ensures Verdict(AnswersFirst(0), a, FatesOf(tries)[j..]) == FirstEnd(AllGoing(l, c, k, tries, rnd)[j..])
    decreases |tries| - j
  {
    hide Stopped;
    if j < |tries| {
      var fs, gs := FatesOf(tries), AllGoing(l, c, k, tries, rnd);
      DownForGood(l, c, k, tries, rnd, if Reaches(fs[j]) then a + 1 else a, j + 1);
      assert fs[j..][1..] == fs[j + 1..] && gs[j..][1..] == gs[j + 1..];
    }
  }

  /** The later tries of a loop are the tries of the loop that goes on. */
  lemma Later(l: Lan, c: Ctx, k: nat, tries: seq<Try>, rnd: u32)
    requires Shape(l) && |c.challengeStr| == 16 && k < 4 && AllServable(tries) && tries != []
    requires !Stopped(l, tries[0].others)
    ensures AllServable(tries[1..])
    ensures AllGoing(l, c, k, tries, rnd)[1..] ==
            AllGoing(AfterTry(Run(l, tries[0].others), c, k, tries[0].fate, rnd), c, k, tries[1..], rnd)
  {
    hide AfterTry, Run, MeetState, Stopped;
  }

  /** A loop from try j on, given what the server does with the request there. */
  lemma TryStep(l: Lan, c: Ctx, k: nat, tries: seq<Try>, j: nat, rnd: u32, r: Result)
    requires Shape(l) && |c.challengeStr| == 16 && k < 4 && AllServable(tries) && j < |tries|
    requires Serves(Run(l, tries[j].others), RequestMsg(c, StateAt(k)), rnd, r)
    ensures AllServable(tries[j..]) && AllServable(tries[j + 1..]) && Shape(r.lan)
    ensures var st, f, l1 := StateAt(k), tries[j].fate, Run(l, tries[j].others);
            var w, l2 := StateLoop(l, c, k, tries[j..], rnd), if Reaches(f) then r.lan else l1;
            if Stopped(l, tries[j].others) then w == Where(Verdict(AnswersFirst(0), 0, FatesOf(tries[j..])), l1, Built(c, st))
            else if f.Silent? || (f.Delivered? && r.sent == []) then w == Where(Blocked, l2, Built(c, st))
            else if f.Delivered? && Accepts(st, ReplyBuffer(r.sent[|r.sent| - 1])) then
              w == Where(Accepted, l2, Parsed(Built(c, st), st, ReplyBuffer(r.sent[|r.sent| - 1])))
            else w == StateLoop(l2, c, k, tries[j + 1..], rnd)
  {
    hide Run, RequestMsg, Accepts, Parsed, Built, Handled, Verdict, Stopped, Serves;
    var l1, pkt := Run(l, tries[j].others), RequestMsg(c, StateAt(k));
    ServesHandled(l1, pkt, rnd, r);
    ReplyServed(l1, pkt, rnd, r);
    assert tries[j..][0] == tries[j] && tries[j..][1..] == tries[j + 1..];
  }

  /** A state's loop ends as the first try that is not retried goes, in the state of the server
      it finds. */
  lemma {:induction false} LoopExactly(l: Lan, c: Ctx, k: nat, q: u32, tries: seq<Try>, rnd: u32)
    requires k < 4 && Fits(l, c, k, q) && Shape(l) && AllServable(tries)
    ensures StateLoop(l, c, k, tries, rnd).end == FirstEnd(AllGoing(l, c, k, tries, rnd))
    decreases |tries|
  {
    hide Run, Inv, Configured, TempSid, RequestMsg, Accepts, Parsed, Built, MeetState, AfterTry, ReplyOf, Handled, Verdict, Stopped;
    if tries != [] {
      var l1, d, l2, c', q', i := OneTry(l, c, k, q, tries[0].others, tries[0].fate, rnd);
      var gs := AllGoing(l, c, k, tries, rnd);
      if Stopped(l, tries[0].others) {
        DownForGood(l, c, k, tries, rnd, 0, 0);
        assert gs[0..] == gs && FatesOf(tries)[0..] == FatesOf(tries);
      } else {
        LoopExactly(l2, c, k, q, tries[1..], rnd);
        Later(l, c, k, tries, rnd);
        assert gs[0] == Going(l, c, k, tries, rnd, 0);
      }
    }
  }

  /** Where a state's loop leaves both ends.  When it is done, the state of the server that the
      answered try found is among those found. */
  lemma {:induction false} LoopEnds(l: Lan, c: Ctx, k: nat, q: u32, tries: seq<Try>, rnd: u32)
    returns (q': u32, i: nat, j: nat, l1: Lan)
    requires k < 4 && Fits(l, c, k, q) && Shape(l) && AllServable(tries)
    ensures var w := StateLoop(l, c, k, tries, rnd);
            && Inv(w.lan) && Configured(w.lan)
            && (w.end.Accepted? ==>
                  && Fits(w.lan, w.ctx, k + 1, q') && Inv(l1)
                  && j < |tries| && Found(l, c, k, tries, rnd, j) == Some(l1)
                  && (k == 2 ==> Opened(l1, w.lan, w.ctx, i)) && (k == 3 ==> Raised(l1, w.lan, c, w.ctx, i)))
    decreases |tries|
  {
    hide Run, Configured, TempSid, RequestMsg, Accepts, Parsed, Built, MeetState, AfterTry, ReplyOf, Handled, Verdict, Stopped,
         Opened, Raised, SlotOk, Count;
    q', i, j, l1 := q, 0, 0, l;
    if tries != [] {
      var l1', d, l2, c', q1, i1 := OneTry(l, c, k, q, tries[0].others, tries[0].fate, rnd);
      if Stopped(l, tries[0].others) {
        DownNotDone(0, FatesOf(tries));
      } else if tries[0].fate.Delivered? && MeetState(l1', c, k).Answers? {
        q', i, j, l1 := q1, i1, 0, l1';
      } else {
        var j';
        q', i, j', l1 := LoopEnds(l2, c, k, q, tries[1..], rnd);
        j := j' + 1;
      }
    }
  }

  lemma {:induction false} DownNotDone(a: nat, fates: seq<Fate>)
    ensures !Verdict(AnswersFirst(0), a, fates).Accepted?
    decreases |fates|
  {
    if fates != [] {
      DownNotDone(if Reaches(fates[0]) then a + 1 else a, fates[1..]);
    }
  }

  // ---------- the whole walk ----------

  lemma {:induction false} ReachedFits(l: Lan, c: Ctx, tries: seq<seq<Try>>, rnd: u32, k: nat) returns (q: u32)
    requires Fits(l, c, 0, 0) && Shape(l) && AllStates(tries) && k <= 4
    ensures var w := Reached(l, c, tries, rnd, k);
            Inv(w.lan) && Configured(w.lan) && (w.end.Accepted? ==> Fits(w.lan, w.ctx, k, q))
    decreases k
  {
    hide StateLoop, Inv, Configured, TempSid;
    q := 0;
    if k > 0 {
      q := ReachedFits(l, c, tries, rnd, k - 1);
      var w := Reached(l, c, tries, rnd, k - 1);
      if w.end.Accepted? {
        var i, j, l1;
        q, i, j, l1 := LoopEnds(w.lan, w.ctx, k - 1, q, tries[k - 1], rnd);
      }
    }
  }

  /** State by state, the walk goes on where it was done before, and ends there as the first try
      that is not retried goes. */
  lemma WalkExactly(l: Lan, c: Ctx, tries: seq<seq<Try>>, rnd: u32, k: nat)
    requires Fits(l, c, 0, 0) && Shape(l) && AllStates(tries) && k < 4
    ensures var w := Reached(l, c, tries, rnd, k);
            && (w.end.Accepted? ==> |w.ctx.challengeStr| == 16)
            && Reached(l, c, tries, rnd, k + 1).end ==
               if w.end.Accepted? then FirstEnd(AllGoing(w.lan, w.ctx, k, tries[k], rnd)) else w.end
  {
    hide StateLoop, Inv, Configured, TempSid, AllGoing, FirstEnd;
    var q := ReachedFits(l, c, tries, rnd, k);
    var w := Reached(l, c, tries, rnd, k);
    if w.end.Accepted? {
      LoopExactly(w.lan, w.ctx, k, q, tries[k], rnd);
    }
  }

  /** Whatever other clients do in between: a client whose walk is done holds a session that
      resolves from its id, at privilege 3 on both ends. */
  lemma DoneHolds(l: Lan, c: Ctx, tries: seq<seq<Try>>, rnd: u32) returns (i: nat)
    requires Fits(l, c, 0, 0) && Shape(l) && AllStates(tries)
    ensures var w := Reached(l, c, tries, rnd, 4);
            w.end.Accepted? ==> Usable(w.lan, w.ctx, i) && w.lan.sessions[i].priv == w.ctx.privLevel == PRIVILEGE_OPERATOR
  {
    hide StateLoop, Inv, Configured, TempSid, Found;
    var q := ReachedFits(l, c, tries, rnd, 3);
    var w := Reached(l, c, tries, rnd, 3);
    i := 0;
    if w.end.Accepted? {
      var q', j, l1;
      q', i, j, l1 := LoopEnds(w.lan, w.ctx, 3, q, tries[3], rnd);
    }
  }

  /** The session the activation got: its slot was free in the state that the answered try
      found, sessions open there keep their slots and ids, and the client's id is another; so
      two clients with open sessions are on different slots with different ids. */
  lemma ActivationIsNew(l: Lan, c: Ctx, tries: seq<seq<Try>>, rnd: u32) returns (i: nat, j: nat, l1: Lan)
    requires Fits(l, c, 0, 0) && Shape(l) && AllStates(tries)
    ensures var w2, w3 := Reached(l, c, tries, rnd, 2), Reached(l, c, tries, rnd, 3);
            w3.end.Accepted? ==>
              && |w2.ctx.challengeStr| == 16 && j < |tries[2]| && Found(w2.lan, w2.ctx, 2, tries[2], rnd, j) == Some(l1)
              && Inv(l1) && Opened(l1, w3.lan, w3.ctx, i)
  {
    hide StateLoop, Inv, Configured, TempSid, Found, Opened;
    var q := ReachedFits(l, c, tries, rnd, 2);
    var w := Reached(l, c, tries, rnd, 2);
    i, j, l1 := 0, 0, l;
    if w.end.Accepted? {
      var q';
      q', i, j, l1 := LoopEnds(w.lan, w.ctx, 2, q, tries[2], rnd);
    }
  }

  /** Nobody closes session i, or stops the server, in the course of the last state. */
  predicate Undisturbed(l: Lan, c: Ctx, i: nat, tries: seq<Try>, rnd: u32)
    requires Shape(l) && |c.challengeStr| == 16 && AllServable(tries)
    decreases |tries|
  {
    tries == []
    || (!Stopped(l, tries[0].others) && StaysActive(l, tries[0].others, i)
        && Undisturbed(AfterTry(Run(l, tries[0].others), c, 3, tries[0].fate, rnd), c, i, tries[1..], rnd))
  }

  lemma StillUsable(l: Lan, l1: Lan, c: Ctx, i: nat)
    requires Inv(l) && Inv(l1) && Usable(l, c, i) && SameIdentity(l.sessions[i], l1.sessions[i])
    ensures Usable(l1, c, i)
  {
    SidResolves(l1, i);
  }

  /** Then the last state depends on its tries only, and the session stays what it was. */
  lemma {:induction false} OwnLoop(l: Lan, c: Ctx, q: u32, i: nat, tries: seq<Try>, rnd: u32)
    requires Fits(l, c, 3, q) && Usable(l, c, i) && AllServable(tries) && Undisturbed(l, c, i, tries, rnd)
    ensures var w := StateLoop(l, c, 3, tries, rnd);
            && w.end == Verdict(Answers, 0, FatesOf(tries)) && Inv(w.lan)
            && (w.end.Accepted? ==>
                  && Usable(w.lan, w.ctx, i) && SameIdentity(l.sessions[i], w.lan.sessions[i])
                  && w.lan.sessions[i].priv == w.ctx.privLevel == PRIVILEGE_OPERATOR
                  && w.ctx.sessionSeq == (c.sessionSeq + 1) % 0x1_0000_0000)
    decreases |tries|
  {
    hide Run, Configured, TempSid, RequestMsg, Accepts, Parsed, Built, AfterTry, ReplyOf, Handled, Stopped, StaysActive, SlotOk, Count;
    if tries != [] {
      var f, rest := tries[0].fate, tries[1..];
      var l1, d, l2, c', q', i' := OneTry(l, c, 3, q, tries[0].others, f, rnd);
      SessionStays(l, tries[0].others, i);
      StillUsable(l, l1, c, i);
      assert FatesOf(tries)[1..] == FatesOf(rest);
      OwnLoop(l2, c, q, i, rest, rnd);
      CountFrom(if Reaches(f) then 1 else 0, FatesOf(rest));
    }
  }

  lemma {:induction false} CountFrom(a: nat, fates: seq<Fate>)
    ensures Verdict(Answers, a, fates) == Verdict(Answers, 0, fates)
    decreases |fates|
  {
    if fates != [] {
      CountFrom(if Reaches(fates[0]) then a + 1 else a, fates[1..]);
      CountFrom(if Reaches(fates[0]) then 1 else 0, fates[1..]);
    }
  }

  /** A client whose session nobody closes is done with the last state exactly as its tries
      decide, at privilege 3, with its number one past the server's. */
  lemma DoneUndisturbed(l: Lan, c: Ctx, tries: seq<seq<Try>>, rnd: u32) returns (i: nat)
    requires Fits(l, c, 0, 0) && Shape(l) && AllStates(tries) && Reached(l, c, tries, rnd, 3).end.Accepted?
    ensures var w3, w4 := Reached(l, c, tries, rnd, 3), Reached(l, c, tries, rnd, 4);
            && Usable(w3.lan, w3.ctx, i) && |w3.ctx.challengeStr| == 16
            && (Undisturbed(w3.lan, w3.ctx, i, tries[3], rnd) ==>
                  && w4.end == Verdict(Answers, 0, FatesOf(tries[3]))
                  && (w4.end.Accepted? ==>
                        && Usable(w4.lan, w4.ctx, i) && w4.ctx.sessionSeq == w4.lan.sessions[i].recvSeq + 1
                        && w4.lan.sessions[i].priv == w4.lan.sessions[i].maxPriv == w4.ctx.privLevel == PRIVILEGE_OPERATOR))
  {
    hide StateLoop, Inv, Configured, TempSid, Found, Verdict, Undisturbed;
    var q := ReachedFits(l, c, tries, rnd, 3);
    var w := Reached(l, c, tries, rnd, 3);
    var j, l1;
    i, j, l1 := ActivationIsNew(l, c, tries, rnd);
    if Undisturbed(w.lan, w.ctx, i, tries[3], rnd) {
      OwnLoop(w.lan, w.ctx, q, i, tries[3], rnd);
    }
  }

  // ---------- a client that has the server to itself ----------

  predicate AloneLoop(tries: seq<Try>) {
    forall j :: 0 <= j < |tries| ==> tries[j].others == []
  }

  predicate Alone(tries: seq<seq<Try>>) {
    |tries| == 4 && forall k :: 0 <= k < 4 ==> AloneLoop(tries[k])
  }

  function AllFates(tries: seq<seq<Try>>): (fs: seq<seq<Fate>>)
    ensures |fs| == |tries|
  {
    seq(|tries|, k requires 0 <= k < |tries| => FatesOf(tries[k]))
  }

  /** How the walk of the state table ends, from state k on, when `room` more sessions fit. */
  function Walked(room: nat, fates: seq<seq<Fate>>, k: nat): End
    requires k <= |fates|
    decreases |fates| - k
  {
    if k == |fates| then Accepted
    else if Verdict(ServerAt(k, room), 0, fates[k]).Accepted? then Walked(room, fates, k + 1)
    else Verdict(ServerAt(k, room), 0, fates[k])
  }

  /** How many sessions the walk opens: none unless the challenge was answered, then one for
      every activation that arrives while there is room. */
  function WalkOpens(room: nat, fates: seq<seq<Fate>>): nat
    requires |fates| == 4
  {
    if Verdict(ServerAt(0, room), 0, fates[0]).Accepted? && Verdict(ServerAt(1, room), 0, fates[1]).Accepted?
    then OpenedBy(2, room, Arrivals(AnswersFirst(room), fates[2])) else 0
  }

  lemma WalkStep(room: nat, fates: seq<seq<Fate>>, k: nat)
    requires |fates| == 4 && k < 4
    ensures var v := Verdict(ServerAt(k, room), 0, fates[k]);
            && (!v.Accepted? ==> Walked(room, fates, k) == v)
            && (v.Accepted? ==> Walked(room, fates, k + 1) == Walked(room, fates, k))
  {
  }

  lemma WalkEnds(room: nat, fates: seq<seq<Fate>>)
    requires |fates| == 4
    ensures Walked(room, fates, 4) == Accepted
  {
  }

  /** The walk is done exactly when each state gets a reply through before any silence, and
      there is room for every activation that arrives up to the one answered. */
  lemma EstablishedExactly(room: nat, fates: seq<seq<Fate>>)
    requires |fates| == 4
    ensures Walked(room, fates, 0).Accepted? <==> (forall k :: 0 <= k < 4 ==> GetsReply(fates[k])) && Arrivals(AnswersFirst(room), fates[2]) <= room
  {
    hide Verdict, Walked, GetsReply, Arrivals;
    WalkEnds(room, fates);
    for k := 4 downto 0
      invariant Walked(room, fates, k).Accepted? <==> forall j :: k <= j < 4 ==> Verdict(ServerAt(j, room), 0, fates[j]).Accepted?
    {
      WalkStep(room, fates, k);
    }
    forall k | 0 <= k < 4
      ensures Verdict(ServerAt(k, room), 0, fates[k]).Accepted? <==>
              GetsReply(fates[k]) && (k == 1 ==> 0 < room) && (k == 2 ==> Arrivals(AnswersFirst(room), fates[2]) <= room)
    {
      AcceptedExactly(ServerAt(k, room), 0, fates[k]);
    }
    if GetsReply(fates[2]) {
      ReplyArrived(AnswersFirst(room), fates[2]);
    }
  }

  lemma {:induction false} ReplyArrived(s: Server, fates: seq<Fate>)
    requires GetsReply(fates) && !s.Refuses?
    ensures 0 < Arrivals(s, fates)
    decreases |fates|
  {
    if !fates[0].Delivered? {
      var j :| 0 <= j < |fates| && fates[j].Delivered? && forall i :: 0 <= i < j ==> fates[i].Failed? || fates[i].Garbled?;
      assert fates[1..][j - 1].Delivered?;
      ReplyArrived(s, fates[1..]);
    }
  }

  /** What a walk alone with the server comes to. */
  ghost predicate AloneOutcome(l: Lan, w: Where, tries: seq<seq<Try>>) {
    && |tries| == 4 && l.activeSessions <= MAX_SESSIONS
    && var room, fates := MAX_SESSIONS - l.activeSessions, AllFates(tries);
       && w.end == Walked(room, fates, 0)
       && (w.end.Accepted? <==> (forall k :: 0 <= k < 4 ==> GetsReply(fates[k])) && Arrivals(AnswersFirst(room), fates[2]) <= room)
       && Grown(l, w.lan, WalkOpens(room, fates))
       && (w.end.Accepted? ==> exists i :: Attached(l, w.lan, w.ctx, WalkOpens(room, fates), i))
  }

  lemma {:induction false} LoopAlone(l0: Lan, l: Lan, c: Ctx, k: nat, n0: nat, a: nat, q: u32, i: nat, tries: seq<Try>, rnd: u32)
    returns (q': u32, i': nat)
    requires k < 4 && (k <= 2 ==> n0 == 0) && l0.activeSessions <= MAX_SESSIONS && AllServable(tries) && AloneLoop(tries)
    requires var room := MAX_SESSIONS - l0.activeSessions;
             Stage(l0, l, c, k, n0 + OpenedBy(k, room, a), q, i) && Shape(l) && |c.challengeStr| == 16
    ensures var room, w := MAX_SESSIONS - l0.activeSessions, StateLoop(l, c, k, tries, rnd);
            var s, fates := ServerAt(k, room), FatesOf(tries);
            && w.end == Verdict(s, a, fates) && Grown(l0, w.lan, n0 + OpenedBy(k, room, a + Arrivals(s, fates)))
            && (w.end.Accepted? ==> Stage(l0, w.lan, w.ctx, k + 1, n0 + OpenedBy(k, room, a + Arrivals(s, fates)), q', i'))
    decreases |tries|
  {
    hide Stage, Grown, Built, RequestMsg, Serves, Accepts, Parsed, StateLoop, Run, Stopped, Shape;
    q', i' := q, i;
    var room := MAX_SESSIONS - l0.activeSessions;
    var n := n0 + OpenedBy(k, room, a);
    StageGrown(l0, l, c, k, n, q, i);
    if tries == [] {
      LoopEmpty(l, c, k, rnd);
    } else {
      var f, rest := tries[0].fate, tries[1..];
      var r, c', n', q1, i1 := Arrival(l0, l, c, k, n, q, i, rnd);
      var l2 := if Reaches(f) then r.lan else l;
      StageGrown(l0, r.lan, c, k, n', q, i);
      NoOthers(l);
      TryStep(l, c, k, tries, 0, rnd, r);
      assert tries[0..] == tries && FatesOf(tries)[1..] == FatesOf(rest);
      if Retried(ServerAt(k, room), f) {
        q', i' := LoopAlone(l0, l2, c, k, n0, if Reaches(f) then a + 1 else a, q, i, rest, rnd);
      } else if f.Delivered? && r.sent != [] {
        q', i' := q1, i1;
      }
    }
  }

  lemma NoOthers(l: Lan)
    requires Shape(l)
    ensures Run(l, []) == l && !Stopped(l, [])
  {
  }

  lemma LoopEmpty(l: Lan, c: Ctx, k: nat, rnd: u32)
    requires Shape(l) && |c.challengeStr| == 16 && k < 4
    ensures StateLoop(l, c, k, [], rnd) == Where(GaveUp, l, Built(c, StateAt(k)))
  {
  }

  lemma ReplyServed(l: Lan, pkt: seq<u8>, rnd: u32, r: Result)
    requires Shape(l) && Serves(l, pkt, rnd, r)
    ensures ReplyOf(r) == if r.sent == [] then None else Some(ReplyBuffer(r.sent[|r.sent| - 1]))
  {
  }

  /** How many sessions were opened before state k, the states before it done. */
  function OpenedBefore(room: nat, fates: seq<seq<Fate>>, k: nat): nat
    requires |fates| == 4
  {
    if k <= 2 then 0 else OpenedBy(2, room, Arrivals(AnswersFirst(room), fates[2]))
  }

  lemma {:induction false} ReachedAlone(l: Lan, c: Ctx, tries: seq<seq<Try>>, rnd: u32, k: nat) returns (q: u32, i: nat)
    requires Fits(l, c, 0, 0) && Shape(l) && AllStates(tries) && Alone(tries) && k <= 4
    ensures l.activeSessions <= MAX_SESSIONS
    ensures var room, fates, w := MAX_SESSIONS - l.activeSessions, AllFates(tries), Reached(l, c, tries, rnd, k);
            if w.end.Accepted? then
              && Stage(l, w.lan, w.ctx, k, OpenedBefore(room, fates, k), q, i)
              && forall j :: 0 <= j < k ==> Verdict(ServerAt(j, room), 0, fates[j]).Accepted?
            else Grown(l, w.lan, WalkOpens(room, fates)) && w.end == Walked(room, fates, 0)
    decreases k
  {
    hide Stage, Grown, StateLoop, Inv, Configured, Verdict, Arrivals;
    q, i := 0, 0;
    FitsStage(l, c);
    StageGrown(l, l, c, 0, 0, 0, 0);
    if k > 0 {
      var room, fates := MAX_SESSIONS - l.activeSessions, AllFates(tries);
      q, i := ReachedAlone(l, c, tries, rnd, k - 1);
      var w := Reached(l, c, tries, rnd, k - 1);
      if w.end.Accepted? {
        StageGrown(l, w.lan, w.ctx, k - 1, OpenedBefore(room, fates, k - 1), q, i);
        q, i := LoopAlone(l, w.lan, w.ctx, k - 1, OpenedBefore(room, fates, k - 1), 0, q, i, tries[k - 1], rnd);
        WalkedUpTo(room, fates, k - 1);
        WalkStep(room, fates, k - 1);
      }
    }
  }

  lemma {:induction false} WalkedUpTo(room: nat, fates: seq<seq<Fate>>, k: nat)
    requires |fates| == 4 && k <= 4 && forall j :: 0 <= j < k ==> Verdict(ServerAt(j, room), 0, fates[j]).Accepted?
    ensures Walked(room, fates, 0) == Walked(room, fates, k)
    decreases k
  {
    hide Verdict;
    if k > 0 {
      WalkedUpTo(room, fates, k - 1);
      WalkStep(room, fates, k - 1);
    }
  }

  lemma AloneWalk(l: Lan, c: Ctx, tries: seq<seq<Try>>, rnd: u32)
    requires Fits(l, c, 0, 0) && Shape(l) && AllStates(tries) && Alone(tries)
    ensures AloneOutcome(l, Reached(l, c, tries, rnd, 4), tries)
  {
    hide Stage, Grown, Attached, Reached, Inv, Configured, Verdict, GetsReply, Walked, ServerAt, Alone;
    var q, i := ReachedAlone(l, c, tries, rnd, 4);
    var room, fates, w := MAX_SESSIONS - l.activeSessions, AllFates(tries), Reached(l, c, tries, rnd, 4);
    EstablishedExactly(room, fates);
    if w.end.Accepted? {
      WalkedUpTo(room, fates, 4);
      WalkEnds(room, fates);
      StageGrown(l, w.lan, w.ctx, 4, OpenedBefore(room, fates, 4), q, i);
      StageAttached(l, w.lan, w.ctx, OpenedBefore(room, fates, 4), q, i);
    }
  }

  /** With a free session and nothing lost the walk is done, one session opened. */
  lemma NothingLost(l: Lan, w: Where, tries: seq<seq<Try>>)
    requires AloneOutcome(l, w, tries) && l.activeSessions < MAX_SESSIONS
    requires forall k :: 0 <= k < 4 ==> tries[k] != [] && tries[k][0].fate.Delivered?
    ensures exists i :: Attached(l, w.lan, w.ctx, 1, i)
  {
    hide Grown, Attached, Walked;
    var room, fates := MAX_SESSIONS - l.activeSessions, AllFates(tries);
    forall k | 0 <= k < 4
      ensures GetsReply(fates[k]) && Verdict(ServerAt(k, room), 0, fates[k]).Accepted?
    {
      assert fates[k][0].Delivered?;
    }
    assert Arrivals(AnswersFirst(room), fates[2]) == 1;
  }

  lemma FitsStage(l: Lan, c: Ctx)
    requires Fits(l, c, 0, 0)
    ensures Stage(l, l, c, 0, 0, 0, 0) && Shape(l)
  {
  }
}
