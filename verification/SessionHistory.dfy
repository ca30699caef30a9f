/** Properties of whole runs of the session manager: session ids are not reused for a long
    time, and outbound sequence numbers do not repeat. */
module SessionHistory {
  import opened Bits
  import opened Codes
  import opened Wire
  import opened Sessions
  import opened SessionInvariant
  import opened Cyclic

  // ---------- freshness of session ids ----------

  /** An issued id keeps 25 bits of the sequence number. */
  const WINDOW := 0x200_0000

  /** Two ids issued less than 2^25-1 activations apart differ, whatever their slots and
      wherever the 32-bit sequence number wraps and skips zero in between. */
  lemma SidsDiffer(u: u32, k: nat, h: u32, h': u32)
    requires u != 0 && 0 < k <= WINDOW - 2 && h < 64 && h' < 64
    ensures IssuedSid(u, h) != IssuedSid(Iter(u, M32, k), h')
  {
    hide IssuedSid, Iter;
    var v := Iter(u, M32, k);
    IterNear(u, M32, k);
    IssuedSidValue(u, h);
    IssuedSidValue(v, h');
    if v > u {
      LowBitsDiffer(u, k);
    } else {
      assert v + 128 * WINDOW == u + (k + 1);
      LowBitsDiffer(u, k + 1);
      LowBitsShift(v);
    }
  }

  lemma LowBitsDiffer(u: nat, k: nat)
    requires 0 < k < WINDOW
    ensures u % WINDOW != (u + k) % WINDOW
  {
  }

  lemma LowBitsShift(v: nat)
    ensures (v + 128 * WINDOW) % WINDOW == v % WINDOW
  {
  }

  /** The bound is tight: one activation further, across the wrap, the id comes back. */
  lemma SidReturns(h: u32)
    requires h < 64
    ensures IssuedSid(0xFFFF_FFFF, h) == IssuedSid(Iter(0xFFFF_FFFF, M32, WINDOW - 1), h)
  {
    hide IssuedSid, Iter;
    IterNear(0xFFFF_FFFF, M32, WINDOW - 1);
    IssuedSidValue(0xFFFF_FFFF, h);
    IssuedSidValue(WINDOW - 1, h);
  }

  /** The ids issued until a run ends or panics, oldest first: an activation is the only step that moves
      the id sequence number, and it takes the first free slot. */
  function Issued(l: Lan, reqs: seq<Request>): (sids: seq<u32>)
    requires Shape(l) && AllReadable(reqs)
    ensures |sids| <= |reqs|
    decreases |reqs|
  {
    if reqs == [] || Halts(l, reqs[0]) then []
    else
      var l1 := Next(l, reqs[0]);
      var i := FreeFrom(l.sessions, 1);
      (if l1.sidSeq != l.sidSeq && i < |l1.sessions| then [l1.sessions[i].sid] else []) + Issued(l1, reqs[1..])
  }

  /** One step's contribution to `Issued`. */
  lemma IssuedStep(l: Lan, q: Request) returns (e: Effect)
    requires Inv(l) && Readable(q.m)
    ensures Does(l, Next(l, q), e) && Inv(Next(l, q))
    ensures e.Opened? ==>
              && Next(l, q).sidSeq != l.sidSeq && 1 <= e.i <= MAX_SESSIONS && l.sessions[e.i].handle == e.i
              && Next(l, q).sessions[e.i].sid == IssuedSid(UsedSeq(l.sidSeq), e.i)
              && UsedSeq(Next(l, q).sidSeq) == Succ(UsedSeq(l.sidSeq), M32)
    ensures !e.Opened? ==> Next(l, q).sidSeq == l.sidSeq
  {
    hide Served, IssuedSid;
    NextKeepsInv(l, q);
    if Served(l, q).Done? {
      e := ServeEffect(l, q);
      if e.Opened? {
        assert SlotOk(l.sessions[e.i], e.i);
      }
    } else {
      e := Kept;
    }
  }

  /** The j-th id of a run is built from the j-th value of the skip-zero counter. */
  lemma {:induction false} IssuedAt(l: Lan, reqs: seq<Request>, j: nat) returns (h: u32)
    requires Inv(l) && AllReadable(reqs) && j < |Issued(l, reqs)|
    ensures 1 <= h <= MAX_SESSIONS
    ensures Issued(l, reqs)[j] == IssuedSid(Iter(UsedSeq(l.sidSeq), M32, j), h)
    decreases |reqs|
  {
    hide Next, IssuedSid, Halts;
    var l1 := Next(l, reqs[0]);
    var e := IssuedStep(l, reqs[0]);
    if e.Opened? {
      if j == 0 {
        h := e.i;
      } else {
        h := IssuedAt(l1, reqs[1..], j - 1);
        IterShift(UsedSeq(l.sidSeq), M32, 1, j - 1);
        assert Iter(UsedSeq(l.sidSeq), M32, 1) == Succ(Iter(UsedSeq(l.sidSeq), M32, 0), M32);
      }
    } else {
      h := IssuedAt(l1, reqs[1..], j);
    }
  }

  /** Any 2^25-1 consecutive activations of any run issue different ids. */
  lemma IssuedSidsAreFresh(l: Lan, reqs: seq<Request>, i: nat, j: nat)
    requires Inv(l) && AllReadable(reqs) && i < j < |Issued(l, reqs)| && j - i <= WINDOW - 2
    ensures Issued(l, reqs)[i] != Issued(l, reqs)[j]
  {
    var u := UsedSeq(l.sidSeq);
    hide Issued, IssuedSid;
    var h := IssuedAt(l, reqs, i);
    var h' := IssuedAt(l, reqs, j);
    IterShift(u, M32, i, j - i);
    assert 0 < Iter(u, M32, i);
    SidsDiffer(Iter(u, M32, i), j - i, h, h');
  }

  /** Once a session's id resolves to nothing, it resolves to nothing for the rest of the
      window, even if its slot is taken again.  Here the id was issued d activations before
      the state l. */
  lemma {:induction false} ClosedSidStaysClosed(l: Lan, reqs: seq<Request>, u: u32, h: u32, d: nat)
    requires Inv(l) && AllReadable(reqs) && u != 0 && h < 64
    requires 1 <= d && UsedSeq(l.sidSeq) == Iter(u, M32, d) && d + |Issued(l, reqs)| <= WINDOW - 1
    requires SidToSession(l.sessions, IssuedSid(u, h)).Unbound?
    ensures SidToSession(Run(l, reqs).sessions, IssuedSid(u, h)).Unbound?
    decreases |reqs|
  {
    hide Next, IssuedSid, Halts;
    if reqs != [] && !Halts(l, reqs[0]) {
      var l1 := Next(l, reqs[0]);
      var e := IssuedStep(l, reqs[0]);
      if e.Opened? {
        SidsDiffer(u, d, h, e.i);
      }
      StillUnbound(l, l1, e, IssuedSid(u, h));
      ClosedSidStaysClosed(l1, reqs[1..], u, h, if e.Opened? then d + 1 else d);
    }
  }

  /** A run moves the id sequence number by the activations in it. */
  lemma {:induction false} RunIssues(l: Lan, reqs: seq<Request>)
    requires Inv(l) && AllReadable(reqs)
    ensures UsedSeq(Run(l, reqs).sidSeq) == Iter(UsedSeq(l.sidSeq), M32, |Issued(l, reqs)|)
    decreases |reqs|
  {
    hide Next, IssuedSid, Halts, UsedSeq;
    if reqs != [] && !Halts(l, reqs[0]) {
      var l1 := Next(l, reqs[0]);
      var e := IssuedStep(l, reqs[0]);
      RunIssues(l1, reqs[1..]);
      if e.Opened? {
        IterShift(UsedSeq(l.sidSeq), M32, 1, |Issued(l1, reqs[1..])|);
        assert Iter(UsedSeq(l.sidSeq), M32, 1) == Succ(Iter(UsedSeq(l.sidSeq), M32, 0), M32);
      }
    }
  }

  /** The j-th id of a run, and how many activations before the run's end it was issued. */
  lemma IssuedAge(l: Lan, reqs: seq<Request>, j: nat) returns (u: u32, h: u32)
    requires Inv(l) && AllReadable(reqs) && j < |Issued(l, reqs)|
    ensures u != 0 && h < 64 && Issued(l, reqs)[j] == IssuedSid(u, h)
    ensures UsedSeq(Run(l, reqs).sidSeq) == Iter(u, M32, |Issued(l, reqs)| - j)
  {
    hide Issued, IssuedSid, Run;
    var u0 := UsedSeq(l.sidSeq);
    h := IssuedAt(l, reqs, j);
    u := Iter(u0, M32, j);
    RunIssues(l, reqs);
    IterShift(u0, M32, j, |Issued(l, reqs)| - j);
    IterPositive(u0, j);
  }

  /** An id issued in a run, once its session is closed, resolves to nothing again until
      2^25-1 activations after the one that issued it, whatever requests follow. */
  lemma ClosedIsGone(l: Lan, before: seq<Request>, after: seq<Request>, j: nat)
    requires Inv(l) && AllReadable(before) && AllReadable(after) && j < |Issued(l, before)|
    requires var l1 := Run(l, before);
             && SidToSession(l1.sessions, Issued(l, before)[j]).Unbound?
             && |Issued(l, before)| - j + |Issued(l1, after)| <= WINDOW - 1
    ensures SidToSession(Run(Run(l, before), after).sessions, Issued(l, before)[j]).Unbound?
  {
    hide Issued, IssuedSid, Run, SidToSession, UsedSeq;
    var u, h := IssuedAge(l, before, j);
    RunKeepsInv(l, before);
    ClosedSidStaysClosed(Run(l, before), after, u, h, |Issued(l, before)| - j);
  }

  lemma IterPositive(u: u32, k: nat)
    requires u != 0
    ensures 0 < Iter(u, M32, k)
  {
  }

  lemma StillUnbound(l: Lan, l': Lan, e: Effect, x: u32)
    requires Inv(l) && Inv(l') && Does(l, l', e) && SidToSession(l.sessions, x).Unbound?
    requires e.Opened? ==> l'.sessions[e.i].sid != x
    ensures SidToSession(l'.sessions, x).Unbound?
  {
    hide IssuedSid;
    var idx := x / 2 % 64;
    if idx <= MAX_SESSIONS {
      assert SlotOk(l.sessions[idx], idx);
    }
  }

  // ---------- outbound sequence numbers ----------

  function PacketSid(pkt: seq<u8>): u32
    requires 13 <= |pkt|
  {
    Un32(pkt[9..13])
  }

  function PacketSeq(pkt: seq<u8>): u32
    requires 13 <= |pkt|
  {
    Un32(pkt[5..9])
  }

  /** The sequence numbers of the packets that carry session id x, in order. */
  function NumbersOf(sent: seq<seq<u8>>, x: u32): seq<u32> {
    if sent == [] then []
    else (if 13 <= |sent[0]| && PacketSid(sent[0]) == x then [PacketSeq(sent[0])] else []) + NumbersOf(sent[1..], x)
  }

  lemma PacketNumbers(m: Msg, s: Session, data: seq<u8>)
    ensures 13 <= |Packet(m, s, data)|
    ensures PacketSid(Packet(m, s, data)) == s.sid && PacketSeq(Packet(m, s, data)) == s.xmitSeq
  {
    hide Frame, Un32, Le32, Pack;
    FrameBytes(ResponseHead(m, s.authtype, s.xmitSeq, s.sid, |data|), data, Packet(m, s, data));
    LittleEndian32(s.sid);
    LittleEndian32(s.xmitSeq);
  }

  /** The first n values of the counter. */
  function Counter(x: u32, n: nat): seq<u32> {
    seq(n, k requires 0 <= k => Iter(x, M32, k))
  }

  /** Numbers ns were sent on slot i between l and l'. */
  predicate Sends(l: Lan, l': Lan, i: nat, ns: seq<u32>)
    requires i < |l.sessions| && i < |l'.sessions|
  {
    ns == Counter(l.sessions[i].xmitSeq, |ns|) && l'.sessions[i].xmitSeq == Iter(l.sessions[i].xmitSeq, M32, |ns|)
  }

  predicate Open(l: Lan, i: nat, x: u32) {
    Inv(l) && i < |l.sessions| && l.sessions[i].active && l.sessions[i].sid == x
  }

  /** A reply uses up a session's number exactly when it carries the session's id: replies
      outside any session, under a temporary id or on another slot leave it alone. */
  lemma RespondSends(l: Lan, m: Msg, via: Via, data: seq<u8>, i: nat, x: u32)
    requires Open(l, i, x) && (via.Slot? ==> via.i < |l.sessions| && l.sessions[via.i].active)
    requires via.Local? ==> via.s.sid % 2 == 1 && !via.s.rmcpplus
    ensures var r := Respond(l, m, via, data);
            Sends(l, r.lan, i, NumbersOf(r.sent, x)) && Open(r.lan, i, x)
  {
    hide Packet, Un32;
    var r := Respond(l, m, via, data);
    var v := if via.Unbound? then SidToSession(l.sessions, m.session.sid) else via;
    RespondKept(l, m, via, data);
    EffectKeepsInv(l, r.lan, Kept);
    SidResolves(l, i);
    assert SlotOk(l.sessions[i], i);
    PacketNumbers(m, BLANK.(active := true), data);
    if v.Local? {
      PacketNumbers(m, v.s, data);
    } else if v.Slot? {
      PacketNumbers(m, l.sessions[v.i], data);
    }
    assert |r.sent| <= 1;
    if r.sent != [] {
      assert NumbersOf(r.sent[1..], x) == [];
    }
    var y := l.sessions[i].xmitSeq;
    assert Iter(y, M32, 0) == y;
    assert Iter(y, M32, 1) == Succ(Iter(y, M32, 0), M32);
    assert Counter(y, 1) == [y];
  }

  /** A re-activation of session x replaces its outbound number. */
  predicate Reactivates(m: Msg, x: u32) {
    m.message.netfn == APP_NETFN && m.message.cmd == ACTIVATE_SESSION_CMD && m.dataLen >= 22 && m.session.sid == x
  }

  lemma NothingSends(l: Lan, i: nat, x: u32)
    requires i < |l.sessions|
    ensures Sends(l, l, i, NumbersOf([], x))
  {
    assert Iter(l.sessions[i].xmitSeq, M32, 0) == l.sessions[i].xmitSeq;
  }

  lemma OpenSessionSends(l: Lan, m: Msg, rnd: u32, i: nat, x: u32)
    requires Open(l, i, x) && Readable(m) && m.session.sid % 2 == 1
    ensures var r := OpenSession(l, m, rnd); i < |r.lan.sessions| && Sends(l, r.lan, i, NumbersOf(r.sent, x))
  {
    hide Respond, Un32, Le32, HasBit, IssuedSid, Sends, NumbersOf;
    var user := l.users[m.session.sid / 2 % 64];
    var xmitSeq := Un32(Args(m, 18, 22));
    var dummy := BLANK.(active := true, authtype := m.session.authType, xmitSeq := xmitSeq, sid := m.session.sid);
    var j := FreeFrom(l.sessions, 1);
    NothingSends(l, i, x);
    RespondSends(l, m, Local(dummy), [0x85], i, x);
    RespondSends(l, m, Local(dummy), [0x86], i, x);
    RespondSends(l, m, Local(dummy), [0x81], i, x);
    if l.activeSessions < MAX_SESSIONS && j <= MAX_SESSIONS {
      var s := Activated(l, j, Arg(m, 0) % 16, xmitSeq, Arg(m, 1) % 16, user, rnd);
      var l1 := l.(sessions := l.sessions[j := s], activeSessions := (l.activeSessions + 1) % 0x100,
                   sidSeq := (UsedSeq(l.sidSeq) + 1) % 0x1_0000_0000);
      EffectKeepsInv(l, l1, Opened(j));
      RespondSends(l1, m, Local(dummy), ActivationData(s), i, x);
      SendsFrom(l, l1, Respond(l1, m, Local(dummy), ActivationData(s)).lan, i,
                NumbersOf(Respond(l1, m, Local(dummy), ActivationData(s)).sent, x));
    }
  }

  lemma SendsFrom(l: Lan, l1: Lan, l2: Lan, i: nat, ns: seq<u32>)
    requires i < |l.sessions| && i < |l1.sessions| && i < |l2.sessions|
    requires l.sessions[i].xmitSeq == l1.sessions[i].xmitSeq && Sends(l1, l2, i, ns)
    ensures Sends(l, l2, i, ns)
  {
  }

  lemma ReactivateSessionSends(l: Lan, m: Msg, i: nat, x: u32)
    requires Open(l, i, x) && Readable(m) && m.session.sid != x
    ensures var r := ReactivateSession(l, m); i < |r.lan.sessions| && Sends(l, r.lan, i, NumbersOf(r.sent, x))
  {
    hide Respond, Un32, Le32, Sends, NumbersOf;
    NothingSends(l, i, x);
    var v := SidToSession(l.sessions, m.session.sid);
    if v.Slot? {
      var s := l.sessions[v.i].(xmitSeq := Un32(m.data[18..22]));
      var l1 := l.(sessions := l.sessions[v.i := s]);
      EffectKeepsInv(l, l1, Kept);
      RespondSends(l1, m, v, ActivationData(s), i, x);
      SendsFrom(l, l1, Respond(l1, m, v, ActivationData(s)).lan, i, NumbersOf(Respond(l1, m, v, ActivationData(s)).sent, x));
    }
  }

  lemma SetSessionPrivilegeSends(l: Lan, m: Msg, i: nat, x: u32)
    requires Open(l, i, x) && Readable(m)
    ensures var r := SetSessionPrivilege(l, m); i < |r.lan.sessions| && Sends(l, r.lan, i, NumbersOf(r.sent, x))
  {
    hide Respond, Sends, NumbersOf;
    NothingSends(l, i, x);
    RespondSends(l, m, Unbound, [REQUEST_DATA_LENGTH_INVALID_CC], i, x);
    var v := SidToSession(l.sessions, m.session.sid);
    if v.Slot? {
      var s := l.sessions[v.i];
      var priv: u8 := if Arg(m, 0) % 16 == 0 then s.priv else Arg(m, 0) % 16;
      var l1 := l.(sessions := l.sessions[v.i := s.(priv := priv)]);
      RespondSends(l, m, v, [0x80], i, x);
      RespondSends(l, m, v, [0x81], i, x);
      EffectKeepsInv(l, l1, Kept);
      RespondSends(l1, m, v, [0, priv], i, x);
      SendsFrom(l, l1, Respond(l1, m, v, [0, priv]).lan, i, NumbersOf(Respond(l1, m, v, [0, priv]).sent, x));
    }
  }

  lemma CloseSessionSends(l: Lan, m: Msg, i: nat, x: u32)
    requires Open(l, i, x) && Readable(m) && CloseSession(l, m).Done?
    ensures var r := CloseSession(l, m).r; i < |r.lan.sessions| && Sends(l, r.lan, i, NumbersOf(r.sent, x))
  {
    hide Respond, Un32, NumbersOf;
    var v := SidToSession(l.sessions, m.session.sid);
    RespondSends(l, m, v, [REQUEST_DATA_LENGTH_INVALID_CC], i, x);
    RespondSends(l, m, v, [INSUFFICIENT_PRIVILEGE_CC], i, x);
    RespondSends(l, m, v, [0x87], i, x);
    RespondSends(l, m, v, [0], i, x);
  }

  lemma AppQuerySends(l: Lan, m: Msg, i: nat, x: u32)
    requires Open(l, i, x) && Readable(m)
    ensures var r := GetChannelAuthCapabilities(l, m); i < |r.lan.sessions| && Sends(l, r.lan, i, NumbersOf(r.sent, x))
  {
    hide Respond, Sends, NumbersOf;
    var channel: u8 := if Arg(m, 0) % 16 == 0xe then l.chanNum else Arg(m, 0) % 16;
    NothingSends(l, i, x);
    RespondSends(l, m, Unbound, [INVALID_DATA_FIELD_CC], i, x);
    RespondSends(l, m, Unbound, [0, channel, 0x17, 0x6, 0, 0, 0, 0, 0], i, x);
  }

  lemma ChallengeSends(l: Lan, m: Msg, i: nat, x: u32)
    requires Open(l, i, x) && Readable(m)
    ensures var r := GetSessionChallenge(l, m); i < |r.lan.sessions| && Sends(l, r.lan, i, NumbersOf(r.sent, x))
  {
    hide Respond, TempSid, Le32, HasBit, Sends, NumbersOf;
    NothingSends(l, i, x);
    RespondSends(l, m, Unbound, [0x82], i, x);
    RespondSends(l, m, Unbound, [0x81], i, x);
    RespondSends(l, m, Unbound, [INVALID_DATA_FIELD_CC], i, x);
    RespondSends(l, m, Unbound, [OUT_OF_SPACE_CC], i, x);
    var u := UserFrom(l.users, 1, Args(m, 1, 17), true, Arg(m, 0) % 16);
    if u <= MAX_USERS {
      var l1 := l.(nextChallSeq := (l.nextChallSeq + 1) % 0x1_0000_0000);
      var data := [0] + Le32(TempSid(l.nextChallSeq, l.users[u].idx)) + CHALLENGE;
      RespondSends(l1, m, Unbound, data, i, x);
      SendsFrom(l, l1, Respond(l1, m, Unbound, data).lan, i, NumbersOf(Respond(l1, m, Unbound, data).sent, x));
    }
  }

  lemma StepSends(l: Lan, m: Msg, rnd: u32, i: nat, x: u32)
    requires Open(l, i, x) && Readable(m) && m.message.netfn == APP_NETFN && !Reactivates(m, x) && Step(l, m, rnd).Done?
    ensures var r := Step(l, m, rnd).r; i < |r.lan.sessions| && Sends(l, r.lan, i, NumbersOf(r.sent, x))
  {
    hide GetChannelAuthCapabilities, GetSessionChallenge, OpenSession, ReactivateSession, SetSessionPrivilege,
         CloseSession, Sends, NumbersOf;
    var cmd := m.message.cmd;
    NothingSends(l, i, x);
    if cmd == GET_CHANNEL_AUTH_CAPABILITIES_CMD {
      AppQuerySends(l, m, i, x);
    } else if cmd == GET_SESSION_CHALLENGE_CMD {
      ChallengeSends(l, m, i, x);
    } else if cmd == ACTIVATE_SESSION_CMD {
      if m.dataLen >= 22 && m.session.sid % 2 == 1 {
        OpenSessionSends(l, m, rnd, i, x);
      } else if m.dataLen >= 22 {
        ReactivateSessionSends(l, m, i, x);
      }
    } else if cmd == SET_SESSION_PRIVILEGE_CMD {
      SetSessionPrivilegeSends(l, m, i, x);
    } else if cmd == CLOSE_SESSION_CMD {
      CloseSessionSends(l, m, i, x);
    }
  }

  /** Session x is open before each request of the run, and none of them stops the server. */
  predicate KeptOpen(l: Lan, reqs: seq<Request>, i: nat, x: u32)
    requires Shape(l) && AllReadable(reqs)
    decreases |reqs|
  {
    reqs == [] || (Open(l, i, x) && !Halts(l, reqs[0]) && KeptOpen(Next(l, reqs[0]), reqs[1..], i, x))
  }

  /** Besides, it is not re-activated. */
  predicate StaysOpen(l: Lan, reqs: seq<Request>, i: nat, x: u32)
    requires Shape(l) && AllReadable(reqs)
  {
    KeptOpen(l, reqs, i, x) && forall q :: q in reqs ==> !Reactivates(q.m, x)
  }

  /** The numbers sent under id x over a run. */
  function NumbersSent(l: Lan, reqs: seq<Request>, x: u32): seq<u32>
    requires Shape(l) && AllReadable(reqs)
    decreases |reqs|
  {
    if reqs == [] || Halts(l, reqs[0]) then []
    else NumbersOf(PacketsOf(l, reqs[0]), x) + NumbersSent(Next(l, reqs[0]), reqs[1..], x)
  }

  lemma NextSends(l: Lan, q: Request, i: nat, x: u32)
    requires Open(l, i, x) && Readable(q.m) && !Reactivates(q.m, x)
    ensures Sends(l, Next(l, q), i, NumbersOf(PacketsOf(l, q), x))
  {
    hide Step, Sends, NumbersOf, Respond, Reactivates;
    NothingSends(l, i, x);
    if Served(l, q).Done? {
      if q.m.message.netfn == APP_NETFN {
        StepSends(l, q.m, q.rnd, i, x);
      } else if q.other.Data? {
        RespondSends(l, q.m, Unbound, q.other.data, i, x);
      }
    }
  }

  lemma CounterAppend(y: u32, a: nat, b: nat)
    ensures Counter(y, a) + Counter(Iter(y, M32, a), b) == Counter(y, a + b)
  {
    forall k | 0 <= k < b
      ensures Counter(Iter(y, M32, a), b)[k] == Counter(y, a + b)[a + k]
    {
      IterShift(y, M32, a, k);
    }
  }

  /** Over any run that keeps a session open, the packets carrying its id are numbered by
      consecutive values of the skip-zero counter, starting from the session's number. */
  lemma {:induction false} NumbersAreCounter(l: Lan, reqs: seq<Request>, i: nat, x: u32)
    requires i < |l.sessions| && Shape(l) && AllReadable(reqs) && StaysOpen(l, reqs, i, x)
    ensures NumbersSent(l, reqs, x) == Counter(l.sessions[i].xmitSeq, |NumbersSent(l, reqs, x)|)
    decreases |reqs|
  {
    hide Next, PacketsOf, NumbersOf, Inv, Halts;
    if reqs != [] {
      assert reqs[0] in reqs && forall q :: q in reqs[1..] ==> q in reqs;
      NextSends(l, reqs[0], i, x);
      NumbersAreCounter(Next(l, reqs[0]), reqs[1..], i, x);
      var a, b := NumbersOf(PacketsOf(l, reqs[0]), x), NumbersSent(Next(l, reqs[0]), reqs[1..], x);
      CounterAppend(l.sessions[i].xmitSeq, |a|, |b|);
    }
  }

  /** In closed form: the k-th packet of the session carries ((x0 - 1 + k) mod (2^32-1)) + 1.
      None is zero and none repeats within 2^32-1 packets, exactly when the starting value
      is not zero. */
  lemma OutboundNumbers(l: Lan, reqs: seq<Request>, i: nat, x: u32)
    requires i < |l.sessions| && Shape(l) && AllReadable(reqs) && StaysOpen(l, reqs, i, x)
    ensures var ns, x0 := NumbersSent(l, reqs, x), l.sessions[i].xmitSeq;
            && (x0 != 0 ==> forall k :: 0 <= k < |ns| ==> ns[k] == (x0 as int - 1 + k) % 0xFFFF_FFFF + 1)
            && (x0 != 0 ==> forall j, k :: 0 <= j < k < |ns| && k < j + 0xFFFF_FFFF ==> ns[j] != ns[k])
            && (ns != [] ==> (0 in ns <==> x0 == 0))
  {
    hide NumbersSent, StaysOpen;
    NumbersAreCounter(l, reqs, i, x);
    var ns, x0 := NumbersSent(l, reqs, x), l.sessions[i].xmitSeq;
    if x0 != 0 {
      forall k | 0 <= k < |ns|
        ensures ns[k] == (x0 as int - 1 + k) % 0xFFFF_FFFF + 1
      {
        IterClosedForm(x0, k);
      }
      forall j, k | 0 <= j < k < |ns| && k < j + 0xFFFF_FFFF
        ensures ns[j] != ns[k]
      {
        NoRepeat(x0, M32, j, k);
      }
    } else if ns != [] {
      assert ns[0] == Iter(x0, M32, 0);
    }
  }

  // ---------- re-activation ----------

  /** The number a re-activation installs, read at absolute bytes 18 to 21. */
  function Installed(m: Msg): u32
    requires Readable(m)
  {
    Un32(m.data[18..22])
  }

  /** The number its sender asked for, by the layout of the command. */
  function Requested(m: Msg): u32
    requires Readable(m)
  {
    Un32(Args(m, 18, 22))
  }

  /** Which bytes of a datagram those are: without authentication the header's rqSeq and LUN,
      the command and the first two data bytes; with it, four bytes of the auth code. */
  function InstalledBytes(m: Msg): (s: seq<u8>)
    requires Readable(m) && |m.session.authCode| == 16
    ensures |s| == 4
  {
    if m.session.authType == AUTHTYPE_NONE then
      [(4 * m.message.rqSeq as int + m.message.rqLun) % 0x100, m.message.cmd, Arg(m, 0), Arg(m, 1)]
    else m.session.authCode[5..9]
  }

  /** A message that came as a datagram. */
  ghost predicate FromWire(m: Msg) {
    exists pkt :: IsAppRequest(pkt) && m == Arrived(pkt)
  }

  /** A message from the wire, field by field. */
  lemma WireBytes(m: Msg)
    requires FromWire(m)
    ensures Readable(m) && |m.session.authCode| == 16
    ensures m.session.authType == AUTHTYPE_NONE ==>
              && m.dataStart == 20 && m.message.cmd == m.data[19]
              && m.message.rqSeq == m.data[18] / 4 && m.message.rqLun == m.data[18] % 4
    ensures m.session.authType != AUTHTYPE_NONE ==> m.dataStart == 36 && m.session.authCode == m.data[13..29]
  {
    hide ParseRmcp;
    var pkt :| IsAppRequest(pkt) && m == Arrived(pkt);
    ParsedBytes(pkt + Zeros(MSG_BUFFER - |pkt|), |pkt|);
  }

  lemma ParsedBytes(data: seq<u8>, n: nat)
    requires |data| == MSG_BUFFER
    ensures var m := ParseRmcp(Received(data, n));
            && m.data == data && |m.session.authCode| == 16
            && (m.message.netfn != 0 && m.session.authType == AUTHTYPE_NONE ==>
                  && m.dataStart == 20 && m.message.cmd == data[19]
                  && m.message.rqSeq == data[18] / 4 && m.message.rqLun == data[18] % 4)
            && (m.message.netfn != 0 && m.session.authType != AUTHTYPE_NONE ==>
                  m.dataStart == 36 && m.session.authCode == data[13..29])
  {
    hide Un32;
    assert data[14..20][4] == data[18] && data[14..20][5] == data[19];
    SliceOfSlice(data, 4, 30, 9, 25);
  }

  lemma SliceOfSlice(s: seq<u8>, a: nat, b: nat, lo: nat, hi: nat)
    requires a <= b <= |s| && lo <= hi <= b - a
    ensures s[a..b][lo..hi] == s[a + lo..a + hi]
  {
    forall k | 0 <= k < hi - lo
      ensures s[a..b][lo..hi][k] == s[a + lo..a + hi][k]
    {
      assert s[a..b][lo + k] == s[a + (lo + k)];
    }
  }

  lemma SameValue(a: seq<u8>, b: seq<u8>)
    requires |a| == |b| == 4
    ensures Un32(a) == Un32(b) <==> a == b
  {
    BytesOfValue(a);
    BytesOfValue(b);
  }

  /** Re-activation installs the number asked for exactly when the request's header (without
      authentication) or auth code (with it) happens to hold those bytes, and zero exactly
      when an auth code is zero there. */
  lemma ReactivationNumber(m: Msg)
    requires FromWire(m) && m.message.cmd == ACTIVATE_SESSION_CMD
    ensures Readable(m) && |m.session.authCode| == 16
    ensures Installed(m) == Requested(m) <==> InstalledBytes(m) == Args(m, 18, 22)
    ensures Installed(m) == 0 <==> ZeroesNumber(m)
  {
    hide Un32, FromWire, InstalledBytes;
    WireBytes(m);
    InstalledAre(m);
    SameValue(m.data[18..22], Args(m, 18, 22));
    SameValue(m.data[18..22], Zeros(4));
    ZeroValue();
    if m.session.authType == AUTHTYPE_NONE {
      assert m.data[18..22][1] != Zeros(4)[1];
    }
  }

  /** The bytes read are those. */
  lemma InstalledAre(m: Msg)
    requires Readable(m) && |m.session.authCode| == 16
    requires m.session.authType == AUTHTYPE_NONE ==>
               && m.dataStart == 20 && m.message.cmd == m.data[19]
               && m.message.rqSeq == m.data[18] / 4 && m.message.rqLun == m.data[18] % 4
    requires m.session.authType != AUTHTYPE_NONE ==> m.session.authCode == m.data[13..29]
    ensures m.data[18..22] == InstalledBytes(m)
    ensures m.session.authType != AUTHTYPE_NONE ==> InstalledBytes(m) == m.session.authCode[5..9]
  {
    if m.session.authType == AUTHTYPE_NONE {
      Repacked(m.data[18]);
    } else {
      SliceOfSlice(m.data, 13, 29, 5, 9);
    }
  }

  lemma Repacked(b: u8)
    ensures (4 * (b as int / 4) + b as int % 4) % 0x100 == b
  {
  }

  lemma ZeroValue()
    ensures Un32(Zeros(4)) == 0
  {
    assert Value(Zeros(4)[4..]) == 0;
    assert Zeros(4)[1..][1..] == Zeros(4)[2..] && Zeros(4)[2..][1..] == Zeros(4)[3..] && Zeros(4)[3..][1..] == Zeros(4)[4..];
  }

  predicate ZeroesNumber(m: Msg) {
    m.session.authType != AUTHTYPE_NONE && |m.session.authCode| == 16 && m.session.authCode[5..9] == Zeros(4)
  }

  /** A re-activation is answered under the installed number, which the counter goes on from. */
  lemma ReactivationSends(l: Lan, q: Request, i: nat, x: u32)
    requires Open(l, i, x) && Readable(q.m) && Reactivates(q.m, x)
    ensures NumbersOf(PacketsOf(l, q), x) == [Installed(q.m)]
    ensures Open(Next(l, q), i, x) && Next(l, q).sessions[i].xmitSeq == Succ(Installed(q.m), M32)
  {
    hide Packet, Un32, Le32;
    SidResolves(l, i);
    assert SlotOk(l.sessions[i], i);
    NextKeepsInv(l, q);
    var s := l.sessions[i].(xmitSeq := Installed(q.m));
    PacketNumbers(q.m, s, ActivationData(s));
    var pkts := PacketsOf(l, q);
    assert pkts == [Packet(q.m, s, ActivationData(s))];
    assert NumbersOf(pkts[1..], x) == [];
  }

  /** The number of requests before the first re-activation of x. */
  function BeforeFirst(reqs: seq<Request>, x: u32): (n: nat)
    ensures n <= |reqs|
    decreases |reqs|
  {
    if reqs == [] || Reactivates(reqs[0].m, x) then 0 else 1 + BeforeFirst(reqs[1..], x)
  }

  /** Over any run that keeps session x open, re-activations allowed: some packet of x is
      numbered zero exactly when the session started there and sent a packet before its first
      re-activation, or some re-activation came with an auth code that is zero at bytes 5 to 8. */
  lemma {:induction false} ZeroIsSent(l: Lan, reqs: seq<Request>, i: nat, x: u32)
    requires i < |l.sessions| && Shape(l) && AllReadable(reqs) && KeptOpen(l, reqs, i, x)
    requires forall q :: q in reqs && Reactivates(q.m, x) ==> FromWire(q.m)
    ensures 0 in NumbersSent(l, reqs, x) <==>
            || (l.sessions[i].xmitSeq == 0 && NumbersSent(l, reqs[..BeforeFirst(reqs, x)], x) != [])
            || exists q :: q in reqs && Reactivates(q.m, x) && ZeroesNumber(q.m)
    decreases |reqs|
  {
    hide Next, PacketsOf, NumbersOf, Inv, Halts, FromWire, Installed, ZeroesNumber, Reactivates, Iter;
    if reqs != [] {
      var q, rest, l1 := reqs[0], reqs[1..], Next(l, reqs[0]);
      assert q in reqs && forall q' :: q' in reqs <==> q' == q || q' in rest;
      ZeroIsSent(l1, rest, i, x);
      if Reactivates(q.m, x) {
        ReactivatesCmd(q.m, x);
        ReactivationNumber(q.m);
        ReactivationSends(l, q, i, x);
      } else {
        NextSends(l, q, i, x);
        var n := BeforeFirst(reqs, x);
        assert reqs[..n][0] == q && reqs[..n][1..] == rest[..n - 1];
        StartsAtZero(l.sessions[i].xmitSeq, |NumbersOf(PacketsOf(l, q), x)|);
      }
    }
  }

  lemma ReactivatesCmd(m: Msg, x: u32)
    requires Reactivates(m, x)
    ensures m.message.cmd == ACTIVATE_SESSION_CMD
  {
  }

  lemma StartsAtZero(y: u32, n: nat)
    ensures 0 in Counter(y, n) <==> y == 0 && n > 0
    ensures Iter(y, M32, n) == 0 <==> y == 0 && n == 0
  {
    if n > 0 {
      assert Counter(y, n)[0] == Iter(y, M32, 0);
    }
  }

  // ---------- numbers are never zero at rest ----------

  /** No active session stands at number zero. */
  predicate Numbered(l: Lan) {
    forall i :: 0 <= i < |l.sessions| && l.sessions[i].active ==> l.sessions[i].xmitSeq != 0
  }

  /** Activation refuses zero, the counter skips it, and a re-activation's own reply moves past
      the number it installs. */
  lemma NextNumbered(l: Lan, q: Request)
    requires Inv(l) && Numbered(l) && Readable(q.m)
    ensures Numbered(Next(l, q))
  {
    hide Next, PacketsOf, NumbersOf, Un32;
    var l' := Next(l, q);
    NextKeepsInv(l, q);
    forall i | 0 <= i < |l'.sessions| && l'.sessions[i].active
      ensures l'.sessions[i].xmitSeq != 0
    {
      var x := l.sessions[i].sid;
      if !l.sessions[i].active {
        Opening(l, q, i);
      } else if Reactivates(q.m, x) {
        ReactivationSends(l, q, i, x);
      } else {
        NextSends(l, q, i, x);
        IterPositive(l.sessions[i].xmitSeq, |NumbersOf(PacketsOf(l, q), x)|);
      }
    }
  }

  lemma {:induction false} RunNumbered(l: Lan, reqs: seq<Request>)
    requires Inv(l) && Numbered(l) && AllReadable(reqs)
    ensures Numbered(Run(l, reqs))
    decreases |reqs|
  {
    hide Next, Halts, Numbered;
    if reqs != [] {
      NextNumbered(l, reqs[0]);
      NextKeepsInv(l, reqs[0]);
      RunNumbered(Next(l, reqs[0]), reqs[1..]);
    }
  }

  /** From start-up: however a session came about, from any moment at which it is open, a
      packet of it is numbered zero exactly when some re-activation came with an auth code that
      is zero at bytes 5 to 8; without one, its packets are the counter's closed form. */
  lemma NumbersFromStartUp(users: seq<User>, chanNum: u8, chanPrivLimit: u8, before: seq<Request>, reqs: seq<Request>,
                           i: nat, x: u32)
    requires |users| == MAX_USERS + 1 && AllReadable(before) && AllReadable(reqs) && i <= MAX_SESSIONS
    requires KeptOpen(Run(Initial(users, chanNum, chanPrivLimit), before), reqs, i, x)
    requires forall q :: q in reqs && Reactivates(q.m, x) ==> FromWire(q.m)
    ensures var l := Run(Initial(users, chanNum, chanPrivLimit), before);
            && (0 in NumbersSent(l, reqs, x) <==> exists q :: q in reqs && Reactivates(q.m, x) && ZeroesNumber(q.m))
            && ((forall q :: q in reqs ==> !Reactivates(q.m, x)) ==>
                  forall k :: 0 <= k < |NumbersSent(l, reqs, x)| ==>
                    NumbersSent(l, reqs, x)[k] == (l.sessions[i].xmitSeq as int - 1 + k) % 0xFFFF_FFFF + 1)
  {
    hide Run, NumbersSent, FromWire, ZeroesNumber, Reactivates;
    var l0 := Initial(users, chanNum, chanPrivLimit);
    var l := Run(l0, before);
    EveryRunIsConsistent(users, chanNum, chanPrivLimit, before);
    NoneActive(l0.sessions);
    RunNumbered(l0, before);
    if reqs != [] {
      ZeroIsSent(l, reqs, i, x);
      if forall q :: q in reqs ==> !Reactivates(q.m, x) {
        OutboundNumbers(l, reqs, i, x);
      }
    } else {
      NothingSent(l, x);
    }
  }

  lemma NothingSent(l: Lan, x: u32)
    requires Shape(l)
    ensures NumbersSent(l, [], x) == []
  {
  }

  /** An authenticated re-activation of x whose auth code is all zero, asking for number 1. */
  function ZeroingRequest(x: u32): seq<u8> {
    Frame(Head(4, 0, x, 29, CLIENT_RSADDR, Pack(APP_NETFN, 0), CLIENT_RQADDR, Pack(1, 0), ACTIVATE_SESSION_CMD),
          Zeros(18) + [1, 0, 0, 0])
  }

  /** It makes any open session answer under number zero. */
  lemma ZeroingRequestZeroes(l: Lan, i: nat, x: u32, rnd: u32, other: Elsewhere)
    requires Open(l, i, x)
    ensures IsAppRequest(ZeroingRequest(x))
    ensures NumbersOf(PacketsOf(l, Request(Arrived(ZeroingRequest(x)), rnd, other)), x) == [0]
  {
    hide Inv, Pack, Frame, ParseRmcp, Le32, Un32, PacketsOf, NumbersOf, Next;
    var h := Head(4, 0, x, 29, CLIENT_RSADDR, Pack(APP_NETFN, 0), CLIENT_RQADDR, Pack(1, 0), ACTIVATE_SESSION_CMD);
    var payload, pkt := Zeros(18) + [1, 0, 0, 0], ZeroingRequest(x);
    var data := pkt + Zeros(MSG_BUFFER - |pkt|);
    FrameBytes(h, payload, data);
    ParseFrame(h, payload, data, |pkt|);
    PackValue(APP_NETFN, 0);
    var m := Arrived(pkt);
    assert FromWire(m);
    assert m.session.authCode[5..9] == Zeros(4);
    ReactivationNumber(m);
    ReactivationSends(l, Request(m, rnd, other), i, x);
  }
}
