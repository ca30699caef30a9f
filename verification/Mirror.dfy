/** A line card's requests at the central controller: what a received packet does to its
    records, and retried pushes. */
module Mirror {
  import opened Bits
  import opened Codes
  import opened Wire
  import opened Sessions
  import opened Client
  import opened Handshake
  import SessionInvariant
  import opened LanServ
  import opened Sdr
  import opened SdrList
  import opened Sensors

  // ---------- the retry loop ----------

  /** The add-SDR message carried by a packet. */
  function PayloadOf(pkt: seq<u8>): (p: seq<u8>)
    requires |pkt| <= MSG_BUFFER && Readable(Arrived(pkt))
    ensures |p| == RECORD_BYTES
  {
    Args(Arrived(pkt), 0, RECORD_BYTES)
  }

  /** The packet is an add-SDR request. */
  predicate IsAdd(pkt: seq<u8>) {
    |pkt| <= MSG_BUFFER && Arrived(pkt).message.netfn == STORAGE_NETFN && Arrived(pkt).message.cmd == ADD_SDR_CMD
  }

  /** Whether a session id gets a reply the client can read: outside any session and on a
      session without auth codes it does; a closed session gets none; an auth code shifts the
      reply so that it is not accepted. */
  function OnSession(l: Lan, sid: u32): (s: Server)
    requires Shape(l)
    ensures s.AnswersFirst? ==> s.n == 0
  {
    var v := SidToSession(l.sessions, sid);
    if sid == 0 then Answers
    else if v.Unbound? then AnswersFirst(0)
    else if l.sessions[v.i].authtype != AUTHTYPE_NONE then Refuses
    else Answers
  }

  /** What becomes of a three-byte reply, which leaves the session as it was. */
  lemma ReplyOnSession(l: Lan, m: Msg, reply: seq<u8>)
    requires SessionInvariant.Inv(l) && m.message.cmd == ADD_SDR_CMD && |reply| == 3 && reply[0] == 0
    ensures var r := Respond(l, m, Unbound, reply);
            && SessionInvariant.Inv(r.lan) && OnSession(r.lan, m.session.sid) == OnSession(l, m.session.sid)
            && (OnSession(l, m.session.sid).AnswersFirst? <==> r.sent == []) && |r.sent| <= 1
            && (r.sent != [] ==>
                  && |r.sent[0]| <= MAX_MSG_RETURN_DATA
                  && (AcceptsAddSdr(ReplyBuffer(r.sent[0])) <==> OnSession(l, m.session.sid).Answers?))
  {
    hide Packet, ReplyBuffer, AcceptsAddSdr;
    var r := Respond(l, m, Unbound, reply);
    SessionInvariant.RespondKept(l, m, Unbound, reply);
    SessionInvariant.EffectKeepsInv(l, r.lan, SessionInvariant.Kept);
    assert SessionInvariant.SlotOk(l.sessions[0], 0);
    var v := SidToSession(l.sessions, m.session.sid);
    PacketHolds(m, BLANK.(active := true), reply);
    if v.Slot? {
      assert SessionInvariant.SlotOk(l.sessions[v.i], v.i);
      PacketHolds(m, l.sessions[v.i], reply);
    }
  }

  lemma PacketHolds(m: Msg, s: Session, reply: seq<u8>)
    requires |reply| == 3 && reply[0] == 0 && m.message.cmd == ADD_SDR_CMD
    ensures |Packet(m, s, reply)| <= MAX_MSG_RETURN_DATA
    ensures AcceptsAddSdr(ReplyBuffer(Packet(m, s, reply))) <==> s.authtype == AUTHTYPE_NONE
  {
    hide Frame, Pack, Le32;
    var h, d := ResponseHead(m, s.authtype, s.xmitSeq, s.sid, 3), ReplyBuffer(Packet(m, s, reply));
    FrameBytes(h, reply, d);
    if s.authtype == AUTHTYPE_NONE {
      assert d[20] == d[20..23][0];
    } else {
      AuthZeros(h, reply, d);
    }
  }

  /** A packet with an auth code has a zero where the reply length would be. */
  lemma AuthZeros(h: Head, payload: seq<u8>, d: seq<u8>)
    requires h.auth != AUTHTYPE_NONE && Frame(h, payload) <= d
    ensures d[13] == 0
  {
    hide Le32;
    assert d[13] == Frame(h, payload)[13] == SessionHeader(h)[13];
  }

  /** The handler's reply has three bytes. */
  lemma AddSdrReplies(r: Repo, p: seq<u8>)
    requires Addable(r, p)
    ensures AddSdr(r, p).reply.Some? ==> |AddSdr(r, p).reply.value| == 3 && AddSdr(r, p).reply.value[0] == 0
  {
    hide NewRecord;
  }

  /** What one arrival of a packet does to the controller's records. */
  function Handled(mm: Repo, pkt: seq<u8>): Repo {
    if IsAdd(pkt) && Addable(mm, PayloadOf(pkt)) then AddSdr(mm, PayloadOf(pkt)).repo
    else mm
  }

  /** And n arrivals. */
  function HandledTimes(mm: Repo, pkt: seq<u8>, n: nat): Repo
    decreases n
  {
    if n == 0 then mm else HandledTimes(Handled(mm, pkt), pkt, n - 1)
  }

  /** For a repeatable message every arrival after the first changes nothing. */
  lemma {:induction false} HandledOnce(mm: Repo, pkt: seq<u8>, n: nat)
    requires IsAdd(pkt) && Addable(mm, PayloadOf(pkt)) && Repeatable(mm, PayloadOf(pkt)) && 0 < n
    ensures HandledTimes(mm, pkt, n) == AddSdr(mm, PayloadOf(pkt)).repo
    decreases n
  {
    hide AddSdr, Addable, Repeatable, Arrived;
    if n > 1 {
      SecondDelivery(mm, PayloadOf(pkt));
      HandledOnce(Handled(mm, pkt), pkt, n - 1);
    } else {
      assert HandledTimes(Handled(mm, pkt), pkt, 0) == Handled(mm, pkt);
    }
  }

  /** An arrival keeps later arrivals possible, and answered or not as the first was. */
  lemma AnswersAlike(r: Repo, p: seq<u8>)
    requires Addable(r, p)
    ensures Addable(AddSdr(r, p).repo, p)
    ensures AddSdr(AddSdr(r, p).repo, p).reply.Some? <==> AddSdr(r, p).reply.Some?
  {
    StillAddable(r, p);
    var i := First(r.entries, p[6], p[7], 0);
    if p[46] != 0 && i < |r.entries| {
      SameFirst(r.entries, i, p[46], p[6], p[7]);
    }
  }

  /** What the tries of a push can meet: a buffer read instead of the reply is not acceptable. */
  predicate PushFates(fates: seq<Fate>) {
    |fates| == MAX_RETRIES
    && forall j :: 0 <= j < MAX_RETRIES && fates[j].Garbled? ==> |fates[j].d| == MAX_MSG_RETURN_DATA && !AcceptsAddSdr(fates[j].d)
  }

  /** The two lists share no node. */
  ghost predicate Apart(a: SdrsT, b: SdrsT)
    reads a, b
  {
    a != b && forall i :: 0 <= i < |b.nodes| ==> b.nodes[i] !in a.nodes
  }

  /** How the controller meets a push: an update of an unknown sensor is not answered, and
      anything else as the session allows. */
  function MeetPush(l: Lan, mm: Repo, pkt: seq<u8>): Server
    requires Shape(l) && |pkt| <= MSG_BUFFER && Addable(mm, PayloadOf(pkt))
  {
    if AddSdr(mm, PayloadOf(pkt)).reply.None? then AnswersFirst(0) else OnSession(l, Arrived(pkt).session.sid)
  }

  /** Send a push up to three times, until a reply is accepted.  The tries, and how the
      controller meets the push, decide how the loop ends and how many arrive; the records end
      as after that many arrivals. */
  method SendWithRetry(mm: SdrsT, server: LanServT, pkt: seq<u8>, fates: seq<Fate>) returns (end: End)
    requires IsAdd(pkt) && PushFates(fates)
    requires mm.Valid() && Addable(mm.View(), PayloadOf(pkt)) && SessionInvariant.Inv(server.View())
    modifies mm, mm.nodes, server, server.sessions
    ensures mm.Valid() && SessionInvariant.Inv(server.View())
    ensures var s := MeetPush(old(server.View()), old(mm.View()), pkt);
            && end == Verdict(s, 0, fates)
            && mm.View() == HandledTimes(old(mm.View()), pkt, Arrivals(s, fates))
            && (Repeatable(old(mm.View()), PayloadOf(pkt)) ==>
                  mm.View() == if Arrivals(s, fates) == 0 then old(mm.View()) else AddSdr(old(mm.View()), PayloadOf(pkt)).repo)
  {
    hide SdrsT.Valid, Views, AddSdr, SessionInvariant.Inv, Addable, Repeatable, Arrived, AcceptsAddSdr, OnSession;
    InvShape(server.View());
    ghost var r, p, s := mm.View(), PayloadOf(pkt), MeetPush(server.View(), mm.View(), pkt);
    if Repeatable(r, p) && Arrivals(s, fates) > 0 {
      HandledOnce(r, pkt, Arrivals(s, fates));
    }
    ghost var before, a := mm.nodes, 0;
    var try := 0;
    while try < MAX_RETRIES
      invariant 0 <= try <= MAX_RETRIES
      invariant mm.Valid() && SessionInvariant.Inv(server.View()) && Shape(server.View()) && Addable(mm.View(), p)
      invariant MeetPush(server.View(), mm.View(), pkt) == s && Verdict(s, a, fates[try..]) == Verdict(s, 0, fates)
      invariant HandledTimes(mm.View(), pkt, Arrivals(s, fates[try..])) == HandledTimes(r, pkt, Arrivals(s, fates))
      invariant |before| <= |mm.nodes| && mm.nodes[..|before|] == before && forall k :: |before| <= k < |mm.nodes| ==> fresh(mm.nodes[k])
    {
      ghost var fate, rest := fates[try], fates[try + 1..];
      assert fates[try..][0] == fate && fates[try..][1..] == rest;
      var answered, stateDone := false, false;
      if Reaches(fates[try]) {
        AnswersAlike(mm.View(), p);
        answered, stateDone := Attempt(mm, server, pkt, fates[try].Delivered?);
        a := a + 1;
      }
      if fates[try].Silent? || (fates[try].Delivered? && !answered) {
        return Blocked;
      }
      if fates[try].Garbled? {
        stateDone := AcceptsAddSdr(fates[try].d);
      }
      if stateDone {
        return Accepted;
      }
      try := try + 1;
    }
    assert fates[try..] == [];
    end := GaveUp;
  }

  /** One arrival: the server handles the message and answers; the client may read the reply. */
  method Attempt(mm: SdrsT, server: LanServT, pkt: seq<u8>, replyRead: bool) returns (answered: bool, stateDone: bool)
    requires IsAdd(pkt) && mm.Valid() && Addable(mm.View(), PayloadOf(pkt))
    requires SessionInvariant.Inv(server.View()) && Shape(server.View())
    modifies mm, mm.nodes, server, server.sessions
    ensures mm.Valid() && SessionInvariant.Inv(server.View()) && Shape(server.View())
    ensures mm.View() == AddSdr(old(mm.View()), PayloadOf(pkt)).repo
    ensures mm.nodes == old(mm.nodes) || (|mm.nodes| == |old(mm.nodes)| + 1 && mm.nodes[..|old(mm.nodes)|] == old(mm.nodes) && fresh(mm.nodes[|old(mm.nodes)|]))
    ensures OnSession(server.View(), Arrived(pkt).session.sid) == OnSession(old(server.View()), Arrived(pkt).session.sid)
    ensures var s := MeetPush(old(server.View()), old(mm.View()), pkt);
            (answered <==> !s.AnswersFirst?) && (stateDone <==> replyRead && s.Answers?)
  {
    hide Linked, Views, AddSdr, SessionInvariant.Inv, Addable, ParseRmcp, AcceptsAddSdr, Respond, OnSession;
    var msg := new MsgT(pkt);
    msg.IpmiParseRmcpMsg();
    var m := msg.View();
    AddSdrReplies(mm.View(), PayloadOf(pkt));
    var stopped, reply := mm.AddSdrMessage(Args(m, 0, RECORD_BYTES));
    if reply.None? {
      return false, false;
    }
    ReplyOnSession(server.View(), m, reply.value);
    InvShape(Respond(server.View(), m, Unbound, reply.value).lan);
    var before := |server.sent|;
    stopped := server.HandleMsg(m, 0, Data(reply.value));
    answered := |server.sent| > before;
    stateDone := answered && replyRead && AcceptsAddSdr(ReplyBuffer(server.sent[|server.sent| - 1]));
  }

  lemma InvShape(l: Lan)
    requires SessionInvariant.Inv(l)
    ensures Shape(l)
  {
  }

  /** The session a handshake leaves is one the client's pushes are answered on. */
  lemma AttachedAnswers(l0: Lan, l: Lan, c: Ctx, n: nat, i: nat, data: seq<u8>, v: u8)
    requires Attached(l0, l, c, n, i) && |data| == RECORD_BYTES
    ensures Shape(l) && OnSession(l, Arrived(PushRequest(c, data, v)).session.sid) == Answers
  {
    hide Arrived, PushRequest;
    PushArrives(c, data, v);
    assert SessionInvariant.SlotOk(l.sessions[i], i);
  }

  // ---------- a card's own steps, with their pushes ----------

  /** The unpatched request is a push of the byte already there. */
  lemma AddIsPush(c: Ctx, data: seq<u8>)
    requires |data| == RECORD_BYTES
    ensures AddSdrRequest(c, data) == PushRequest(c, data, data[46])
  {
    hide RequestPacket, Frame, Pack, Le32;
    RequestWhole(AddSdrHead(c), data);
    FrameBytes(AddSdrHead(c), data, AddSdrRequest(c, data));
    assert AddSdrRequest(c, data)[66] == AddSdrRequest(c, data)[20..84][46];
  }

  /** A push of a record that names its sensor arrives as an add-SDR message for it. */
  predicate PacketOk(pkt: seq<u8>, num: u8, v: u8) {
    && IsAdd(pkt)
    && var p := PayloadOf(pkt);
       p[6] == 0 && p[7] == num && p[46] == v && LengthOf(p) + 2 <= RECORD_BYTES
  }

  lemma PushPacketOk(c: Ctx, e: Record, v: u8)
    requires SelfDescribed(e)
    ensures PacketOk(PushRequest(c, e.data, v), e.sensNum, v)
    ensures e.data[46] == v ==> AddSdrRequest(c, e.data) == PushRequest(c, e.data, v)
  {
    hide PushRequest, AddSdrRequest, Arrived;
    PushArrives(c, e.data, v);
    if e.data[46] == v {
      AddIsPush(c, e.data);
    }
  }

  lemma PacketAddable(mm: Repo, pkt: seq<u8>, num: u8, v: u8)
    requires PacketOk(pkt, num, v)
    ensures Addable(mm, PayloadOf(pkt)) && Repeatable(mm, PayloadOf(pkt))
  {
    hide Arrived;
  }

  /** Register a card's k-th sensor and push its record until the controller answers; the
      program panics where the loop gives up. */
  method RegisterAndPush(board: BoardT, mm: SdrsT, server: LanServT, k: nat, fates: seq<Fate>) returns (end: End)
    requires 0 < board.repo.card < 16 && 1 <= k <= 4 && board.repo.nextFreeEntryId < board.repo.maxSdrCount
    requires board.repo.Valid() && mm.Valid() && Apart(board.repo, mm)
    requires PushFates(fates)
    requires SessionInvariant.Inv(server.View())
    modifies board`sensors, board`outbox, board.client, board.repo, board.repo.nodes, mm, mm.nodes, server, server.sessions
    ensures board.repo.Valid() && board.View(0) == Registered(old(board.View(0)), k)
    ensures mm.Valid() && SessionInvariant.Inv(server.View()) && Shape(old(server.View())) && |LastSent(board.View(0))| <= MSG_BUFFER
    ensures var s := OnSession(old(server.View()), Arrived(LastSent(board.View(0))).session.sid);
            end == Verdict(s, 0, fates) && mm.View() == HandledTimes(old(mm.View()), LastSent(board.View(0)), Arrivals(s, fates))
  {
    hide SdrsT.Valid, Views, Registered, OnSession, Arrived, SessionInvariant.Inv, AddSdr, Addable, Repeatable, PushFates, SensorNum;
    ghost var b := board.View(0);
    InvShape(server.View());
    RegisterSends(b, k);
    board.Register(k);
    var pkt := board.outbox[|board.outbox| - 1];
    PacketAddable(mm.View(), pkt, SensorNum(b.repo.card, k), 0);
    AddAnswers(mm.View(), PayloadOf(pkt));
    end := SendWithRetry(mm, server, pkt, fates);
  }

  /** The request a board handed over last. */
  function LastSent(b: Board): seq<u8> {
    if b.outbox == [] then [] else b.outbox[|b.outbox| - 1]
  }

  lemma RegisterSends(b: Board, k: nat)
    requires 0 < b.repo.card < 16 && 1 <= k <= 4 && b.repo.nextFreeEntryId < b.repo.maxSdrCount
    ensures var r := Registered(b, k); r.outbox != [] && PacketOk(LastSent(r), SensorNum(b.repo.card, k), 0)
  {
    hide LocalRecord, Body, IdString, AddSdrRequest, PacketOk, SensorNum;
    StartRecordDescribed(b.repo, k);
    BodyMakeable(b.repo.card, k);
    PushPacketOk(b.ctx, LocalRecord(b.repo, Body(b.repo.card, k), IdString(b.repo.card, k)), 0);
  }

  /** An add is always answered. */
  lemma AddAnswers(r: Repo, p: seq<u8>)
    requires Addable(r, p) && p[46] == 0
    ensures AddSdr(r, p).reply.Some?
  {
  }

  /** Visit one registered sensor and push its reading; a push that gives up is only noted.
      For a sensor the controller does not know, a non-zero reading is never answered. */
  method VisitAndPush(board: BoardT, mm: SdrsT, server: LanServT, num: u8, rnd: nat, previous: u8, fates: seq<Fate>)
    returns (end: End, value: u8)
    requires 0 < board.repo.card && Visitable(board.View(previous), 0, num) && (0, num) in board.sensors
    requires SelfDescribed(board.repo.View().entries[First(board.repo.View().entries, 0, num, 0)])
    requires board.repo.Valid() && mm.Valid() && Apart(board.repo, mm)
    requires PushFates(fates)
    requires SessionInvariant.Inv(server.View())
    modifies board`sensors, board`outbox, board.client, board.repo.nodes, mm, mm.nodes, server, server.sessions
    ensures board.repo.Valid() && board.View(value) == Visit(old(board.View(previous)), 0, num, rnd)
    ensures mm.Valid() && SessionInvariant.Inv(server.View()) && Shape(old(server.View())) && |LastSent(board.View(value))| <= MSG_BUFFER
    ensures var s := if value == 0 || Lookup(old(mm.View()), num).Some?
                     then OnSession(old(server.View()), Arrived(LastSent(board.View(value))).session.sid) else AnswersFirst(0);
            end == Verdict(s, 0, fates) && mm.View() == HandledTimes(old(mm.View()), LastSent(board.View(value)), Arrivals(s, fates))
  {
    hide SdrsT.Valid, Views, Visit, OnSession, Arrived, SessionInvariant.Inv, AddSdr, Addable, Repeatable, PushFates, Lookup;
    ghost var b := board.View(previous);
    InvShape(server.View());
    VisitSends(b, num, rnd);
    var found;
    found, value := board.VisitSensor(0, num, rnd, previous);
    var pkt := board.outbox[|board.outbox| - 1];
    PacketAddable(mm.View(), pkt, num, value);
    UpdateAnswers(mm.View(), PayloadOf(pkt), num);
    end := SendWithRetry(mm, server, pkt, fates);
  }

  lemma VisitSends(b: Board, num: u8, rnd: nat)
    requires 0 < b.repo.card && Visitable(b, 0, num) && (0, num) in b.table
    requires SelfDescribed(b.repo.entries[First(b.repo.entries, 0, num, 0)])
    ensures var r := Visit(b, 0, num, rnd);
            && r.outbox != [] && PacketOk(LastSent(r), num, r.value)
            && (0, num) in r.table && r.table[(0, num)].value == r.value == Simulated(num, rnd, b.value)
  {
    hide PushRequest, PacketOk, Simulated, SelfDescribed;
    PushPacketOk(b.ctx, b.repo.entries[First(b.repo.entries, 0, num, 0)], Simulated(num, rnd, b.value));
  }

  lemma UpdateAnswers(r: Repo, p: seq<u8>, num: u8)
    requires Addable(r, p) && p[6] == 0 && p[7] == num
    ensures AddSdr(r, p).reply.Some? <==> p[46] == 0 || Lookup(r, num).Some?
  {
  }

  // ---------- what the controller shows ----------

  /** The value the controller holds for a sensor of logical unit zero. */
  function Lookup(r: Repo, num: u8): Option<u8> {
    var i := First(r.entries, 0, num, 0);
    if i == |r.entries| then None else Some(r.entries[i].value)
  }

  /** What one sensor's readings make of its value: an add registers it, a non-zero reading
      of a registered sensor replaces it. */
  function Shown(o: Option<u8>, vs: seq<u8>): Option<u8>
    decreases |vs|
  {
    if vs == [] then o
    else Shown(if vs[0] == 0 then (if o.None? then Some(0) else o) else (if o.None? then None else Some(vs[0])), vs[1..])
  }

  function LastNonZero(vs: seq<u8>, otherwise: u8): u8 {
    if vs == [] then otherwise
    else if vs[|vs| - 1] != 0 then vs[|vs| - 1]
    else LastNonZero(vs[..|vs| - 1], otherwise)
  }

  lemma {:induction false} ShownKnown(v: u8, vs: seq<u8>)
    ensures Shown(Some(v), vs) == Some(LastNonZero(vs, v))
    decreases |vs|
  {
    if vs != [] {
      var w := if vs[0] == 0 then v else vs[0];
      ShownKnown(w, vs[1..]);
      LastNonZeroCons(vs, v);
    }
  }

  lemma {:induction false} LastNonZeroCons(vs: seq<u8>, v: u8)
    requires vs != []
    ensures LastNonZero(vs, v) == LastNonZero(vs[1..], if vs[0] == 0 then v else vs[0])
    decreases |vs|
  {
    if |vs| > 1 {
      LastNonZeroCons(vs[..|vs| - 1], v);
      assert vs[..|vs| - 1][1..] == vs[1..][..|vs| - 2];
    }
  }

  /** One message moves only its own sensor's value. */
  lemma AddSdrShows(r: Repo, p: seq<u8>, num: u8)
    requires Addable(r, p) && p[6] == 0
    ensures Lookup(AddSdr(r, p).repo, num) == if p[7] == num then Shown(Lookup(r, num), [p[46]]) else Lookup(r, num)
  {
    hide Le16;
    var i := First(r.entries, 0, p[7], 0);
    if p[46] == 0 {
      if i == |r.entries| {
        FirstAppended(r.entries, NewRecord(r, p), 0, num);
      }
    } else if i < |r.entries| {
      SameFirst(r.entries, i, p[46], 0, num);
    }
    var o := Lookup(r, num);
    var o1 := if p[46] == 0 then (if o.None? then Some(0) else o) else (if o.None? then None else Some(p[46]));
    assert Shown(o1, []) == o1;
    assert Shown(o, [p[46]]) == Shown(o1, [p[46]][1..]);
  }

  lemma ShownNothing(o: Option<u8>)
    ensures Shown(o, []) == o
  {
  }

  lemma {:induction false} ShownConcat(o: Option<u8>, v: u8, vs: seq<u8>)
    ensures Shown(o, [v] + vs) == Shown(Shown(o, [v]), vs)
  {
    assert ([v] + vs)[1..] == vs;
    assert [v][1..] == [];
    var o1 := if v == 0 then (if o.None? then Some(0) else o) else (if o.None? then None else Some(v));
    assert Shown(o1, []) == o1;
  }

  /** One arrival of a push moves the value shown for its own sensor only. */
  lemma HandledShows(mm: Repo, pkt: seq<u8>, at: u8, v: u8, num: u8)
    requires PacketOk(pkt, at, v)
    ensures Lookup(Handled(mm, pkt), num) == if at == num then Shown(Lookup(mm, num), [v]) else Lookup(mm, num)
  {
    hide Arrived, Lookup, AddSdr, Addable, Shown;
    PacketAddable(mm, pkt, at, v);
    AddSdrShows(mm, PayloadOf(pkt), num);
  }
}
