/** The client as the program runs it: build a request, send it, read and check the reply,
    retry. */
module Connection {
  import opened Bits
  import opened Wire
  import opened Sessions
  import opened Client
  import opened Handshake
  import opened Establish
  import opened LanServ
  import opened SessionInvariant

  /** Three tries of one state: what is read instead of the reply is not acceptable, and other
      handlers' replies fit the server's buffer. */
  predicate Faithful(st: State, tries: seq<Try>) {
    && |tries| == MAX_RETRIES && AllServable(tries)
    && forall j :: 0 <= j < MAX_RETRIES ==>
         && Brief(tries[j].others)
         && (tries[j].fate.Garbled? ==> |tries[j].fate.d| == MAX_MSG_RETURN_DATA && !Accepts(st, tries[j].fate.d))
  }

  class ClientT {
    var ctx: Ctx

    constructor ()
      ensures ctx == Ctx(1, Zeros(16), 0, 0, 0, 0, 0)
    {
      ctx := Ctx(1, Zeros(16), 0, 0, 0, 0, 0);
    }

    /** The build function of a state. */
    method BuildMsg(st: State) returns (msg: seq<u8>)
      requires |ctx.challengeStr| == 16
      modifies this
      ensures msg == RequestMsg(old(ctx), st) && ctx == Built(old(ctx), st)
    {
      hide RequestPacket, RequestHead, Padded, Le32;
      var cmdData: seq<u8>;
      match st {
        case AuthCap =>
          cmdData := [0x0E, 0x03];
          msg := ClientBuildMsg(cmdData, |cmdData|, 0x09, 0, 0, 0, APP_NETFN, 0, ctx.rqSeq, GET_CHANNEL_AUTH_CAPABILITIES_CMD);
        case Challenge =>
          cmdData := [0x00] + Padded(IPMIUSR);
          msg := ClientBuildMsg(cmdData, |cmdData|, 0x18, 0, 0, 0, APP_NETFN, 0, ctx.rqSeq, GET_SESSION_CHALLENGE_CMD);
        case Activate =>
          cmdData := [0x00, 0x03] + ctx.challengeStr + Le32(INITIAL_OUTBOUND_SEQ);
          msg := ClientBuildMsg(cmdData, |cmdData|, 0x1D, 0, ctx.tempSessionId, 0, APP_NETFN, 0, ctx.rqSeq, ACTIVATE_SESSION_CMD);
        case SetPriv =>
          cmdData := [ctx.maxPrivLevel];
          msg := ClientBuildMsg(cmdData, |cmdData|, 0x08, ctx.sessionSeq, ctx.sessionId, 0, APP_NETFN, 0, ctx.rqSeq,
                                SET_SESSION_PRIVILEGE_CMD);
      }
      assert cmdData[..|cmdData|] == CmdData(ctx, st);
      ctx := NextRqSeq(ctx);
      if st.SetPriv? {
        ctx := ctx.(sessionSeq := (ctx.sessionSeq + 1) % 0x1_0000_0000);
      }
    }

    /** The add-SDR request for a record. */
    method AddSdrBuildMsg(data: seq<u8>) returns (msg: seq<u8>)
      requires |data| == 64
      modifies this
      ensures msg == AddSdrRequest(old(ctx), data) && ctx == AddSdrBuilt(old(ctx))
    {
      hide RequestPacket;
      msg := ClientBuildMsg(data, |data|, 70, ctx.sessionSeq, ctx.sessionId, 0, STORAGE_NETFN, 0, ctx.rqSeq, ADD_SDR_CMD);
      assert data[..|data|] == data;
      ctx := NextRqSeq(ctx).(sessionSeq := (ctx.sessionSeq + 1) % 0x1_0000_0000);
    }

    /** The parse function of a state. */
    method ParseRsp(st: State, data: seq<u8>) returns (stateDone: bool)
      requires |data| == MAX_MSG_RETURN_DATA
      modifies this
      ensures stateDone == Accepts(st, data) && ctx == Parsed(old(ctx), st, data)
    {
      if !BasicMsgCheck(data) {
        return false;
      }
      var cmdOffset := 19;
      if data[13] == ExpectedLength(st) && data[cmdOffset] == CommandOf(st) && data[cmdOffset + 1] == 0 {
        match st {
          case AuthCap =>
          case Challenge =>
            ctx := ctx.(tempSessionId := Un32(data[cmdOffset + 2..cmdOffset + 6]),
                        challengeStr := data[cmdOffset + 6..cmdOffset + 22]);
          case Activate =>
            ctx := ctx.(sessionId := Un32(data[cmdOffset + 3..cmdOffset + 7]),
                        sessionSeq := Un32(data[cmdOffset + 7..cmdOffset + 11]), maxPrivLevel := data[cmdOffset + 11]);
          case SetPriv =>
            ctx := ctx.(privLevel := data[cmdOffset + 2]);
        }
        return true;
      }
      return false;
    }

    /** Send a request, read a datagram, and check it.  Without anything to read the call
        blocks. */
    method ReqRsp(server: LanServT, msgData: seq<u8>, st: State, rnd: u32, fate: Fate, ghost r: Result)
      returns (stateDone: bool, blocked: bool)
      requires Shape(server.View()) && Serves(server.View(), msgData, rnd, r)
      requires fate.Garbled? ==> |fate.d| == MAX_MSG_RETURN_DATA
      modifies this, server, server.sessions
      ensures server.Did(old(server.sent), if Reaches(fate) then r else Result(old(server.View()), []))
      ensures blocked <==> fate.Silent? || (fate.Delivered? && r.sent == [])
      ensures if fate.Failed? || blocked then !stateDone && ctx == old(ctx)
              else
                var d := if fate.Garbled? then fate.d else ReplyBuffer(r.sent[|r.sent| - 1]);
                stateDone == Accepts(st, d) && ctx == Parsed(old(ctx), st, d)
      ensures !stateDone ==> ctx == old(ctx)
    {
      hide Step, Accepts, Arrived, Pong;
      stateDone, blocked := false, false;
      var before := |server.sent|;
      if Reaches(fate) {
        NoPong(msgData);
        var stopped := server.HandleDatagram(msgData, rnd, Silence);
      }
      match fate {
        case Failed(_) =>
        case Garbled(_, d) =>
          stateDone := ParseRsp(st, d);
        case Silent(_) =>
          blocked := true;
        case Delivered =>
          if |server.sent| == before {
            blocked := true;
          } else {
            stateDone := ParseRsp(st, ReplyBuffer(server.sent[|server.sent| - 1]));
          }
      }
    }

    /** Walk the state table, with up to three tries a state, at a server that serves other
        clients in between; the program panics where the walk gives up.  Both ends go where the
        walk takes them.  When it is done the client holds a session at privilege 3.  With the
        server to itself it is done exactly when each state gets a reply through before any
        silence and there is room for every activation that arrives; each of those opened one
        session, and sessions open before are untouched in every case. */
    method EstablishSession(server: LanServT, rnd: u32, tries: seq<seq<Try>>) returns (end: End)
      requires SessionInvariant.Inv(server.View()) && Configured(server.View()) && |ctx.challengeStr| == 16
      requires |tries| == 4 && forall k :: 0 <= k < 4 ==> Faithful(StateAt(k), tries[k])
      modifies this, server, server.sessions
      ensures Shape(old(server.View())) && AllStates(tries)
      ensures Where(end, server.View(), ctx) == Reached(old(server.View()), old(ctx), tries, rnd, 4)
      ensures end.Accepted? ==>
                Shape(server.View()) && exists i: nat :: Usable(server.View(), ctx, i) && server.View().sessions[i].priv == ctx.privLevel == 3
      ensures Alone(tries) ==> AloneOutcome(old(server.View()), Where(end, server.View(), ctx), tries)
    {
      hide SessionInvariant.Inv, Configured, StateLoop, Reached, Usable, AloneOutcome, Alone;
      ghost var l, c := server.View(), ctx;
      FitsAtStart(l, c);
      ghost var i := DoneHolds(l, c, tries, rnd);
      if Alone(tries) {
        AloneWalk(l, c, tries, rnd);
      }
      end := Accepted;
      ReachedStep(l, c, tries, rnd, 0);
      for idx := 0 to 4
        invariant Where(end, server.View(), ctx) == Reached(l, c, tries, rnd, idx)
        invariant end.Accepted?
      {
        ghost var q := ReachedFits(l, c, tries, rnd, idx);
        FitsShape(server.View(), ctx, idx, q);
        ReachedStep(l, c, tries, rnd, idx);
        end := RunState(server, idx, rnd, tries[idx], q);
        if !end.Accepted? {
          ReachedStays(l, c, tries, rnd, idx + 1);
          return;
        }
      }
      ghost var q := ReachedFits(l, c, tries, rnd, 4);
      FitsShape(server.View(), ctx, 4, q);
    }

    /** One state of the table: build once, send until accepted or out of tries. */
    method RunState(server: LanServT, k: nat, rnd: u32, tries: seq<Try>, ghost q: u32) returns (end: End)
      requires k < 4 && Faithful(StateAt(k), tries) && Fits(server.View(), ctx, k, q) && Shape(server.View())
      modifies this, server, server.sessions
      ensures Where(end, server.View(), ctx) == StateLoop(old(server.View()), old(ctx), k, tries, rnd)
    {
      hide Built, RequestMsg, Accepts, Parsed, Run, Stopped, Serves, Fits, StateLoop, Verdict;
      ghost var l, c := server.View(), ctx;
      var st := StateAt(k);
      FitsShape(l, c, k, q);
      assert tries[0..] == tries;
      var msgData := BuildMsg(st);
      var try := 0;
      while try < MAX_RETRIES
        invariant 0 <= try <= MAX_RETRIES && ctx == Built(c, st)
        invariant Fits(server.View(), c, k, q) && Shape(server.View()) && AllServable(tries[try..])
        invariant StateLoop(server.View(), c, k, tries[try..], rnd) == StateLoop(l, c, k, tries, rnd)
      {
        ghost var r := RequestServed(server.View(), c, k, q, tries, try, rnd);
        TryStep(server.View(), c, k, tries, try, rnd, r);
        var stopped := server.ServeRequests(tries[try].others);
        if stopped {
          end := Unanswered(tries[try..]);
          return;
        }
        var stateDone, blocked := ReqRsp(server, msgData, st, rnd, tries[try].fate, r);
        if blocked {
          end := Blocked;
          return;
        }
        if stateDone {
          end := Accepted;
          return;
        }
        try := try + 1;
      }
      assert tries[try..] == [];
      LoopEmpty(server.View(), c, k, rnd);
      end := GaveUp;
    }
  }

  /** The tries left at a server that is gone. */
  method Unanswered(tries: seq<Try>) returns (end: End)
    ensures end == Verdict(AnswersFirst(0), 0, FatesOf(tries))
  {
    var fates := FatesOf(tries);
    ghost var a := 0;
    assert fates[0..] == fates;
    for j := 0 to |tries|
      invariant Verdict(AnswersFirst(0), a, fates[j..]) == Verdict(AnswersFirst(0), 0, fates)
    {
      assert fates[j..][1..] == fates[j + 1..];
      if fates[j].Silent? || fates[j].Delivered? {
        return Blocked;
      }
      a := if Reaches(fates[j]) then a + 1 else a;
    }
    end := GaveUp;
  }

  lemma FitsAtStart(l: Lan, c: Ctx)
    requires SessionInvariant.Inv(l) && Configured(l) && |c.challengeStr| == 16
    ensures Fits(l, c, 0, 0) && Shape(l)
  {
  }

  lemma FitsShape(l: Lan, c: Ctx, k: nat, q: u32)
    requires Fits(l, c, k, q)
    ensures Shape(l) && |c.challengeStr| == 16
  {
  }

  lemma ReachedStep(l: Lan, c: Ctx, tries: seq<seq<Try>>, rnd: u32, k: nat)
    requires Shape(l) && AllStates(tries) && k < 4
    ensures Reached(l, c, tries, rnd, 0) == Where(Accepted, l, c)
    ensures var w := Reached(l, c, tries, rnd, k);
            w.end.Accepted? && |w.ctx.challengeStr| == 16 ==>
              Reached(l, c, tries, rnd, k + 1) == StateLoop(w.lan, w.ctx, k, tries[k], rnd)
  {
  }

  lemma {:induction false} ReachedStays(l: Lan, c: Ctx, tries: seq<seq<Try>>, rnd: u32, k: nat)
    requires Shape(l) && AllStates(tries) && k <= 4 && !Reached(l, c, tries, rnd, k).end.Accepted?
    ensures Reached(l, c, tries, rnd, 4) == Reached(l, c, tries, rnd, k)
    decreases 4 - k
  {
    if k < 4 {
      ReachedStays(l, c, tries, rnd, k + 1);
    }
  }

  /** The request of a state is served, after whatever the server did before, and the client
      still fits its state. */
  lemma RequestServed(l: Lan, c: Ctx, k: nat, q: u32, tries: seq<Try>, j: nat, rnd: u32) returns (r: Result)
    requires k < 4 && Fits(l, c, k, q) && Shape(l) && AllServable(tries) && j < |tries|
    ensures Shape(Run(l, tries[j].others)) && Shape(r.lan)
    ensures Serves(Run(l, tries[j].others), RequestMsg(c, StateAt(k)), rnd, r)
    ensures Fits(Run(l, tries[j].others), c, k, q) && Fits(r.lan, c, k, q)
  {
    hide RequestMsg, Serves, Parsed, Accepts, Built, Run;
    RunKeepsInv(l, tries[j].others);
    var c', q', i;
    r, c', q', i := Meets(Run(l, tries[j].others), c, k, q, rnd);
  }

  /** A request of IPMI class is no ping. */
  lemma NoPong(pkt: seq<u8>)
    requires IsAppRequest(pkt)
    ensures Pong(pkt) == []
  {
    hide ParseRmcp, Un32;
  }

  /** A controller and a card, both just started, over a network that loses nothing. */
  method StartUp(rnd: u32) returns (server: LanServT, client: ClientT)
    ensures fresh(server) && fresh(client) && fresh(server.sessions)
    ensures exists i :: Attached(Initial(InitUsers(), 1, PRIVILEGE_ADMIN), server.View(), client.ctx, 1, i)
  {
    hide Attached, InitUsers, Reached, Usable, AloneOutcome;
    server := new LanServT();
    client := new ClientT();
    ReachableIsReady([]);
    var good := [Try([], Delivered), Try([], Delivered), Try([], Delivered)];
    ghost var l := server.View();
    var end := client.EstablishSession(server, rnd, [good, good, good, good]);
    NothingLost(l, Where(end, server.View(), client.ctx), [good, good, good, good]);
  }
}
