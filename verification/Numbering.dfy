/** How a client numbers what it sends, and what it accepts in return: every request built takes
    the next request number, and after a handshake every push the next number of the session. */
module Numbering {
  import opened Bits
  import opened Codes
  import opened Wire
  import opened Sessions
  import opened Client
  import opened Handshake
  import opened Establish
  import opened SessionInvariant

  /** A request the client builds: a state's, with the buffer it later reads if any, or a push
      of a record's bytes with a reading. */
  datatype Build = Ask(st: State, read: Option<seq<u8>>) | Push(data: seq<u8>, v: u8)

  predicate Buildable(bs: seq<Build>) {
    forall j :: 0 <= j < |bs| ==>
      match bs[j]
      case Ask(_, read) => read.Some? ==> |read.value| == MAX_MSG_RETURN_DATA
      case Push(data, _) => |data| == 64
  }

  /** The context before the k-th of these requests is built. */
  function ContextAt(c: Ctx, bs: seq<Build>, k: nat): Ctx
    requires Buildable(bs) && k <= |bs|
  {
    if k == 0 then c
    else
      var before := ContextAt(c, bs, k - 1);
      match bs[k - 1]
      case Ask(st, read) => if read.None? then Built(before, st) else Parsed(Built(before, st), st, read.value)
      case Push(_, _) => AddSdrBuilt(before)
  }

  /** The k-th packet sent. */
  function PacketAt(c: Ctx, bs: seq<Build>, k: nat): (pkt: seq<u8>)
    requires Buildable(bs) && k < |bs| && |c.challengeStr| == 16
    ensures |pkt| <= MSG_BUFFER
  {
    ChallengeKept(c, bs, k);
    match bs[k]
    case Ask(st, _) => RequestMsg(ContextAt(c, bs, k), st)
    case Push(data, v) => PushRequest(ContextAt(c, bs, k), data, v)
  }

  lemma {:induction false} ChallengeKept(c: Ctx, bs: seq<Build>, k: nat)
    requires Buildable(bs) && k <= |bs| && |c.challengeStr| == 16
    ensures |ContextAt(c, bs, k).challengeStr| == 16
    decreases k
  {
    if k > 0 {
      ChallengeKept(c, bs, k - 1);
    }
  }

  lemma {:induction false} RqSeqAt(c: Ctx, bs: seq<Build>, k: nat)
    requires Buildable(bs) && k <= |bs|
    ensures ContextAt(c, bs, k).rqSeq == (c.rqSeq as int + k) % 0x100
    decreases k
  {
    if k > 0 {
      RqSeqAt(c, bs, k - 1);
      ModSum(c.rqSeq + (k - 1));
    }
  }

  lemma ModSum(a: nat)
    ensures (a % 0x100 + 1) % 0x100 == (a + 1) % 0x100
  {
  }

  lemma Mod64(a: nat)
    ensures a % 0x100 % 64 == a % 64
  {
  }

  /** Whatever is asked, pushed and read, the k-th request arrives at the server with the
      number k past the first one's, modulo 64, so consecutive requests never share one. */
  lemma RequestNumbers(c: Ctx, bs: seq<Build>, k: nat)
    requires Buildable(bs) && k < |bs| && |c.challengeStr| == 16
    ensures Arrived(PacketAt(c, bs, k)).message.rqSeq == (c.rqSeq as int + k) % 64
    ensures k + 1 < |bs| ==> Arrived(PacketAt(c, bs, k + 1)).message.rqSeq != Arrived(PacketAt(c, bs, k)).message.rqSeq
  {
    hide Arrived, PacketAt;
    NumberAt(c, bs, k);
    if k + 1 < |bs| {
      NumberAt(c, bs, k + 1);
      Mod64Differs(c.rqSeq + k);
    }
  }

  lemma Mod64Differs(a: nat)
    ensures (a + 1) % 64 != a % 64
  {
  }

  lemma NumberAt(c: Ctx, bs: seq<Build>, k: nat)
    requires Buildable(bs) && k < |bs| && |c.challengeStr| == 16
    ensures Arrived(PacketAt(c, bs, k)).message.rqSeq == (c.rqSeq as int + k) % 64
  {
    hide Arrived, RequestMsg, PushRequest;
    ChallengeKept(c, bs, k);
    RqSeqAt(c, bs, k);
    Mod64(c.rqSeq + k);
    match bs[k] {
      case Ask(st, _) => RequestArrives(ContextAt(c, bs, k), st);
      case Push(data, v) => PushArrives(ContextAt(c, bs, k), data, v);
    }
  }

  // ---------- what is accepted ----------

  /** Of an acceptable reply exactly six bytes matter: version, sequence, class, length, command
      and completion code.  Changing any of them makes it unacceptable, and no other does. */
  lemma AcceptanceBytes(st: State, d: seq<u8>, p: nat, b: u8)
    requires |d| == MAX_MSG_RETURN_DATA && Accepts(st, d) && p < |d| && b != d[p]
    ensures Accepts(st, d[p := b]) <==> p !in {0, 2, 3, 13, 19, 20}
  {
  }

  lemma PushAcceptanceBytes(d: seq<u8>, p: nat, b: u8)
    requires |d| == MAX_MSG_RETURN_DATA && AcceptsAddSdr(d) && p < |d| && b != d[p]
    ensures AcceptsAddSdr(d[p := b]) <==> p !in {0, 2, 3, 13, 19, 20}
  {
  }

  /** No reply is acceptable to two states, nor to a state and a push. */
  lemma AcceptedByOne(st: State, st': State, d: seq<u8>)
    requires |d| == MAX_MSG_RETURN_DATA && Accepts(st, d)
    ensures Accepts(st', d) ==> st == st'
    ensures !AcceptsAddSdr(d)
  {
  }

  // ---------- lengths ----------

  /** The length byte of each handshake request counts the bytes after it. */
  lemma RequestLength(c: Ctx, st: State)
    requires |c.challengeStr| == 16
    ensures var pkt := RequestMsg(c, st); pkt[13] == |pkt| - 14
  {
    hide Frame, Pack, Le32;
    var h, data := RequestHeadOf(c, st), CmdData(c, st);
    RequestWhole(h, data);
    FrameBytes(h, data, RequestMsg(c, st));
  }

  /** That of a push says one less. */
  lemma PushLength(c: Ctx, data: seq<u8>, v: u8)
    requires |data| == 64
    ensures var pkt := PushRequest(c, data, v); pkt[13] as int + 1 == |pkt| - 14
  {
    hide Frame, Pack, Le32;
    RequestWhole(AddSdrHead(c), data);
    FrameBytes(AddSdrHead(c), data, AddSdrRequest(c, data));
  }

  /** The length byte of a reply counts the bytes after it, with and without an auth code. */
  lemma ReplyLength(m: Msg, s: Session, data: seq<u8>)
    requires |data| <= 248
    ensures var pkt, start := Packet(m, s, data), MessageStart(s.authtype); pkt[start - 1] == |pkt| - start
  {
    hide Frame, Pack, Le32;
    FrameBytes(ResponseHead(m, s.authtype, s.xmitSeq, s.sid, |data|), data, Packet(m, s, data));
  }

  /** A reply carries its request's number back. */
  lemma ReplyEchoes(pkt: seq<u8>, s: Session, data: seq<u8>, n: nat)
    requires |pkt| <= MSG_BUFFER && |data| <= 60 && |Packet(Arrived(pkt), s, data)| <= MAX_MSG_RETURN_DATA
    ensures var r, q := ParseRmcp(Received(ReplyBuffer(Packet(Arrived(pkt), s, data)), n)).message, Arrived(pkt).message;
            r.rqSeq == q.rqSeq && r.cmd == q.cmd && r.netfn == q.netfn / 2 * 2 + 1
  {
    hide Arrived, Frame, ParseRmcp;
    FieldsFit(pkt);
    ResponseRoundTrip(Arrived(pkt), s.authtype, s.xmitSeq, s.sid, data, ReplyBuffer(Packet(Arrived(pkt), s, data)), n);
  }

  lemma FieldsFit(pkt: seq<u8>)
    requires |pkt| <= MSG_BUFFER
    ensures var q := Arrived(pkt).message; q.netfn < 64 && q.rqSeq < 64 && q.rsLun < 4 && q.rqLun < 4
  {
  }

  predicate AllPushes(bs: seq<Build>) {
    forall j :: 0 <= j < |bs| ==> bs[j].Push?
  }

  lemma {:induction false} SessionSeqAt(c: Ctx, bs: seq<Build>, k: nat)
    requires Buildable(bs) && AllPushes(bs) && k <= |bs|
    ensures ContextAt(c, bs, k).sessionSeq == (c.sessionSeq as int + k) % 0x1_0000_0000
    ensures ContextAt(c, bs, k).sessionId == c.sessionId
    decreases k
  {
    if k > 0 {
      SessionSeqAt(c, bs, k - 1);
      ModSum32(c.sessionSeq + (k - 1));
    }
  }

  lemma ModSum32(a: nat)
    ensures (a % 0x1_0000_0000 + 1) % 0x1_0000_0000 == (a + 1) % 0x1_0000_0000
  {
  }

  /** After a handshake that left the client on slot i, the k-th push arrives under the session's
      id, numbered from one past the server's inbound number. */
  lemma PushNumbers(l0: Lan, l: Lan, c: Ctx, n: nat, i: nat, bs: seq<Build>, k: nat)
    requires Attached(l0, l, c, n, i) && Buildable(bs) && AllPushes(bs) && k < |bs| && |c.challengeStr| == 16
    ensures i < |l.sessions|
    ensures var m := Arrived(PacketAt(c, bs, k));
            && m.session.sid == l.sessions[i].sid && m.session.seqNum == (l.sessions[i].recvSeq as int + 1 + k) % 0x1_0000_0000
            && m.message.rqSeq == (c.rqSeq as int + k) % 64
  {
    hide Arrived, PushRequest;
    SessionSeqAt(c, bs, k);
    NumberAt(c, bs, k);
    PushArrives(ContextAt(c, bs, k), bs[k].data, bs[k].v);
  }

  lemma {:induction false} LoopRqSeq(l: Lan, c: Ctx, k: nat, tries: seq<Try>, rnd: u32)
    requires Shape(l) && |c.challengeStr| == 16 && k < 4 && AllServable(tries)
    ensures StateLoop(l, c, k, tries, rnd).ctx.rqSeq == (c.rqSeq + 1) % 0x100
    decreases |tries|
  {
    hide Handled, ReplyOf, AfterTry, Run, Accepts, Stopped, Verdict;
    if tries != [] {
      LoopRqSeq(AfterTry(Run(l, tries[0].others), c, k, tries[0].fate, rnd), c, k, tries[1..], rnd);
    }
  }

  lemma {:induction false} WalkRqSeq(l: Lan, c: Ctx, tries: seq<seq<Try>>, rnd: u32, k: nat)
    requires Fits(l, c, 0, 0) && Shape(l) && AllStates(tries) && k <= 4 && Reached(l, c, tries, rnd, k).end.Accepted?
    ensures var w := Reached(l, c, tries, rnd, k); |w.ctx.challengeStr| == 16 && w.ctx.rqSeq == (c.rqSeq as int + k) % 0x100
    decreases k
  {
    hide StateLoop, Fits;
    if k > 0 {
      WalkRqSeq(l, c, tries, rnd, k - 1);
      var before := Reached(l, c, tries, rnd, k - 1);
      LoopRqSeq(before.lan, before.ctx, k - 1, tries[k - 1], rnd);
      ModSum(c.rqSeq + (k - 1));
    }
    var q := ReachedFits(l, c, tries, rnd, k);
    FitsChallenge(Reached(l, c, tries, rnd, k).lan, Reached(l, c, tries, rnd, k).ctx, k, q);
  }

  /** Retries resend the same packet: after k states of the walk, k requests were numbered, so
      state k's arrives as number r0 + k, and the j-th request built from then on as r0 + k + j;
      after the walk those are the pushes. */
  lemma WalkNumbers(l: Lan, c: Ctx, tries: seq<seq<Try>>, rnd: u32, k: nat, bs: seq<Build>, j: nat)
    requires Fits(l, c, 0, 0) && Shape(l) && AllStates(tries) && k <= 4 && Reached(l, c, tries, rnd, k).end.Accepted?
    requires Buildable(bs) && j < |bs|
    ensures var w := Reached(l, c, tries, rnd, k);
            && |w.ctx.challengeStr| == 16
            && (k < 4 ==> Arrived(RequestMsg(w.ctx, StateAt(k))).message.rqSeq == (c.rqSeq as int + k) % 64)
            && Arrived(PacketAt(w.ctx, bs, j)).message.rqSeq == (c.rqSeq as int + k + j) % 64
  {
    hide Reached, Arrived, RequestMsg, PacketAt, Fits, AllStates, Buildable;
    var w := Reached(l, c, tries, rnd, k);
    WalkRqSeq(l, c, tries, rnd, k);
    if k < 4 {
      RequestArrives(w.ctx, StateAt(k));
      Mod64(c.rqSeq + k);
    }
    NumberAt(w.ctx, bs, j);
    Mod64Sum(c.rqSeq + k, j);
  }

  lemma FitsChallenge(l: Lan, c: Ctx, k: nat, q: u32)
    requires Fits(l, c, k, q)
    ensures |c.challengeStr| == 16
  {
  }

  lemma Mod64Sum(a: nat, j: nat)
    ensures (a % 0x100 + j) % 64 == (a + j) % 64
  {
  }
}
