/** The session manager as a state machine on values (sections 22.13 and 22.15 to 22.19 of
    the IPMI v2.0 specification): the tables, and what each command does to them. */
module Sessions {
  import opened Bits
  import opened Codes
  import opened Wire
  import Cyclic

  const MAX_USERS := 64
  const MAX_SESSIONS := 16
  const PRIVILEGE_CALLBACK: u8 := 1
  const PRIVILEGE_USER: u8 := 2
  const PRIVILEGE_OPERATOR: u8 := 3
  const PRIVILEGE_ADMIN: u8 := 4
  const GET_CHANNEL_AUTH_CAPABILITIES_CMD: u8 := 0x38
  const GET_SESSION_CHALLENGE_CMD: u8 := 0x39
  const ACTIVATE_SESSION_CMD: u8 := 0x3a
  const SET_SESSION_PRIVILEGE_CMD: u8 := 0x3b
  const CLOSE_SESSION_CMD: u8 := 0x3c
  const APP_NETFN: u8 := 0x06

  datatype User = User(valid: bool, username: seq<u8>, privilege: u8, maxPriv: u8, allowedAuths: u16, idx: u8)

  datatype Session = Session(active: bool, rmcpplus: bool, handle: u32, recvSeq: u32, xmitSeq: u32, sid: u32,
                             userid: u8, timeLeft: u32, authtype: u8, priv: u8, maxPriv: u8)

  datatype Lan = Lan(chanNum: u8, chanPrivLimit: u8, activeSessions: u8, nextChallSeq: u32, sidSeq: u32,
                     defaultSessionTimeout: u32, users: seq<User>, sessions: seq<Session>)

  const BLANK := Session(false, false, 0, 0, 0, 0, 0, 0, 0, 0, 0)

  const NO_USER := User(false, [], 0, 0, 0, 0)

  /** User names are padded with zeros to sixteen bytes. */
  function Padded(name: seq<u8>): (s: seq<u8>)
    requires |name| <= 16
    ensures |s| == 16
  {
    name + Zeros(16 - |name|)
  }

  /** The bytes of "ipmiusr". */
  const IPMIUSR: seq<u8> := [0x69, 0x70, 0x6d, 0x69, 0x75, 0x73, 0x72]

  /** The configured users: 1 has the empty name and authentication types "none" and
      "straight", 2 is "ipmiusr" with administrator rights and type "none". */
  function InitUsers(): (us: seq<User>)
    ensures |us| == MAX_USERS + 1
  {
    [NO_USER, User(true, Zeros(16), 0, PRIVILEGE_USER, 0x11, 1), User(true, Padded(IPMIUSR), 0, PRIVILEGE_ADMIN, 0x01, 2)]
    + seq(MAX_USERS - 2, _ => NO_USER)
  }

  /** The tables at start-up. */
  function Initial(users: seq<User>, chanNum: u8, chanPrivLimit: u8): Lan {
    Lan(chanNum, chanPrivLimit, 0, 0, 0, 30, users, seq(MAX_SESSIONS + 1, i requires 0 <= i <= MAX_SESSIONS => BLANK.(handle := i)))
  }

  /** Which session a reply is sent on: none given, a table slot, or a session value local
      to the handler (the server's `dummySession`). */
  datatype Via = Unbound | Slot(i: nat) | Local(s: Session)

  /** The new tables and the packets sent, in order. */
  datatype Result = Result(lan: Lan, sent: seq<seq<u8>>)

  /** A handled request, or a nil dereference that stops the server. */
  datatype Outcome = Panic | Done(r: Result)

  predicate Shape(l: Lan) {
    |l.users| == MAX_USERS + 1 && |l.sessions| == MAX_SESSIONS + 1
  }

  /** Handlers read at most 26 bytes past the read position of a 4000-byte buffer. */
  predicate Readable(m: Msg) {
    |m.data| == MSG_BUFFER && m.dataStart <= 36
  }

  /** Request data byte k. */
  function Arg(m: Msg, k: nat): u8
    requires Readable(m) && k < 100
  {
    m.data[m.dataStart + k]
  }

  function Args(m: Msg, lo: nat, hi: nat): (s: seq<u8>)
    requires Readable(m) && lo <= hi <= 100
    ensures |s| == hi - lo
  {
    m.data[m.dataStart + lo..m.dataStart + hi]
  }

  // ---------- lookups ----------

  function SidToSession(ss: seq<Session>, sid: u32): (v: Via)
    requires |ss| == MAX_SESSIONS + 1
    ensures v.Unbound? || (v.Slot? && v.i < |ss| && ss[v.i].active && ss[v.i].sid == sid)
  {
    var idx := sid / 2 % 64;
    if sid % 2 == 1 || idx > MAX_SESSIONS || !ss[idx].active || ss[idx].sid != sid then Unbound else Slot(idx)
  }

  /** The first slot from i on that is not active, or |ss|. */
  function FreeFrom(ss: seq<Session>, i: nat): (r: nat)
    requires i <= |ss|
    ensures i <= r <= |ss|
    ensures r < |ss| ==> !ss[r].active
    ensures forall k :: i <= k < r ==> ss[k].active
    decreases |ss| - i
  {
    if i == |ss| || !ss[i].active then i else FreeFrom(ss, i + 1)
  }

  predicate UserMatches(u: User, username: seq<u8>, nameOnly: bool, priv: u8) {
    username == u.username && (nameOnly || u.privilege == priv)
  }

  /** The first matching user from i on, or |us|. */
  function UserFrom(us: seq<User>, i: nat, username: seq<u8>, nameOnly: bool, priv: u8): (r: nat)
    requires i <= |us|
    ensures i <= r <= |us|
    ensures r < |us| ==> UserMatches(us[r], username, nameOnly, priv)
    ensures forall k :: i <= k < r ==> !UserMatches(us[k], username, nameOnly, priv)
    decreases |us| - i
  {
    if i == |us| || UserMatches(us[i], username, nameOnly, priv) then i
    else UserFrom(us, i + 1, username, nameOnly, priv)
  }

  // ---------- replies ----------

  function Packet(m: Msg, s: Session, data: seq<u8>): seq<u8> {
    Frame(ResponseHead(m, s.authtype, s.xmitSeq, s.sid, |data|), data)
  }

  /** A session after one more packet was sent on it. */
  function Advanced(s: Session): Session {
    s.(xmitSeq := Cyclic.Succ(s.xmitSeq, Cyclic.M32))
  }

  function SessionOf(l: Lan, v: Via): Session
    requires v.Slot? ==> v.i < |l.sessions|
    requires !v.Unbound?
  {
    match v
    case Slot(i) => l.sessions[i]
    case Local(s) => s
  }

  function Respond(l: Lan, m: Msg, via: Via, data: seq<u8>): Result
    requires Shape(l) && (via.Slot? ==> via.i < |l.sessions|)
  {
    var v := if via.Unbound? then SidToSession(l.sessions, m.session.sid) else via;
    if !v.Unbound? && SessionOf(l, v).rmcpplus then
      Result(l, [])
    else if m.session.sid == 0 then
      Result(l, [Packet(m, BLANK.(active := true), data)])
    else
      match v
      case Unbound => Result(l, [])
      case Local(s) => Result(l, [Packet(m, s, data)])
      case Slot(i) => Result(l.(sessions := l.sessions[i := Advanced(l.sessions[i])]), [Packet(m, l.sessions[i], data)])
  }

  // ---------- commands ----------

  /** Outside a session only authentication type "none" is served. */
  predicate Unserved(m: Msg) {
    m.session.sid == 0 && m.session.authType != AUTHTYPE_NONE
  }

  function GetChannelAuthCapabilities(l: Lan, m: Msg): Result
    requires Shape(l) && Readable(m)
  {
    var channel: u8 := if Arg(m, 0) % 16 == 0xe then l.chanNum else Arg(m, 0) % 16;
    if Unserved(m) || Arg(m, 0) >= 0x80 then Result(l, [])
    else if channel != l.chanNum || Arg(m, 1) % 16 > l.chanPrivLimit then Respond(l, m, Unbound, [INVALID_DATA_FIELD_CC])
    else Respond(l, m, Unbound, [0, channel, 0x17, 0x6, 0, 0, 0, 0, 0])
  }

  function TempSid(challSeq: u32, userIdx: u8): u32 {
    BitOr(BitOr(Shl32(challSeq, 7), Shl32(userIdx, 1)), 1) % 0x1_0000_0000
  }

  const CHALLENGE: seq<u8> := [0, 1, 2, 3, 4, 5, 6, 7, 8, 9, 10, 11, 12, 13, 14, 15]

  function GetSessionChallenge(l: Lan, m: Msg): Result
    requires Shape(l) && Readable(m)
  {
    var authtype: u8 := Arg(m, 0) % 16;
    var name := Args(m, 1, 17);
    var u := UserFrom(l.users, 1, name, true, authtype);
    if Unserved(m) then Result(l, [])
    else if u > MAX_USERS then Respond(l, m, Unbound, [if name == Zeros(16) then 0x82 else 0x81])
    else if !HasBit(l.users[u].allowedAuths, authtype) then Respond(l, m, Unbound, [INVALID_DATA_FIELD_CC])
    else if l.activeSessions >= MAX_SESSIONS then Respond(l, m, Unbound, [OUT_OF_SPACE_CC])
    else Respond(l.(nextChallSeq := (l.nextChallSeq + 1) % 0x1_0000_0000), m, Unbound,
                 [0] + Le32(TempSid(l.nextChallSeq, l.users[u].idx)) + CHALLENGE)
  }

  /** The sequence number the next session id is built from: zero is skipped. */
  function UsedSeq(sidSeq: u32): u32 {
    if sidSeq == 0 then 1 else sidSeq
  }

  function IssuedSid(used: u32, handle: u32): u32 {
    BitOr(Shl32(used, 7), Shl32(handle, 1)) % 0x1_0000_0000
  }

  function RecvSeq(rnd: u32): u32 {
    if rnd - rnd % 2 == 0 then 2 else rnd - rnd % 2
  }

  /** The slot after activation. */
  function Activated(l: Lan, i: nat, auth: u8, xmitSeq: u32, maxPriv: u8, user: User, rnd: u32): Session
    requires i < |l.sessions|
  {
    l.sessions[i].(active := true, rmcpplus := false, authtype := auth, recvSeq := RecvSeq(rnd), xmitSeq := xmitSeq,
                   maxPriv := maxPriv, priv := PRIVILEGE_USER, userid := user.idx, timeLeft := l.defaultSessionTimeout,
                   sid := IssuedSid(UsedSeq(l.sidSeq), l.sessions[i].handle))
  }

  function ActivationData(s: Session): seq<u8> {
    [0, s.authtype] + Le32(s.sid) + Le32(s.recvSeq) + [s.maxPriv]
  }

  /** Activation under a temporary id (odd). */
  function OpenSession(l: Lan, m: Msg, rnd: u32): Result
    requires Shape(l) && Readable(m)
  {
    var userIdx := m.session.sid / 2 % 64;
    var auth: u8 := Arg(m, 0) % 16;
    var user := l.users[userIdx];
    var xmitSeq := Un32(Args(m, 18, 22));
    var dummy := BLANK.(active := true, authtype := m.session.authType, xmitSeq := xmitSeq, sid := m.session.sid);
    var maxPriv: u8 := Arg(m, 1) % 16;
    var i := FreeFrom(l.sessions, 1);
    if userIdx == 0 || !user.valid || !HasBit(user.allowedAuths, auth)
       || !HasBit(user.allowedAuths, m.session.authType) || l.activeSessions >= MAX_SESSIONS then Result(l, [])
    else if xmitSeq == 0 then Respond(l, m, Local(dummy), [0x85])
    else if user.privilege == 0xf || maxPriv > user.maxPriv then Respond(l, m, Local(dummy), [0x86])
    else if i > MAX_SESSIONS then Respond(l, m, Local(dummy), [0x81])
    else
      var s := Activated(l, i, auth, xmitSeq, maxPriv, user, rnd);
      var l1 := l.(sessions := l.sessions[i := s], activeSessions := (l.activeSessions + 1) % 0x100,
                   sidSeq := (UsedSeq(l.sidSeq) + 1) % 0x1_0000_0000);
      Respond(l1, m, Local(dummy), ActivationData(s))
  }

  /** Activation from inside a session only replaces the outbound sequence number, which is
      read at absolute position 18 of the buffer. */
  function ReactivateSession(l: Lan, m: Msg): Result
    requires Shape(l) && Readable(m)
  {
    match SidToSession(l.sessions, m.session.sid)
    case Slot(i) =>
      var s := l.sessions[i].(xmitSeq := Un32(m.data[18..22]));
      Respond(l.(sessions := l.sessions[i := s]), m, Slot(i), ActivationData(s))
    case _ => Result(l, [])
  }

  function ActivateSession(l: Lan, m: Msg, rnd: u32): Result
    requires Shape(l) && Readable(m)
  {
    if m.dataLen < 22 then Result(l, [])
    else if m.session.sid % 2 == 1 then OpenSession(l, m, rnd)
    else ReactivateSession(l, m)
  }

  function SetSessionPrivilege(l: Lan, m: Msg): Result
    requires Shape(l) && Readable(m)
  {
    if m.dataLen < 1 then Respond(l, m, Unbound, [REQUEST_DATA_LENGTH_INVALID_CC])
    else
      match SidToSession(l.sessions, m.session.sid)
      case Slot(i) =>
        var s := l.sessions[i];
        var priv: u8 := if Arg(m, 0) % 16 == 0 then s.priv else Arg(m, 0) % 16;
        if priv == PRIVILEGE_CALLBACK then Respond(l, m, Slot(i), [0x80])
        else if priv > s.maxPriv then Respond(l, m, Slot(i), [0x81])
        else Respond(l.(sessions := l.sessions[i := s.(priv := priv)]), m, Slot(i), [0, priv])
      case _ => Result(l, [])
  }

  /** Ends session t, after the acknowledgement was sent on session i. */
  function EndSession(l: Lan, m: Msg, i: nat, t: nat): Result
    requires Shape(l) && i < |l.sessions| && t < |l.sessions|
  {
    var r := Respond(l, m, Slot(i), [0]);
    r.(lan := r.lan.(sessions := r.lan.sessions[t := r.lan.sessions[t].(active := false)],
                     activeSessions := (r.lan.activeSessions - 1) % 0x100))
  }

  /** A request whose own session id does not resolve dereferences nil. */
  function CloseSession(l: Lan, m: Msg): Outcome
    requires Shape(l) && Readable(m)
  {
    var v := SidToSession(l.sessions, m.session.sid);
    var sid := Un32(Args(m, 0, 4));
    var t := SidToSession(l.sessions, sid);
    if m.dataLen < 4 then Done(Respond(l, m, v, [REQUEST_DATA_LENGTH_INVALID_CC]))
    else if v.Unbound? then Panic
    else if sid == l.sessions[v.i].sid then Done(EndSession(l, m, v.i, v.i))
    else if l.sessions[v.i].priv != PRIVILEGE_ADMIN then Done(Respond(l, m, v, [INSUFFICIENT_PRIVILEGE_CC]))
    else if t.Unbound? then Done(Respond(l, m, v, [0x87]))
    else Done(EndSession(l, m, v.i, t.i))
  }

  /** Commands with an entry in the application table; any other calls a nil function. */
  predicate Known(cmd: u8) {
    0x01 <= cmd <= 0x08 || cmd == 0x22 || cmd == 0x24 || cmd == 0x25 || 0x2e <= cmd <= 0x3d || 0x3f <= cmd <= 0x50
    || cmd == 0x52 || 0x54 <= cmd <= 0x57
  }

  function Step(l: Lan, m: Msg, rnd: u32): Outcome
    requires Shape(l) && Readable(m)
  {
    var cmd := m.message.cmd;
    if cmd == GET_CHANNEL_AUTH_CAPABILITIES_CMD then Done(GetChannelAuthCapabilities(l, m))
    else if cmd == GET_SESSION_CHALLENGE_CMD then Done(GetSessionChallenge(l, m))
    else if cmd == ACTIVATE_SESSION_CMD then Done(ActivateSession(l, m, rnd))
    else if cmd == SET_SESSION_PRIVILEGE_CMD then Done(SetSessionPrivilege(l, m))
    else if cmd == CLOSE_SESSION_CMD then CloseSession(l, m)
    else if Known(cmd) then Done(Result(l, []))
    else Panic
  }

  /** The requests that stop the server: an unknown command, and a close of at least four
      bytes whose own session id does not resolve. */
  predicate Panics(l: Lan, m: Msg)
    requires Shape(l)
  {
    !Known(m.message.cmd)
    || (m.message.cmd == CLOSE_SESSION_CMD && m.dataLen >= 4 && SidToSession(l.sessions, m.session.sid).Unbound?)
  }

  lemma StepPanics(l: Lan, m: Msg, rnd: u32)
    requires Shape(l) && Readable(m)
    ensures Step(l, m, rnd).Panic? <==> Panics(l, m)
  {
    hide GetChannelAuthCapabilities, GetSessionChallenge, ActivateSession, SetSessionPrivilege, EndSession, Respond,
         SidToSession, Un32;
  }

  // ---------- datagrams ----------

  /** The message the server sees for a datagram. */
  function Arrived(pkt: seq<u8>): (m: Msg)
    requires |pkt| <= MSG_BUFFER
    ensures Readable(m) && m.dataLen == |pkt|
  {
    ParseRmcp(Received(pkt + Zeros(MSG_BUFFER - |pkt|), |pkt|))
  }

  const AUTHTYPE_RMCP_PLUS: u8 := 6
  const ASF_IANA: u32 := 4542

  const CHASSIS_NETFN: u8 := 0x00
  const SENSOR_EVENT_NETFN: u8 := 0x04
  const STORAGE_NETFN: u8 := 0x0a

  /** Which requests meet a handler: the application, chassis, sensor and storage functions
      look the command up, the others take any. */
  predicate HasHandler(netfn: u8, cmd: u8) {
    if netfn == APP_NETFN then Known(cmd)
    else if netfn == CHASSIS_NETFN then cmd == 0x00 || 0x02 <= cmd <= 0x09
    else if netfn == SENSOR_EVENT_NETFN then cmd <= 0x02 || 0x10 <= cmd <= 0x17 || 0x20 <= cmd <= 0x2b || 0x2d <= cmd <= 0x2f
    else if netfn == STORAGE_NETFN then 0x10 <= cmd <= 0x12 || 0x20 <= cmd <= 0x2c || 0x40 <= cmd <= 0x49 || cmd == 0x5a || cmd == 0x5b
    else netfn in {0x02, 0x08, 0x0c, 0x2c, 0x2e}
  }

  /** Outside the application function, only sensor readings and the repository and event-log
      commands answer. */
  predicate MayAnswer(netfn: u8, cmd: u8) {
    (netfn == SENSOR_EVENT_NETFN && cmd == 0x2d)
    || (netfn == STORAGE_NETFN && cmd in {0x20, 0x22, 0x23, 0x24, 0x27, 0x40, 0x42, 0x43, 0x44, 0x47})
  }

  /** What such a handler comes to: nothing, reply data, or slice bounds out of range. */
  datatype Elsewhere = Silence | Data(data: seq<u8>) | Fault

  /** Serving a request of any network function.  A handler elsewhere touches the session
      tables only through its reply, which is sent on the session the request names. */
  function Serve(l: Lan, m: Msg, rnd: u32, other: Elsewhere): Outcome
    requires Shape(l) && Readable(m)
  {
    if m.message.netfn == APP_NETFN then Step(l, m, rnd)
    else if !HasHandler(m.message.netfn, m.message.cmd) then Panic
    else if !MayAnswer(m.message.netfn, m.message.cmd) || other.Silence? then Done(Result(l, []))
    else if other.Fault? then Panic
    else Done(Respond(l, m, Unbound, other.data))
  }

  /** The requests that stop the server. */
  predicate Stops(l: Lan, m: Msg, other: Elsewhere)
    requires Shape(l)
  {
    || !HasHandler(m.message.netfn, m.message.cmd)
    || (m.message.netfn == APP_NETFN && m.message.cmd == CLOSE_SESSION_CMD && m.dataLen >= 4
        && SidToSession(l.sessions, m.session.sid).Unbound?)
    || (MayAnswer(m.message.netfn, m.message.cmd) && other.Fault?)
  }

  lemma ServeStops(l: Lan, m: Msg, rnd: u32, other: Elsewhere)
    requires Shape(l) && Readable(m)
    ensures Serve(l, m, rnd, other).Panic? <==> Stops(l, m, other)
  {
    hide Step, Respond, SidToSession;
    StepPanics(l, m, rnd);
  }

  /** The answer to a presence ping of ASF class (section 13.2.4 of the IPMI v2.0
      specification), if the datagram is one. */
  function Pong(pkt: seq<u8>): seq<seq<u8>> {
    if |pkt| >= 12 && pkt[3] == 6 && Un32(pkt[4..8]) == ASF_IANA && pkt[8] == 0x80
    then [[6, 0, 0xff, 6] + Le32(ASF_IANA) + [0x40, pkt[9], 0, 16] + Le32(ASF_IANA) + Zeros(4) + [0x81] + Zeros(7)]
    else []
  }

  /** The message a datagram is handled as, unless it is too short to be.  Only IPMI class
      other than RMCP+ is parsed; what is not parsed has network function and command zero. */
  function RouteOf(pkt: seq<u8>): (r: Option<Msg>)
    requires |pkt| <= MSG_BUFFER
    ensures r.Some? ==> Readable(r.value) && r.value.dataLen == |pkt|
    ensures r.Some? && r.value.message.netfn != CHASSIS_NETFN ==> r.value == Arrived(pkt)
  {
    if |pkt| < 5 then None
    else if pkt[3] == 7 && pkt[4] != AUTHTYPE_RMCP_PLUS then Some(Arrived(pkt))
    else Some(Received(pkt + Zeros(MSG_BUFFER - |pkt|), |pkt|))
  }

  /** What reaches the application handlers. */
  predicate IsAppRequest(pkt: seq<u8>) {
    |pkt| <= MSG_BUFFER && RouteOf(pkt).Some? && RouteOf(pkt).value.message.netfn == APP_NETFN
  }
}
