# ipmigod: a verified model

ipmigod is a small IPMI baseboard management controller. On a chassis, each line card runs
one, and pushes its sensor records and readings to the instance on the central card.
This project models the stateful core of the program in Dafny and proves what it promises.

| file | what it holds |
|---|---|
| `Bits.dfy`, `Cyclic.dfy`, `Checksum.dfy` | machine integers, little endian, counters that skip zero, the message checksum |
| `Codes.dfy` | completion codes and constants several commands share |
| `Wire.dfy` | the RMCP packet: building it in a buffer, parsing it, round trips |
| `Sessions.dfy` | the session manager's commands as functions on its tables |
| `SessionInvariant.dfy`, `SessionHistory.dfy`, `SessionPrivilege.dfy` | what every run keeps: the table, id freshness, outbound numbers, privilege |
| `SessionCommands.dfy`, `Receiving.dfy` | exactly when each command is granted, what it leaves and how it is answered; what reaches a handler |
| `LanServ.dfy` | the session manager as an object updated in place |
| `Client.dfy`, `Handshake.dfy` | session establishment, both ends, through packet bytes |
| `Establish.dfy`, `Connection.dfy` | the same with retries, failures, silence and other clients |
| `Numbering.dfy` | request and session numbers of a client, and what it accepts |
| `Sel.dfy` | the event log: id allocation, erasing, walking |
| `Sdr.dfy`, `SdrList.dfy` | the record repository: as a value, and as a linked list with a tail pointer |
| `Sensors.dfy`, `Mirror.dfy` | start-up records, polling, and retried pushes to the central card |
| `Chassis.dfy` | sixteen cards running together, and what the central card shows of them |

Handlers that change state are methods of classes (`LanServT`, `SelT`, `SdrsT`, `BoardT`,
`ClientT`, `MsgT`). Each says that the object's new value is what the function of the same
command makes of the old value, and which packets were sent. The lemmas are about those
functions and about whole runs of them. Fixed-width integers are ranges of `int`; every
place where the program's arithmetic wraps reduces explicitly.

## Main results

- **Handshake** (`Handshake.HandshakeJoins`): from any server state reachable from start-up with
  a session to spare, and any client context, the four exchanges run through real packet bytes
  and end with exactly one new session, known to both ends, at privilege 3, every other slot
  untouched.
- **Handshake with failures and other clients** (`Establish.LoopExactly`, `DoneHolds`,
  `DoneUndisturbed`, `AloneWalk`, `Connection.ClientT.EstablishSession`): a try may end in an error,
  read an unacceptable datagram, read the reply, or hear nothing; the socket has no deadline, so
  silence blocks for ever. Between tries the server serves any requests of other clients. Each
  state ends as its first try that is not retried goes, in the state of the server it finds: room
  for the challenge and the activation, the session still open for the last request. A client that
  is done holds a session at privilege 3, on a slot that was free, under an id no open session had.
  Alone with the server it is done exactly when each state gets a reply through before any silence
  and there is room for every activation that arrives; each of those opened one session, and
  earlier sessions are untouched in every case.
- **Receive loop** (`LanServ.LanServT.ServeAll`): whatever datagrams arrive, the session tables go
  through the run of the requests they hold, of every network function; a handler outside the
  application function takes part with its reply, which is sent on the caller's session.
- **Session table** (`SessionInvariant.EveryRunIsConsistent`): over every such run the counter is the
  number of active slots, slot 0 is never used, and each active id leads back to its slot.
- **Freshness** (`SessionHistory.IssuedSidsAreFresh`, `ClosedIsGone`): 2^25-1 consecutive activations
  issue different ids, across the 32-bit wrap, and the bound is tight; an id whose session was
  closed resolves to nothing until that many activations after it was issued.
- **Close** (`SessionCommands.CloseCloses`, `ClosedForGood`): a close ends a session exactly when it
  names it and comes from it or from an administrator; the id then resolves to nothing until
  2^25-1 activations after it was issued, through any later run.
- **Activation** (`SessionCommands.ActivationOpens`): a session opens exactly under the guards on
  user, both authentication types, room, number and limit.
- **Privilege** (`SessionPrivilege.NoPrivilegeBeyondUser`, `AboveLimit`, `EndsOnlyByRight`,
  `SessionCommands.PrivilegeSet`, `LevelIsGranted`): for as long as a session lasts its level is the
  last one granted, within limit and user; its authentication type is one its user may use.
- **Request numbers** (`Numbering.RequestNumbers`, `WalkNumbers`, `PushNumbers`): the k-th request a
  client builds arrives as number r0 + k modulo 64, and the k-th push after a handshake as number
  recvSeq + 1 + k of its session.
- **Numbers** (`SessionHistory.OutboundNumbers`, `ZeroIsSent`, `NumbersFromStartUp`): the k-th packet
  carrying a session's id, in reply to a request of any network function, has the closed-form
  number, none repeating within 2^32-1 packets. No active session ever rests at number zero, so
  from start-up a packet is numbered zero exactly when some re-activation came with an auth code
  that is zero at bytes 5 to 8.
- **What stops the server** (`Sessions.ServeStops`, `SessionInvariant.NullCloseStops`): exactly a
  network function or command without an entry, a close whose own session does not resolve, and a
  handler's slice out of range, which is a read with offset plus count above 255 or an added record
  too long to copy (`Codes.SliceInOrder`, `SdrList.SdrsT.AddSdrMessage`).
- **Event log** (`Sel.ProbeIsShort`, `IdsAreConsecutive`, `WalkIsLog`, `WalkIsAdds`, `AddThenRead`, `OverflowFlag`).
- **Repository** (`Sdr.RunKeepsInv`, `WalkIsRepository`, `PiecesReassemble`, `SecondDelivery`).
- **Mirroring** (`Chassis.ControllerMirrors`, `ControllerInStep`, `PollMirrored`): all cards
  register and poll their own sensors, steps interleave in any order and each packet arrives any
  number of times until its card sends the next. The central card shows each sensor's last
  non-zero reading that arrived, once the sensor's add has, and nothing before. When every packet
  arrives, it is in step with every card.

## Where the code does less than it seems to

Each of these is modelled as written, with the exact condition under which the intended
property holds.

- Request packets end at `uint8(dcur)`: a payload above 234 bytes truncates the packet (`Wire.RequestWhole`).
- User 64's temporary ids name user 0, because six bits are kept for the index (`SessionInvariant.TempSidValue`).
- A session opened with a limit below the user level is above its limit for as long as it lasts (`SessionPrivilege.AboveLimit`; a request that opens one is `CallbackSession`).
- Re-activation reads the outbound number at a fixed place of the datagram: without authentication it installs rqSeq, LUN, the command and two data bytes, never zero; with an auth code it installs bytes 5 to 8 of that code, zero exactly when those are (`SessionHistory.ReactivationNumber`, `ZeroingRequestZeroes`).
- A close request whose own session does not resolve dereferences nil, and one under session id 0 never resolves: it stops the server in every reachable state (`Sessions.StepPanics`, `SessionInvariant.NullCloseStops`). Its length test compares the whole datagram's length, which always passes (`SessionCommands.ShortRequests`).
- No read deadline is set, so a silently lost request or reply blocks the client for ever; retries follow errors and unacceptable replies only (`Client.BlockedExactly`). An activation that finds the table full is not answered, and blocks it the same way (`Handshake.ActivateFull`).
- Offset plus count above 255 stops the server when the offset lies inside the record: the eight-bit end wraps below the offset and is not clipped (`Codes.SliceInOrder`).
- The event log's id search guards against 0xFFFF, not against 0 as its comment says; runs stay below both (`Sel.Free`, `Sel.IdsAreConsecutive`).
- Erasing the event log keeps its counters and leaves blank entries, after which a walk from id 0 finds nothing (`Sel.WalkIsLog`).
- The add-event handler passes the record shifted by three bytes (`Sel.AddSelEntryShifts`).
- New records never store their logical unit, so duplicates are recognised for unit 0 only (`Sdr.SecondDelivery`).
- The record-id counter wraps without a check in the add handler (`Sdr.AppendKeepsInv`).
- A record of length zero cannot be read, which ends a walk (`Sdr.WalkIsRepository`); an add with length byte 251 stores one (`Sdr.EmptyRecordStored`).
- A reading of zero is taken for a plain add and leaves the shown value alone (`Chassis.ControllerMirrors`); temperatures are never zero (`Chassis.ControllerInStep`). Cards 3 and up have sensor numbers no reading is simulated for, and show zero for ever (`Chassis.QuietCards`).
- A registered sensor without a record stops the poll at a nil dereference (`Sensors.BoardT.PollSensors`), which is how a clear of the repository ends the next poll (`Sensors.ClearUncovers`).
- A push's length byte is one short (`Numbering.PushLength`); the server does not read it.
- The patched packet's second checksum is stale (`Client.PushChecksum`).

## Model

| member | source | states |
|---|---|---|
| Bits.OrShifted | ipmi_internal_app.go:334-336 | or-ing a field into the bits freed by a shift loses nothing: the result is the sum |
| Bits.PackValue | ipmi_client.go:179-188 | a byte packed from six bits and two bits gives both parts back, the six-bit part modulo 64 |
| Bits.LittleEndian32 | ipmi_proto.go:242-245 | reading four little-endian bytes undoes writing them, for every 32-bit value |
| Bits.BytesOfValue | ipmi_proto.go:242-245 | writing undoes reading, for byte strings of any length |
| Cyclic.IterNear | ipmi_proto.go:313-316 | less than a lap ahead the skip-zero counter is plain addition, minus one lap when it skipped |
| Cyclic.IterClosedForm | ipmi_proto.go:313-316 | the k-th value of a 32-bit skip-zero counter is (x-1+k) mod (2^32-1) + 1, for every k |
| Cyclic.NoRepeat | ipmi_proto.go:313-316 | such a counter of any width never shows zero and repeats no value within a lap |
| Checksum.IpmiChecksum | ipmi_internal_proto.go:202-211 | the int8 loop returns the value that makes start, bytes and checksum sum to zero modulo 256 |
| Wire.MsgT.IpmiParseRmcpMsg | ipmi_proto.go:224-270 | fills the message's header, session and message fields and moves the read position exactly as the packet layout says, stopping after the header when the sequence byte is not 0xff |
| Wire.FrameChecksums | ipmi_client.go:181-199 | in every packet both checksums make the bytes they cover sum to zero modulo 256, for payloads of any length |
| Wire.ChainedChecksum | ipmi_proto.go:345-349 | negating a first checksum to seed a second one continues the sum over both ranges |
| Wire.ParseFrame | ipmi_proto.go:224-270 | parsing any framed packet returns every field that went into it and leaves the read position on the payload, with and without the auth code |
| Wire.ClientBuildMsg | ipmi_client.go:149-209 | the cursor-filled buffer is the framed request, cut at the 8-bit cursor |
| Wire.RequestWhole | ipmi_client.go:207 | the packet is whole exactly when the payload has at most 234 bytes |
| Wire.RequestRoundTrip | ipmi_client.go:149-209 | the server recovers every request field (rqSeq modulo 64), the payload beginning at position 20 |
| Wire.BuildResponse | ipmi_proto.go:300-353 | the cursor-filled buffer is the framed response, with 16 zero bytes where an auth code belongs |
| Wire.ResponseRoundTrip | ipmi_proto.go:300-353 | a response parses to the session's id and number, addresses and LUNs swapped, netFn with its low bit set, same rqSeq and command, payload at 20 or 36 |
| LanServ.LanServT.constructor | ipmi_proto.go:51-96 | start-up state: the two configured users, channel 1 limited to administrator, no active session, every slot carrying its index |
| LanServ.LanServT.LookupSession | ipmi_internal_proto.go:213-237 | resolves an id to the active slot that carries it, or to none |
| LanServ.LanServT.FindFreeSession | ipmi_internal_app.go:219-228 | the first inactive slot from 1 on, past the end if there is none |
| LanServ.LanServT.FindUser | ipmi_internal_proto.go:82-101 | the first user from 1 on whose name matches, and privilege unless only the name counts |
| LanServ.LanServT.ReturnRsp | ipmi_proto.go:272-366 | sends one packet on the given, resolved or session-zero session, advances only that slot's number, and sends nothing when no session is found |
| LanServ.LanServT.HandleGetChannelAuthCapabilities | ipmi_internal_app.go:91-144 | the capabilities reply, the two refusals and the two silent cases |
| LanServ.LanServT.HandleGetSessionChallenge | ipmi_internal_app.go:155-217 | a fresh temporary id for a known user with a permitted type and a session to spare, each refusal with its code |
| LanServ.LanServT.HandleActivateSession | ipmi_internal_app.go:231-376 | short messages ignored, odd ids open a session, even ids re-activate one |
| LanServ.LanServT.OpenFromTemporary | ipmi_internal_app.go:243-348 | opens the first free slot with a new id and an even non-zero inbound number, replying under the temporary id, or refuses with the code of the first failed test |
| LanServ.LanServT.ReactivateFromSession | ipmi_internal_app.go:350-373 | replaces only the session's outbound number, read at absolute bytes 18 to 21, and replies on the session |
| LanServ.LanServT.HandleSetSessionPrivilege | ipmi_internal_app.go:378-419 | sets the requested level within the session's limit, zero meaning the current one, or refuses leaving the level alone |
| LanServ.LanServT.HandleCloseSession | ipmi_internal_app.go:421-462 | acknowledges on the caller's session, then ends the target and decrements the counter; another's session only for administrators; stops the server, nothing sent or changed, when the caller's session does not resolve |
| LanServ.LanServT.AppNetfn | ipmi_proto.go:559-561 | dispatches every command, the unimplemented ones doing nothing; stops the server exactly on a command without an entry and on an unresolved close |
| LanServ.LanServT.HandleMsg | ipmi_proto.go:200-200 | dispatch on the network function: application requests take their step, a handler elsewhere adds at most its reply on the caller's session, a missing entry or a fault stops the server |
| LanServ.LanServT.HandleDatagram | ipmi_proto.go:180-222 | any datagram: dropped below five bytes, a ping answered, and what it parses to, or an empty message, dispatched |
| LanServ.LanServT.ServeAll | ipmi_proto.go:147-178 | over any datagrams the tables go through the run of the requests they hold and everything sent is that run's traffic, up to the first request that stops the server |
| Sessions.StepPanics | ipmi_internal_app.go:423-436 | a request stops the server exactly when its command has no entry, or it is a close of at least four bytes whose own id does not resolve |
| Sessions.ServeStops | ipmi_proto.go:393-607 | a request of any network function stops the server exactly when function or command has no entry, it is an unresolved close, or a repository, event-log or sensor handler faults |
| Receiving.ReachesApplication | ipmi_proto.go:180-222 | a datagram reaches the application handlers exactly with five bytes, IPMI class, no RMCP+, sequence byte 0xff, and the application function at byte 15, or 31 behind an auth code |
| Receiving.NotParsed | ipmi_proto.go:182-186 | a datagram is dropped exactly below five bytes; one not parsed meets the first chassis command, which does nothing |
| Receiving.ParsedFields | ipmi_proto.go:224-270 | what parsing makes of any buffer, byte by byte, stopping behind the header without sequence byte 0xff |
| Receiving.PongBytes | ipmi_proto.go:650-693 | exactly a presence ping is answered, by 28 bytes with its tag, counted lengths and the enterprise number twice |
| Receiving.MissingEntries | ipmi_proto.go:393-631 | the commands and functions without an entry, and those with one that never answer |
| SessionInvariant.CountFull | ipmi_internal_app.go:219-228 | with slot 0 unused, the active count is full exactly when every other slot is active |
| SessionInvariant.FreeSlotIffBelowLimit | ipmi_internal_app.go:275-307 | the free-slot search succeeds exactly when the counter is below the limit, and the counter never exceeds it |
| SessionInvariant.ActiveCounted | ipmi_internal_app.go:458-460 | the counter is positive whenever a session is active, so closing never underflows |
| SessionInvariant.SidResolves | ipmi_internal_proto.go:213-237 | an active session's id resolves to its slot, and no two active slots share an id |
| SessionInvariant.IssuedSidValue | ipmi_internal_app.go:331-337 | an issued id is even and carries its slot in bits 1 to 6, with 25 bits of the sequence number above |
| SessionInvariant.TempSidValue | ipmi_internal_app.go:199-201 | a temporary id is odd and leads back to its user exactly when the index is below 64 |
| SessionInvariant.StepEffect | ipmi_internal_app.go:91-462 | every request keeps the slots' identities, opens exactly one free slot, or closes exactly one active slot, with the counter moving to match |
| SessionInvariant.EffectKeepsInv | ipmi_internal_app.go:309-337 | each such effect keeps the table invariant |
| SessionInvariant.Opening | ipmi_internal_app.go:275-323 | a slot becomes active only by an activation under a temporary id, with the limit and the non-zero outbound number asked for, at the user level |
| SessionInvariant.NextKeepsInv | ipmi_proto.go:180-202 | every request of any network function that does not stop the server keeps the invariant and the configuration |
| SessionInvariant.RunKeepsInv | ipmi_proto.go:167-178 | so does every run of requests, up to one that stops the server |
| SessionInvariant.EveryRunIsConsistent | ipmi_proto.go:93-95 | from start-up, after any requests: the counter is the number of active slots and at most 16, slot 0 is inactive, every active id is even and resolves to its slot |
| SessionInvariant.NeverResolves | ipmi_internal_proto.go:222-235 | a close under session id 0 or under an odd id stops the server in every state that keeps the invariant |
| SessionInvariant.NullCloseStops | ipmi_internal_app.go:423-436 | a concrete close datagram under id 0 stops the server after any run from start-up |
| SessionHistory.SidsDiffer | ipmi_internal_app.go:331-337 | ids issued less than 2^25-1 activations apart differ, across the wrap and the skipped zero |
| SessionHistory.SidReturns | ipmi_internal_app.go:331-337 | at 2^25-1 activations apart an id does come back |
| SessionHistory.IssuedAt | ipmi_internal_app.go:331-337 | the j-th id of a run is built from the j-th value of the skip-zero counter and a slot in 1 to 16 |
| SessionHistory.IssuedSidsAreFresh | ipmi_internal_app.go:331-337 | any 2^25-1 consecutive activations of any run issue different ids |
| SessionHistory.ClosedSidStaysClosed | ipmi_internal_proto.go:213-237 | an id that resolves to nothing keeps resolving to nothing for the rest of its window, whatever requests follow |
| SessionHistory.RunIssues | ipmi_internal_app.go:331-337 | a run moves the id sequence number by exactly the activations in it |
| SessionHistory.ClosedIsGone | ipmi_internal_proto.go:213-237 | the j-th id of a run, once its session is closed, resolves to nothing until 2^25-1 activations after it was issued, whatever requests follow |
| SessionHistory.RespondSends | ipmi_proto.go:280-316 | a reply uses up a session's number exactly when the packet carries that session's id; temporary and session-zero replies do not |
| SessionHistory.StepSends | ipmi_internal_app.go:280-348 | the same for whole requests other than a re-activation of the session |
| SessionHistory.NumbersAreCounter | ipmi_proto.go:312-316 | over a run of requests of any network function that keeps a session open, the packets with its id are numbered by consecutive counter values |
| SessionHistory.OutboundNumbers | ipmi_proto.go:312-316 | the k-th such packet has the closed-form number; none is zero and none repeats within 2^32-1, exactly when the first is not zero |
| SessionHistory.ReactivationNumber | ipmi_internal_app.go:359-361 | re-activation installs the number asked for exactly when rqSeq, LUN, command and two data bytes (no authentication) or auth code bytes 5 to 8 happen to be its bytes, and zero exactly when an auth code is zero there |
| SessionHistory.ReactivationSends | ipmi_internal_app.go:361-372 | the reply carries the installed number, and the counter goes on from it |
| SessionHistory.ZeroIsSent | ipmi_internal_app.go:350-372 | over any run that keeps a session open, re-activations allowed, some packet is numbered zero exactly when the session started at zero and sent before its first re-activation, or an authenticated re-activation had zeros at auth code bytes 5 to 8 |
| SessionHistory.NextNumbered | ipmi_proto.go:312-316 | no request leaves an active session at number zero: activation refuses it, the counter skips it, and a re-activation's own reply moves past it |
| SessionHistory.NumbersFromStartUp | ipmi_internal_app.go:280-292 | from start-up, after any requests, a session's packets include number zero exactly when some re-activation was authenticated with zeros at auth code bytes 5 to 8; without re-activations they have the closed form |
| SessionHistory.ZeroingRequestZeroes | ipmi_internal_app.go:361 | a concrete datagram asking for number 1 makes any open session answer under number 0 |
| SessionPrivilege.RunBounded | ipmi_internal_app.go:264-323 | every run keeps each session's limit within its user's, its type among its user's, and its level from the user level up within its limit unless that is lower |
| SessionPrivilege.NoPrivilegeBeyondUser | ipmi_internal_app.go:264-413 | in every run from start-up no session exceeds its user's maximum or uses a type its user may not: "ipmiusr" sessions have type 0, the nameless user's type 0 or 4, and only the former rise above the user level |
| SessionPrivilege.SessionStays | ipmi_internal_app.go:309-337 | a session keeps its id, user, limit, authentication type and inbound number for as long as it lasts |
| SessionPrivilege.AboveLimit | ipmi_internal_app.go:320-321 | over every run, for as long as a session lasts, it is above its limit exactly when its activation asked for less than the user level; then it stays at the user level and every request to change that is refused |
| SessionPrivilege.CallbackSession | ipmi_internal_app.go:294-321 | a concrete datagram asking for the callback level opens such a session wherever one is to spare |
| SessionPrivilege.EndsOnlyByRight | ipmi_internal_app.go:436-460 | a session ends only by a close request sent on itself or on an administrator session |
| SessionCommands.CloseCloses | ipmi_internal_app.go:421-462 | a close ends session t exactly when bytes 0 to 3 resolve to t and its sender is t or an administrator; then the counter is one lower, the id resolves to nothing and the other slots keep their identity; code 0 is answered exactly then |
| SessionCommands.ClosedForGood | ipmi_internal_proto.go:213-237 | issue, close and any later run: the j-th id of a run, closed, resolves to nothing until 2^25-1 activations after it was issued |
| SessionCommands.PrivilegeSet | ipmi_internal_app.go:378-419 | level zero keeps and reports the level, levels from the user level to the limit are taken, the callback level and levels beyond are refused with their codes; nothing else changes |
| SessionCommands.NextLevel | ipmi_internal_app.go:396-413 | only a granted request of its own changes an open session's level |
| SessionCommands.LevelIsGranted | ipmi_internal_app.go:321-413 | over every run, for as long as a session lasts, its level is the last one granted since its activation, or the user level |
| SessionCommands.ActivationOpens | ipmi_internal_app.go:243-348 | an activation under a temporary id opens a session exactly under the guards on user, both types, room, number and limit, with these fields in the first free slot and this answer; each refusal with its code or in silence |
| SessionCommands.MayOpenConfigured | ipmi_proto.go:53-75 | those guards in values for the configured users |
| SessionCommands.FirstIds | ipmi_proto.go:77-95 | the first temporary id of "ipmiusr" is 5, the first session is number 130 on slot 1 and due to last 30 seconds |
| SessionCommands.Reactivation | ipmi_internal_app.go:350-373 | re-activation changes the outbound number only and answers under it with the session's fields; an unknown id does nothing |
| SessionCommands.ShortRequests | ipmi_internal_app.go:237-431 | requests below the lengths asked for: an activation is ignored, a close or privilege request answered with the length code, which no served datagram is short enough for; a privilege request under an unknown id is ignored |
| SessionCommands.ChallengeIssued | ipmi_internal_app.go:155-217 | a temporary id is issued exactly to a known user, for a type it may use, while there is room; each refusal in order with its code |
| SessionCommands.ChallengeConfigured | ipmi_internal_app.go:174-216 | the same in values for the configured users |
| SessionCommands.CapabilitiesGiven | ipmi_internal_app.go:91-144 | for which channel and level bytes capabilities are given, refused, or not answered |
| Handshake.ReachableIsReady | ipmi_proto.go:51-96 | a state reached from start-up is ready for a handshake exactly when it has a session to spare |
| Handshake.AuthCapSucceeds | ipmi_client.go:221-254 | the first exchange is answered and accepted and changes no server state |
| Handshake.ChallengeSucceeds | ipmi_client.go:256-290 | the second hands the client the temporary id the server just issued, and the challenge |
| Handshake.ActivateSucceeds | ipmi_client.go:292-331 | the third opens the first free slot, and the client learns its id, inbound number and limit |
| Handshake.SetPrivSucceeds | ipmi_client.go:333-364 | the fourth raises exactly that session to privilege 3 on both ends |
| Handshake.ChallengeFull | ipmi_internal_app.go:191-195 | with every session taken the challenge is answered out-of-space, which the client does not accept |
| Handshake.ActivateFull | ipmi_internal_app.go:275-278 | with every session taken the activation is not answered and changes nothing |
| Handshake.StateSucceeds | ipmi_client.go:89-106 | each of the four states, in order, succeeds from the state the previous ones left |
| Handshake.HandshakeJoins | ipmi_client.go:82-106 | after the four: one new active slot, free before; the client's id resolves to it; priv and maxPriv 3; the client's number is the server's plus one; counter up by one; all other slots equal |
| Connection.ClientT.BuildMsg | ipmi_client.go:221-346 | each state's request bytes and the counters it advances |
| Connection.ClientT.ParseRsp | ipmi_client.go:237-364 | accepts exactly replies of the state's length, command and zero completion code, storing that state's fields |
| Connection.ClientT.ReqRsp | ipmi_client.go:108-146 | one try: the server takes its step if the request arrives; an error ends the try, a datagram read is parsed whether it is the reply or not, and with nothing to read the call blocks |
| Handshake.Arrival | ipmi_client.go:89-106 | each arrival of a state's request, first or repeated: where it is answered acceptably the next state can begin, and the state can be retried in any case; a full table refuses the challenge and ignores the activation |
| Handshake.StageAttached | ipmi_client.go:82-106 | after the last state the client's id resolves to a slot that was free at the start, at privilege 3 on both ends |
| Client.AcceptedExactly | ipmi_client.go:96-104 | a retry loop is done exactly when a try gets through before any silence, to a server that still answers |
| Client.BlockedExactly | ipmi_client.go:127-133 | it never returns exactly when the first try not retried is silent or finds the server silent |
| Establish.Meets | ipmi_internal_app.go:155-419 | one arrival of a state's request at any reachable state of the server: answered acceptably, refused or ignored as room and the client's session decide; an activation takes a free slot and leaves every open session alone |
| Establish.LoopExactly | ipmi_client.go:96-104 | with other clients served in between, a state's retry loop ends as its first try that is not retried goes, in the state of the server it finds |
| Connection.ClientT.RunState | ipmi_client.go:90-104 | build once, send until accepted, blocked or out of tries: both ends go where the state's loop takes them |
| Establish.WalkExactly | ipmi_client.go:89-106 | state by state, the walk goes on where it was done and ends as the loop there does |
| Establish.DoneHolds | ipmi_client.go:82-106 | whatever other clients do: a client whose walk is done holds a session that resolves from its id, at privilege 3 on both ends |
| Establish.ActivationIsNew | ipmi_internal_app.go:302-348 | its slot was free when the answered activation arrived, the sessions open then are untouched, and none has its id |
| Establish.DoneUndisturbed | ipmi_client.go:82-106 | if nobody closes its session, the last state is decided by its tries alone, and the client's number is one past the server's |
| Establish.EstablishedExactly | ipmi_client.go:89-106 | alone with the server the walk is done exactly when each state gets a reply through before any silence and there is room for every activation that arrives up to the one answered |
| Establish.AloneWalk | ipmi_client.go:82-106 | alone, the walk ends as tries and room decide, one session opened for every activation that arrived while there was room, earlier sessions untouched, the client attached to one when done |
| Connection.ClientT.EstablishSession | ipmi_client.go:82-106 | from any server state, under any errors, foreign datagrams, silence and other clients' requests, both ends go where the walk takes them, with the results above |
| Connection.StartUp | ipmi_proto.go:27-49 | a controller and a card just started end attached, with one session opened |
| Connection.ClientT.AddSdrBuildMsg | ipmi_client.go:366-382 | the add-SDR request for a record's bytes and the counters it advances |
| Numbering.RequestNumbers | ipmi_client.go:221-382 | whatever is asked, pushed and read, the k-th request arrives as number r0 + k modulo 64, so no two in a row share one |
| Numbering.WalkNumbers | ipmi_client.go:89-106 | through the walk with its retries, state k's request arrives as number r0 + k and the j-th built later as r0 + k + j |
| Numbering.PushNumbers | ipmi_client.go:366-382 | after a handshake the k-th push arrives under the session's id as number recvSeq + 1 + k |
| Numbering.ReplyEchoes | ipmi_proto.go:337-342 | a reply carries its request's number and command back |
| Numbering.AcceptanceBytes | ipmi_client.go:211-364 | of an acceptable reply exactly six bytes matter: changing one makes it unacceptable, changing another does not |
| Numbering.PushAcceptanceBytes | ipmi_client.go:384-399 | the same for the reply to a push |
| Numbering.AcceptedByOne | ipmi_client.go:237-399 | no reply is acceptable to two states, nor to a state and a push |
| Numbering.RequestLength | ipmi_client.go:40-62 | each handshake request's length byte counts the bytes after it |
| Numbering.PushLength | ipmi_client.go:372 | that of a push says one less |
| Numbering.ReplyLength | ipmi_proto.go:323-326 | that of a reply counts the bytes after it |
| Client.PushArrives | ipmi_internal_sensor.go:266-267 | the packet patched at byte 66 reaches the server as an add-SDR message whose record bytes are the record's with the reading at byte 46 |
| Client.PushChecksum | ipmi_internal_sensor.go:266-267 | its second checksum holds exactly when the reading equals the byte it replaced |
| Sel.ProbeIsShort | bmc.go:382-392 | from any log and any counter value the id search ends within number-of-entries + 1 steps, on a free id when there are fewer than 65535 entries |
| Sel.AddAllocates | bmc.go:367-424 | adding succeeds exactly when there is room, with an id no entry held and not 0xFFFF |
| Sel.AddRefused | bmc.go:368-391 | an add is refused exactly when the log is full or no id is free, with one code; the flag or the counter moves and nothing else |
| Sel.SelT.FindSelEventByRecid | bmc.go:355-365 | finds an entry exactly when one holds the id |
| Sel.SelT.AddToSel | bmc.go:367-424 | takes the first free id from the counter on, wrapping; stores the record; reports out of space exactly when full or when no id is free |
| Sel.SelT.GetSelEntry | ipmi_internal_storage.go:362-433 | the reply with next id and clipped record bytes, the code of the first failed test, or a stop where the slice bounds are out of order |
| Codes.SliceInOrder | ipmi_internal_storage.go:426-429 | the slice taken is in order exactly when offset plus count fits eight bits, and then ends at their sum or at the record's end |
| Sel.SelT.ClearSel | ipmi_internal_storage.go:459-498 | erases only with a valid reservation, the letters CLR and operation 0xaa; counters are kept |
| Sel.SelT.ReserveSel | ipmi_internal_storage.go:347-360 | the next non-zero reservation |
| Sel.SelT.AddSelEntry | ipmi_internal_storage.go:435-449 | adds the record from its fourth byte on and answers its id or the error |
| Sel.AddInRun | bmc.go:367-424 | in every reachable log the new id is count + 1, appended last; a full log is unchanged |
| Sel.IdsAreConsecutive | bmc.go:382-392 | over any run with erases the ids issued are count + 1, count + 2, and so on, at most maxCount in all |
| Sel.RunKeepsInv | ipmi_internal_storage.go:485-495 | over any run the non-zero ids held are exactly those since the last erase, in increasing order, behind the blank entries it left |
| Sel.ErasedStaysErased | ipmi_internal_storage.go:485-495 | an erased id is never held again |
| Sel.StaleReservationRefused | ipmi_internal_storage.go:370-375 | a reservation is refused after 1 to 65534 further ones |
| Sel.ReadRefusals | ipmi_internal_storage.go:372-390 | the refusals of a read in their order: reservation, offset, empty log |
| Sel.ReservationOverRun | ipmi_internal_storage.go:347-360 | over every run only reservations replace the reservation |
| Sel.OverflowFlag | bmc.go:368-371 | the overflow flag is up exactly when an add was refused and nothing erased since, or it was up and nothing was erased; the other flags never change |
| Sel.ReadEnds | ipmi_internal_storage.go:392-421 | ids 0 and 0xffff read the oldest and newest record exactly while nothing was erased; an id not handed out is not present |
| Sel.NewestIsLastAdd | ipmi_internal_storage.go:400-402 | from start-up and without an erase, id 0xffff reads what the last stored add stored |
| Sel.WalkIsLog | ipmi_internal_storage.go:392-415 | following next ids from 0 returns the live records once, in order, exactly when nothing was erased or nothing is live |
| Sel.WalkOverRuns | ipmi_internal_storage.go:392-415 | from start-up: the whole log when no erase happened, nothing after one |
| Sel.WalkIsAdds | bmc.go:400-412 | from start-up and without an erase, the walk returns what the first thousand adds stored, numbered from 1, whatever lies between |
| Sel.ReadById | ipmi_internal_storage.go:403-415 | in every reachable log, after any erases: reading an id returns its record's bytes, ids from before the last erase return nothing, and next ids chain only while nothing was erased |
| Sel.AddThenRead | bmc.go:400-408 | until the next erase, whatever else is added or was erased before, reading an added record's id returns its id, type, timestamp below type 0xe0, and the given bytes in place |
| Sel.AddSelEntryShifts | ipmi_internal_storage.go:439-440 | the handler stores a record's bytes in place exactly when they are all zero |
| Sdr.AppendKeepsInv | ipmi_internal_storage.go:144-176 | appending keeps ids increasing below the counter exactly while the counter does not wrap |
| Sdr.RunKeepsInv | ipmi_internal_storage.go:144-176 | over runs of any length of adds, updates, clears and reservations: ids strictly increase, the counter is sdrCount + 1 and the list no longer than sdrCount at every state exactly while the id counter does not wrap; new ids are then consecutive |
| Sdr.EveryRunIsOrdered | bmc.go:123-125 | the same from start-up, on any card; no id is given twice |
| Sdr.ClearedStaysCleared | ipmi_internal_storage.go:292-304 | ids dropped by a clear are not held again while the counter has not wrapped, however long the run |
| Sdr.LocalsStopAtLimit | bmc.go:263-267 | over any run of local records each gets an id until the next would be the limit, then none does |
| Sdr.ReservationOverRun | ipmi_internal_storage.go:55-67 | over every run only reservations replace the reservation; card and limit never change |
| Sdr.StaleReservationRefused | ipmi_internal_storage.go:80-85 | a reservation is refused after 1 to 65534 further ones, the current one is as good as none |
| Sdr.ReadRefusals | ipmi_internal_storage.go:80-119 | the refusals of a read in their order: reservation, record, offset |
| Sdr.ReadLast | ipmi_internal_storage.go:92-141 | id 0xffff reads the last record as the end of the chain; an id no record holds, and an empty repository, give not-present |
| Sdr.LocalThenRead | bmc.go:269-339 | a record made on the card reads back as its id, body and name and five zeros |
| Sdr.WalkIsRepository | ipmi_internal_storage.go:92-142 | following next ids from 0 returns every record once, in insertion order, stopping early exactly at a record of length zero |
| Sdr.EmptyRecordStored | ipmi_internal_storage.go:212-226 | an add with length byte 251 stores a record of length zero, and the walk no longer shows the repository |
| Sdr.PiecesReassemble | ipmi_internal_storage.go:115-141 | reads of any sizes, each from where the last ended, put together are the record |
| Sdr.AddThenRead | ipmi_internal_storage.go:144-230 | a record added from a message reads back as the message's bytes, with the new id in front on the central card and zeros elsewhere |
| Sdr.KnownAnswered | ipmi_internal_storage.go:198-254 | a message about a known sensor is answered with its record's id and changes at most its value; an update of an unknown one is not answered |
| Sdr.SecondDelivery | ipmi_internal_storage.go:192-254 | a second delivery changes nothing and answers the same exactly for updates, unit 0, or a known sensor |
| Sdr.DeliverIsOnce | ipmi_internal_storage.go:192-254 | then any number of deliveries equals one |
| SdrList.SdrsT.constructor | bmc.go:123-125 | an empty list, next id 1, limit 2000 |
| SdrList.SdrsT.NewSdrEntry | ipmi_internal_storage.go:144-160 | a fresh node with the next id, stamped into its bytes on the central card only |
| SdrList.SdrsT.AddSdrEntry | ipmi_internal_storage.go:162-176 | links the node behind the tail: the list stays acyclic with the right head and tail, and its records are the old ones and the new |
| SdrList.SdrsT.AddSdrMessage | ipmi_internal_storage.go:178-255 | on the linked list: ignore a duplicate, append, update in place, or stay silent, with the reply; stops the server, an id taken, exactly when an appended record is too long to copy |
| SdrList.SdrsT.MainSdrAdd | bmc.go:263-339 | a local record under the next id unless the id counter has reached the limit |
| SdrList.SdrsT.GetSdr | ipmi_internal_storage.go:69-142 | the reply with next id and clipped bytes, head for id 0 and tail for 0xffff, the code of the first failed test, or a stop where the slice bounds are out of order |
| SdrList.SdrsT.ReserveSdrRepository | ipmi_internal_storage.go:55-67 | the next non-zero reservation |
| SdrList.SdrsT.ClearSdrRepository | ipmi_internal_storage.go:265-307 | empties the list only with a valid reservation, the letters CLR and operation 0xaa; counters are kept |
| Sensors.PolledAgrees | ipmi_internal_sensor.go:223-259 | after any part of a poll each visited sensor's value is its first record's, unvisited sensors and all other records are as before, and nothing but values changed |
| Sensors.ReadingIsPolled | ipmi_internal_sensor.go:159-200 | after a poll, reading a registered sensor returns the polled value, its status bytes unchanged |
| Sensors.ReadingBits | ipmi_internal_sensor.go:166-199 | the reply bit by bit: value, events and scanning bits, event status, or code 0x81 |
| Sensors.QuietBoard | ipmi_internal_sensor.go:230-241 | a board whose sensors are all numbered above 36 reads zero in every poll |
| Sensors.SensorNumInjective | bmc.go:138-180 | no two sensors of cards 0 to 15 share a number |
| Sensors.StartRecordDescribed | bmc.go:137-191 | each start-up record names its own sensor under unit zero in the bytes the central card files it by, its length fits, and its OEM byte is zero |
| Sensors.RegisterCovers | bmc.go:228-339 | registering a sensor with its record keeps every sensor covered by a record exactly when an id is left or the sensor had a record |
| Sensors.StartedOk | bmc.go:134-191 | after start-up a card's four sensors are registered, each with its record, ready for polling, and a line card has sent four adds |
| Sensors.StartSensorAgrees | bmc.go:137-191 | sensor and record of a registration agree in unit, number, kind and reading code, and the record's length byte covers it up to the name's end |
| Sensors.StartReadings | ipmi_internal_sensor.go:182-197 | after start-up each sensor reads zero with status 0xC0 |
| Sensors.StartRecordRead | bmc.go:137-191 | reading the k-th start-up record gives its id, body, name and five zeros |
| Sensors.AddedReads | ipmi_internal_storage.go:217-224 | a sensor added from a message reads zero with status 0xC0 |
| Sensors.SimulatedCovers | ipmi_internal_sensor.go:230-241 | every reading in a sensor's range is drawn for some random number; a sensor without a case repeats the one before |
| Sensors.ClearUncovers | ipmi_internal_storage.go:292-304 | clearing the repository after start-up leaves registered sensors without records |
| Sensors.BoardT.Register | bmc.go:137-149 | one registration on the linked list: sensor, record, and the add request of a line card |
| Sensors.BoardT.BmcInit | bmc.go:134-191 | the four registrations in turn |
| Sensors.BoardT.PollSensors | ipmi_internal_sensor.go:212-280 | the nested loops visit every sensor once in order, completing exactly when each registered sensor has a record |
| Sensors.BoardT.VisitSensor | ipmi_internal_sensor.go:225-277 | one visit: sensor and first matching record get the value, and a line card queues the patched push; a missing record is found out |
| Sensors.BoardT.GetSensorReading | ipmi_internal_sensor.go:159-200 | the reply from the first matching record, or code 0x81 |
| Mirror.ReplyOnSession | ipmi_proto.go:280-322 | an add reply is accepted outside a session and on one without auth codes, not accepted on one with, and not sent when the session is closed; the session stays as it was |
| Mirror.SendWithRetry | ipmi_client.go:108-146 | a push tried up to three times ends as its tries, the record and the session decide; the records end as after exactly the arrivals before its end, which for a repeatable message is as after one |
| Mirror.HandledOnce | ipmi_internal_storage.go:192-254 | arrivals of a repeatable push after the first change nothing |
| Mirror.AttachedAnswers | ipmi_proto.go:280-299 | the session a handshake leaves is one the client's pushes are answered on |
| Mirror.RegisterAndPush | bmc.go:264-352 | a line card's new sensor is registered locally, and its add reaches the central card as often as a try arrives, whether or not its session is still open |
| Mirror.VisitAndPush | ipmi_internal_sensor.go:225-277 | a visit's reading is stored locally and pushed as far as session and tries allow; a non-zero reading of a sensor unknown to the central card is never answered |
| Mirror.HandledShows | ipmi_internal_storage.go:185-254 | through the packet's bytes, an arrival moves the value shown for its own sensor only |
| Chassis.CardStepInv | ipmi_internal_sensor.go:212-280 | every step of a card keeps: its sensors carry its own numbers, its records describe its sensors, and its last packet says what its sensor says |
| Chassis.StepDisplays | ipmi_internal_storage.go:185-254 | whatever any card does, the value shown for a line card's sensor moves only when a packet about it arrives |
| Chassis.ControllerShows | ipmi_internal_storage.go:192-254 | over every interleaving and any number of arrivals, what is shown for a sensor is what the arrivals about it make of it |
| Chassis.ArrivalsHandled | ipmi_client.go:96-104 | a push that reaches the central card n times is n arrivals of the run |
| Chassis.ControllerMirrors | bmc.go:341-352 | from power-on, in every run: for each sensor of each line card the last non-zero reading that arrived, zero if none did, once its add has arrived, and nothing before |
| Chassis.ControllerInStep | ipmi_internal_sensor.go:261-277 | when each packet arrives before its card's next, the value shown is the card's own for every sensor not under way, unless that is zero; temperatures exactly |
| Chassis.BoardIsOwn | ipmi_internal_sensor.go:212-280 | a line card's board depends on its own steps only |
| Chassis.StepSends | ipmi_internal_sensor.go:265-267 | a line card's step sends nothing, or one packet numbered by its context, which moves on by one |
| Chassis.PollIsRun | ipmi_internal_sensor.go:223-224 | the visits of a poll, one by one, are the poll |
| Chassis.PollMirrored | ipmi_internal_sensor.go:223-277 | after a line card's whole poll, interleaved with anything the others do, the central card shows every value drawn unless it is zero |
| Chassis.QuietCards | ipmi_internal_sensor.go:230-241 | cards 3 and up are shown at zero for ever |

## Left out

- Sockets, goroutines, the select loop and the ticker: handlers and polls are atomic steps; the unsynchronised poll goroutine is not modelled.
- Clock and random values are parameters; the timestamps of the last add and erase are not kept, and the inbound number, which the code draws from a generator of fixed seed, is arbitrary.
- Application commands with empty handlers do nothing here as there. The storage and sensor handlers are modelled on the request bytes; a run of the session manager takes what they come to (silence, reply data or a fault) as a parameter of the request. RMCP+ is not implemented in the code.
- Auth codes and passwords are not implemented in the code. Session time-outs are stored and never counted down.
- Repository and event-log info replies (free-space arithmetic and copies of counters), and the three event records added at start-up.
- Connection.ClientT.EstablishSession: a try reads the server's reply to its own request or a datagram the state does not accept; a reply to an earlier try of the same state, read by a later one, is not modelled.
- Mirror.SendWithRetry: requires that a record appended by the push fits, as every record made at start-up does (`Sensors.StartRecordDescribed`).
- SdrList.SdrsT.GetSdr: requires record lengths to fit the 64-byte array.
- Chassis.ControllerMirrors: a card registers each of its sensors once, as start-up does, sessions do not appear because the add handler does not consult them, and nobody clears the central card's records during the run.
- Session slots are values in an array, and a reply on the handler's local session is a value passed to the sender; record bytes are a sequence held by each list node; the sensor table is a map. Aliasing between those is not modelled, and the code has none.
- In the handshake, all arrivals of one request happen before the client's next one; in the chassis, a packet does not arrive after its card has sent the next.
