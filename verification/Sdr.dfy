/** The sensor data record repository as a value (sections 33.9 to 33.13 of the IPMI v2.0
    specification): adding, updating, clearing and reading records. */
module Sdr {
  import opened Bits
  import opened Codes
  import Cyclic

  const RECORD_BYTES := 64

  datatype Record = Record(recordId: u16, lun: u8, sensNum: u8, length: u8, enabled: bool, eventsEnabled: bool,
                           scanningEnabled: bool, eventStatus: u16, value: u8, data: seq<u8>)

  /** `card` is the chassis card number: 0 on the central controller. */
  datatype Repo = Repo(card: u8, entries: seq<Record>, reservation: u16, sdrCount: u16, maxSdrCount: u16, nextFreeEntryId: u16)

  datatype Answer = Answer(repo: Repo, reply: Option<seq<u8>>)

  // ---------- searching ----------

  /** The first record for a sensor, from position i on, or the length. */
  function First(es: seq<Record>, lun: u8, num: u8, i: nat): (r: nat)
    requires i <= |es|
    ensures i <= r <= |es|
    ensures r < |es| ==> es[r].lun == lun && es[r].sensNum == num
    ensures forall k :: i <= k < r ==> !(es[k].lun == lun && es[k].sensNum == num)
    decreases |es| - i
  {
    if i == |es| || (es[i].lun == lun && es[i].sensNum == num) then i else First(es, lun, num, i + 1)
  }

  /** The first record with an id, from position i on, or the length. */
  function WithId(es: seq<Record>, id: u16, i: nat): (r: nat)
    requires i <= |es|
    ensures i <= r <= |es|
    ensures r < |es| ==> es[r].recordId == id
    ensures forall k :: i <= k < r ==> es[k].recordId != id
    decreases |es| - i
  {
    if i == |es| || es[i].recordId == id then i else WithId(es, id, i + 1)
  }

  // ---------- commands ----------

  function Reply(e: Record): seq<u8> {
    [0] + Le16(e.recordId)
  }

  /** The byte count of a new record, from its length field, in eight bits. */
  function LengthOf(p: seq<u8>): u8
    requires |p| == RECORD_BYTES
  {
    (p[4] as int + 5) % 0x100
  }

  /** A record made from the 64 bytes of an add message.  Its logical unit is left at zero,
      and only the central controller stamps its own id into the bytes. */
  function NewRecord(r: Repo, p: seq<u8>): Record
    requires |p| == RECORD_BYTES && LengthOf(p) + 2 <= RECORD_BYTES
  {
    var n := LengthOf(p);
    Record(r.nextFreeEntryId, 0, p[7], n, true, true, true, 0, 0,
           (if r.card == 0 then Le16(r.nextFreeEntryId) else [0, 0]) + p[2..2 + n] + Zeros(RECORD_BYTES - 2 - n))
  }

  function Append(r: Repo, e: Record): Repo {
    r.(entries := r.entries + [e], sdrCount := (r.sdrCount + 1) % 0x1_0000, nextFreeEntryId := (r.nextFreeEntryId + 1) % 0x1_0000)
  }

  /** The copy into the 64-byte array is in bounds whenever a record is appended. */
  predicate Addable(r: Repo, p: seq<u8>) {
    |p| == RECORD_BYTES && (p[46] == 0 && First(r.entries, p[6], p[7], 0) == |r.entries| ==> LengthOf(p) + 2 <= RECORD_BYTES)
  }

  /** The add-SDR message: with a zero OEM byte an add that ignores duplicates, otherwise an
      update of the sensor's value, silent when the sensor is unknown. */
  function AddSdr(r: Repo, p: seq<u8>): Answer
    requires Addable(r, p)
  {
    var i := First(r.entries, p[6], p[7], 0);
    if p[46] == 0 then
      if i < |r.entries| then Answer(r, Some(Reply(r.entries[i])))
      else Answer(Append(r, NewRecord(r, p)), Some(Reply(NewRecord(r, p))))
    else if i < |r.entries| then
      Answer(r.(entries := r.entries[i := r.entries[i].(value := p[46])]), Some(Reply(r.entries[i])))
    else Answer(r, None)
  }

  /** Bytes 2 to 47 of a locally made record, and its name. */
  predicate Makeable(body: seq<u8>, idStr: seq<u8>) {
    |body| == 46 && body[45] % 32 <= 11 && body[45] % 32 <= |idStr|
  }

  function LocalRecord(r: Repo, body: seq<u8>, idStr: seq<u8>): Record
    requires Makeable(body, idStr)
  {
    var n := body[45] % 32;
    Record(r.nextFreeEntryId, body[4], body[5], 48 + n + 5, true, true, true, 0, 0,
           Le16(r.nextFreeEntryId) + body + idStr[..n] + Zeros(16 - n))
  }

  /** A locally made record is refused when the id counter has reached the limit. */
  function MainSdrAdd(r: Repo, body: seq<u8>, idStr: seq<u8>): Repo
    requires Makeable(body, idStr)
  {
    if r.nextFreeEntryId >= r.maxSdrCount then r else Append(r, LocalRecord(r, body, idStr))
  }

  /** Clearing drops the records and keeps both counters. */
  function Clear(r: Repo): Repo {
    r.(entries := [])
  }

  function Reserve(r: Repo): Repo {
    r.(reservation := Cyclic.Succ(r.reservation, Cyclic.M16))
  }

  predicate Sized(es: seq<Record>) {
    forall i :: 0 <= i < |es| ==> |es[i].data| == RECORD_BYTES && es[i].length <= RECORD_BYTES
  }

  function NextId(es: seq<Record>, i: nat): u16 {
    if i + 1 < |es| then es[i + 1].recordId else LAST_ID
  }

  /** Where a record id leads: zero to the first record, the last id to the last. */
  function Position(es: seq<Record>, id: u16): nat {
    if id == 0 then 0 else if id == LAST_ID then (if es == [] then 0 else |es| - 1) else WithId(es, id, 0)
  }

  function ReadRecord(es: seq<Record>, i: nat, offset: u8, want: u8): seq<u8>
    requires i < |es| && offset < es[i].length <= |es[i].data|
  {
    [0] + Le16(NextId(es, i)) + es[i].data[offset..Min(offset + want, es[i].length)]
  }

  /** A read whose slice bounds are out of order stops the server: its record is found, its
      offset lies inside it, and offset plus count does not fit eight bits. */
  predicate Faults(r: Repo, reservation: u16, id: u16, offset: u8, want: u8) {
    var i := Position(r.entries, id);
    (reservation == 0 || reservation == r.reservation) && i < |r.entries| && offset < r.entries[i].length && offset + want > 255
  }

  /** Reply data of a read: completion code, the next record's id, record bytes clipped to
      the record's length. */
  function Read(r: Repo, reservation: u16, id: u16, offset: u8, want: u8): seq<u8>
    requires Sized(r.entries) && !Faults(r, reservation, id, offset, want)
  {
    var i := Position(r.entries, id);
    if reservation != 0 && reservation != r.reservation then [INVALID_RESERVATION_CC]
    else if i >= |r.entries| then [NOT_PRESENT_CC]
    else if offset >= r.entries[i].length then [PARAMETER_OUT_OF_RANGE_CC]
    else ReadRecord(r.entries, i, offset, want)
  }

  // ---------- the invariant ----------

  predicate Inv(r: Repo) {
    && Sized(r.entries)
    && (forall i, j :: 0 <= i < j < |r.entries| ==> r.entries[i].recordId < r.entries[j].recordId)
    && (forall i :: 0 <= i < |r.entries| ==> 0 < r.entries[i].recordId < r.nextFreeEntryId)
    && r.nextFreeEntryId == r.sdrCount + 1 && |r.entries| <= r.sdrCount
  }

  /** Appending a record under the next id keeps the invariant exactly as long as the id
      counter does not wrap. */
  lemma AppendKeepsInv(r: Repo, e: Record)
    requires Inv(r) && e.recordId == r.nextFreeEntryId && |e.data| == RECORD_BYTES && e.length <= RECORD_BYTES
    ensures Inv(Append(r, e)) <==> r.nextFreeEntryId < 0xffff
  {
    if r.nextFreeEntryId == 0xffff {
      assert Append(r, e).nextFreeEntryId == 0;
    }
  }

  datatype Event = AddMessage(p: seq<u8>) | AddLocal(body: seq<u8>, idStr: seq<u8>) | ClearAll | ReserveOne

  predicate Possible(r: Repo, e: Event) {
    match e
    case AddMessage(p) => Addable(r, p)
    case AddLocal(body, idStr) => Makeable(body, idStr)
    case _ => true
  }

  function Next(r: Repo, e: Event): Repo
    requires Possible(r, e)
  {
    match e
    case AddMessage(p) => AddSdr(r, p).repo
    case AddLocal(body, idStr) => MainSdrAdd(r, body, idStr)
    case ClearAll => Clear(r)
    case ReserveOne => Reserve(r)
  }

  predicate AllPossible(r: Repo, evs: seq<Event>)
    decreases |evs|
  {
    evs == [] || (Possible(r, evs[0]) && AllPossible(Next(r, evs[0]), evs[1..]))
  }

  function Run(r: Repo, evs: seq<Event>): Repo
    requires AllPossible(r, evs)
    decreases |evs|
  {
    if evs == [] then r else Run(Next(r, evs[0]), evs[1..])
  }

  /** One event either appends a record under the next id or leaves the id counter and the
      ids held alone, up to dropping them.  It keeps the invariant exactly unless it appends
      with the counter at its last value. */
  lemma NextKeepsInv(r: Repo, e: Event)
    requires Inv(r) && Possible(r, e)
    ensures var r' := Next(r, e);
            && (Inv(r') <==> r'.nextFreeEntryId == r.nextFreeEntryId || r.nextFreeEntryId < 0xffff)
            && (r'.nextFreeEntryId != r.nextFreeEntryId ==>
                  && r'.nextFreeEntryId == (r.nextFreeEntryId + 1) % 0x1_0000
                  && |r'.entries| == |r.entries| + 1 && r'.entries[|r.entries|].recordId == r.nextFreeEntryId)
  {
    hide Le16, Zeros;
    match e {
      case AddMessage(p) =>
        if p[46] == 0 && First(r.entries, p[6], p[7], 0) == |r.entries| {
          AppendKeepsInv(r, NewRecord(r, p));
        }
      case AddLocal(body, idStr) =>
        if r.nextFreeEntryId < r.maxSdrCount {
          AppendKeepsInv(r, LocalRecord(r, body, idStr));
        }
      case _ =>
    }
  }

  predicate Holds(es: seq<Record>, id: u16) {
    exists k :: 0 <= k < |es| && es[k].recordId == id
  }

  /** An event makes no id appear but the next one, and that only when it moves the counter. */
  lemma NextHolds(r: Repo, e: Event, id: u16)
    requires Possible(r, e) && Holds(Next(r, e).entries, id)
    ensures Holds(r.entries, id) || (id == r.nextFreeEntryId && Next(r, e).nextFreeEntryId != r.nextFreeEntryId)
  {
    hide Le16, Zeros;
    var es := Next(r, e).entries;
    var k :| 0 <= k < |es| && es[k].recordId == id;
    if k < |r.entries| {
      assert r.entries[k].recordId == id;
    }
  }

  /** The ids given to new records over a run, in order. */
  function IdsOf(r: Repo, evs: seq<Event>): seq<u16>
    requires AllPossible(r, evs)
    decreases |evs|
  {
    if evs == [] then []
    else
      var r1 := Next(r, evs[0]);
      (if r1.nextFreeEntryId != r.nextFreeEntryId && r1.entries != [] then [r1.entries[|r1.entries| - 1].recordId] else [])
      + IdsOf(r1, evs[1..])
  }

  /** The id counter does not wrap: there are ids left for all records the run appends.
      Updates, duplicates, clears and reservations take none. */
  predicate NoWrap(r: Repo, evs: seq<Event>)
    requires AllPossible(r, evs)
  {
    r.nextFreeEntryId + |IdsOf(r, evs)| <= 0xffff
  }

  /** The invariant holds at every state of the run. */
  predicate InvThroughout(r: Repo, evs: seq<Event>)
    requires AllPossible(r, evs)
    decreases |evs|
  {
    Inv(r) && (evs == [] || InvThroughout(Next(r, evs[0]), evs[1..]))
  }

  /** Over runs of any length: the invariant holds at every state exactly when the id counter
      does not wrap, and then new records get consecutive ids, through clears, so no id is
      ever given twice. */
  lemma {:induction false} RunKeepsInv(r: Repo, evs: seq<Event>)
    requires Inv(r) && AllPossible(r, evs)
    ensures InvThroughout(r, evs) <==> NoWrap(r, evs)
    ensures NoWrap(r, evs) ==>
              && Inv(Run(r, evs))
              && (forall k :: 0 <= k < |IdsOf(r, evs)| ==> IdsOf(r, evs)[k] == r.nextFreeEntryId + k)
              && Run(r, evs).nextFreeEntryId == r.nextFreeEntryId + |IdsOf(r, evs)|
    decreases |evs|
  {
    hide Next, Inv;
    if evs == [] {
      CounterFits(r);
    } else {
      var r1 := Next(r, evs[0]);
      NextKeepsInv(r, evs[0]);
      if Inv(r1) {
        RunKeepsInv(r1, evs[1..]);
      }
    }
  }

  lemma CounterFits(r: Repo)
    ensures r.nextFreeEntryId <= 0xffff
  {
  }

  /** From start-up, on any card, over any number of events: while the id counter has not
      wrapped the list is in order, every id is below the counter, and no id was given
      twice. */
  lemma EveryRunIsOrdered(card: u8, evs: seq<Event>)
    requires AllPossible(Repo(card, [], 0, 0, 2000, 1), evs)
    ensures var r0 := Repo(card, [], 0, 0, 2000, 1);
            && (InvThroughout(r0, evs) <==> NoWrap(r0, evs))
            && (NoWrap(r0, evs) ==>
                  && Inv(Run(r0, evs)) && Run(r0, evs).nextFreeEntryId == Run(r0, evs).sdrCount + 1
                  && forall j, k :: 0 <= j < k < |IdsOf(r0, evs)| ==> IdsOf(r0, evs)[j] < IdsOf(r0, evs)[k])
  {
    hide Next;
    RunKeepsInv(Repo(card, [], 0, 0, 2000, 1), evs);
  }

  /** Ids dropped by a clear never come back while the counter has not wrapped. */
  lemma ClearedStaysCleared(r: Repo, evs: seq<Event>, id: u16)
    requires Inv(r) && AllPossible(Clear(r), evs) && NoWrap(Clear(r), evs) && id < r.nextFreeEntryId
    ensures !Holds(Run(Clear(r), evs).entries, id)
  {
    hide Next;
    StaysAbsent(Clear(r), evs, id);
  }

  lemma {:induction false} StaysAbsent(r: Repo, evs: seq<Event>, id: u16)
    requires Inv(r) && AllPossible(r, evs) && NoWrap(r, evs) && id < r.nextFreeEntryId
    requires !Holds(r.entries, id)
    ensures !Holds(Run(r, evs).entries, id)
    decreases |evs|
  {
    hide Next, Inv, Holds;
    if evs != [] {
      NextKeepsInv(r, evs[0]);
      if Holds(Next(r, evs[0]).entries, id) {
        NextHolds(r, evs[0], id);
        assert false;
      }
      StaysAbsent(Next(r, evs[0]), evs[1..], id);
    }
  }

  /** What an event leaves alone: the card and the limit always, the reservation unless it
      hands out a new one. */
  lemma NextKeeps(r: Repo, e: Event)
    requires Possible(r, e)
    ensures var r1 := Next(r, e);
            && r1.card == r.card && r1.maxSdrCount == r.maxSdrCount
            && r1.reservation == if e.ReserveOne? then Cyclic.Succ(r.reservation, Cyclic.M16) else r.reservation
  {
  }

  function Reserves(evs: seq<Event>): nat {
    if evs == [] then 0 else (if evs[0].ReserveOne? then 1 else 0) + Reserves(evs[1..])
  }

  /** Only reservations replace the reservation: adds, updates and clears leave it valid. */
  lemma {:induction false} ReservationOverRun(r: Repo, evs: seq<Event>)
    requires AllPossible(r, evs)
    ensures var r' := Run(r, evs);
            && r'.reservation == Cyclic.Iter(r.reservation, Cyclic.M16, Reserves(evs))
            && r'.card == r.card && r'.maxSdrCount == r.maxSdrCount
    decreases |evs|
  {
    hide Next, Possible;
    if evs != [] {
      NextKeeps(r, evs[0]);
      ReservationOverRun(Next(r, evs[0]), evs[1..]);
      if evs[0].ReserveOne? {
        Cyclic.IterShift(r.reservation, Cyclic.M16, 1, Reserves(evs[1..]));
        assert Cyclic.Iter(r.reservation, Cyclic.M16, 1) == Cyclic.Succ(Cyclic.Iter(r.reservation, Cyclic.M16, 0), Cyclic.M16);
      }
    }
  }

  /** Local records stop at the limit: over any run of them, each gets an id until the next one
      would be the limit, and then none does. */
  lemma {:induction false} LocalsStopAtLimit(r: Repo, evs: seq<Event>)
    requires AllPossible(r, evs) && r.nextFreeEntryId <= r.maxSdrCount && forall k :: 0 <= k < |evs| ==> evs[k].AddLocal?
    ensures Run(r, evs).nextFreeEntryId == Min(r.nextFreeEntryId + |evs|, r.maxSdrCount)
    ensures |Run(r, evs).entries| == |r.entries| + (Run(r, evs).nextFreeEntryId - r.nextFreeEntryId)
    decreases |evs|
  {
    hide Next, Possible;
    if evs != [] {
      assert evs[0].AddLocal?;
      LocalNext(r, evs[0]);
      LocalsStopAtLimit(Next(r, evs[0]), evs[1..]);
    }
  }

  lemma LocalNext(r: Repo, e: Event)
    requires e.AddLocal? && Possible(r, e) && r.nextFreeEntryId <= r.maxSdrCount
    ensures var r1, one := Next(r, e), if r.nextFreeEntryId < r.maxSdrCount then 1 else 0;
            && r1.nextFreeEntryId == r.nextFreeEntryId + one && |r1.entries| == |r.entries| + one && r1.maxSdrCount == r.maxSdrCount
  {
    hide LocalRecord;
  }

  // ---------- reading it back ----------

  /** Follow the next ids from id on, reading whole records, for at most fuel reads. */
  function Walk(r: Repo, id: u16, fuel: nat): seq<seq<u8>>
    requires Sized(r.entries)
    decreases fuel
  {
    var reply := Read(r, 0, id, 0, 255);
    if fuel == 0 || |reply| < 3 then []
    else [reply[3..]] + (if Un16(reply[1..3]) == LAST_ID then [] else Walk(r, Un16(reply[1..3]), fuel - 1))
  }

  function BytesOf(e: Record): seq<u8>
    requires |e.data| == RECORD_BYTES && e.length <= RECORD_BYTES
  {
    e.data[..e.length]
  }

  function AllBytes(es: seq<Record>): seq<seq<u8>>
    requires Sized(es)
  {
    seq(|es|, i requires 0 <= i < |es| => BytesOf(es[i]))
  }

  /** The first record of length zero, from i on, or the length. */
  function FirstEmpty(es: seq<Record>, i: nat): (k: nat)
    requires i <= |es|
    ensures i <= k <= |es|
    ensures k < |es| ==> es[k].length == 0
    ensures forall j :: i <= j < k ==> 0 < es[j].length
    decreases |es| - i
  {
    if i == |es| || es[i].length == 0 then i else FirstEmpty(es, i + 1)
  }

  lemma ReadAt(r: Repo, i: nat, id: u16, offset: u8, want: u8)
    requires Inv(r) && i < |r.entries| && offset + want <= 255
    requires id == r.entries[i].recordId || (id == 0 && i == 0)
    ensures id != LAST_ID
    ensures Read(r, 0, id, offset, want) ==
            if offset >= r.entries[i].length then [PARAMETER_OUT_OF_RANGE_CC]
            else [0] + Le16(NextId(r.entries, i)) + r.entries[i].data[offset..Min(offset + want, r.entries[i].length)]
  {
    hide Le16;
    if id != 0 {
      var j := WithId(r.entries, id, 0);
      assert j == i;
    }
  }

  lemma {:induction false} WalkFrom(r: Repo, i: nat, id: u16, fuel: nat)
    requires Inv(r) && i < |r.entries| && (id == r.entries[i].recordId || (id == 0 && i == 0)) && |r.entries| - i <= fuel
    ensures Walk(r, id, fuel) == AllBytes(r.entries[i..FirstEmpty(r.entries, i)])
    decreases fuel
  {
    hide Read, Le16, Un16, Inv, BytesOf;
    SizedOfInv(r);
    WholeReply(r, i, id);
    var next, e := NextId(r.entries, i), r.entries[i];
    LittleEndian16(next);
    if e.length > 0 {
      if i + 1 < |r.entries| {
        IdsBelowLast(r, i + 1);
        WalkFrom(r, i + 1, next, fuel - 1);
      }
      AllBytesStep(r.entries, i, FirstEmpty(r.entries, i));
    }
  }

  lemma AllBytesStep(es: seq<Record>, i: nat, k: nat)
    requires Sized(es) && i < k <= |es|
    ensures Sized(es[i..k]) && Sized(es[i + 1..k])
    ensures AllBytes(es[i..k]) == [BytesOf(es[i])] + AllBytes(es[i + 1..k])
  {
    assert es[i..k] == [es[i]] + es[i + 1..k];
  }

  lemma IdsBelowLast(r: Repo, i: nat)
    requires Inv(r) && i < |r.entries|
    ensures r.entries[i].recordId != LAST_ID
  {
  }

  /** The reply to a whole read: one byte for an empty record, else the next id at byte one
      and the record from byte three on. */
  lemma WholeReply(r: Repo, i: nat, id: u16)
    requires Inv(r) && i < |r.entries| && (id == r.entries[i].recordId || (id == 0 && i == 0))
    ensures var reply := Read(r, 0, id, 0, 255);
            if r.entries[i].length == 0 then |reply| == 1
            else |reply| > 3 && reply[1..3] == Le16(NextId(r.entries, i)) && reply[3..] == BytesOf(r.entries[i])
  {
    hide Read, Le16, NextId;
    ReadAt(r, i, id, 0, 255);
  }

  /** Walking from id 0 returns every record once, in insertion order, in as many reads as
      there are records; it stops early exactly at a record of length zero. */
  lemma WalkIsRepository(r: Repo, fuel: nat)
    requires Inv(r) && |r.entries| <= fuel
    ensures Walk(r, 0, fuel) == AllBytes(r.entries[..FirstEmpty(r.entries, 0)])
    ensures Walk(r, 0, fuel) == AllBytes(r.entries) <==> forall i :: 0 <= i < |r.entries| ==> 0 < r.entries[i].length
  {
    hide Inv;
    SizedOfInv(r);
    var k := FirstEmpty(r.entries, 0);
    assert r.entries[0..k] == r.entries[..k];
    if r.entries != [] {
      WalkFrom(r, 0, 0, fuel);
    }
    assert |AllBytes(r.entries[..k])| == k;
    if k == |r.entries| {
      assert r.entries[..k] == r.entries;
    }
  }

  /** An add whose length byte is 251 stores a record of length zero, which the walk never
      shows, nor anything behind it. */
  lemma EmptyRecordStored(r: Repo, p: seq<u8>, fuel: nat)
    requires Inv(r) && r.nextFreeEntryId < 0xffff && |p| == RECORD_BYTES && p[4] == 251 && p[46] == 0
    requires First(r.entries, p[6], p[7], 0) == |r.entries| < fuel
    ensures Addable(r, p)
    ensures var r' := AddSdr(r, p).repo;
            Inv(r') && r'.entries[|r.entries|].length == 0 && Walk(r', 0, fuel) != AllBytes(r'.entries)
  {
    hide Le16, Walk;
    AppendKeepsInv(r, NewRecord(r, p));
    var r' := AddSdr(r, p).repo;
    WalkIsRepository(r', fuel);
    assert r'.entries[|r.entries|].length == 0;
  }

  lemma SizedOfInv(r: Repo)
    requires Inv(r)
    ensures Sized(r.entries)
  {
  }

  /** Read a record piece by piece: `size(o)` bytes are asked for at offset o, and the next
      offset is one past the bytes returned. */
  function Pieces(r: Repo, id: u16, offset: nat, size: nat -> u8): seq<u8>
    requires Sized(r.entries) && offset <= RECORD_BYTES
    requires forall o :: 0 <= o <= RECORD_BYTES ==> 0 < size(o) && o + size(o) <= 255
    decreases 1000 - offset
  {
    var reply := Read(r, 0, id, offset, size(offset));
    if |reply| <= 3 || offset + |reply| - 3 > RECORD_BYTES then []
    else reply[3..] + Pieces(r, id, offset + |reply| - 3, size)
  }

  /** Whatever the piece sizes, the pieces put together are the record. */
  lemma {:induction false} PiecesReassemble(r: Repo, i: nat, offset: nat, size: nat -> u8)
    requires Inv(r) && i < |r.entries| && offset <= r.entries[i].length
    requires forall o :: 0 <= o <= RECORD_BYTES ==> 0 < size(o) && o + size(o) <= 255
    ensures Pieces(r, r.entries[i].recordId, offset, size) == BytesOf(r.entries[i])[offset..]
    decreases r.entries[i].length - offset
  {
    hide Read, Le16;
    var e := r.entries[i];
    ReadAt(r, i, e.recordId, offset, size(offset));
    var reply := Read(r, 0, e.recordId, offset, size(offset));
    if offset < e.length {
      var next := Min(offset + size(offset), e.length);
      assert reply[3..] == e.data[offset..next] && |reply| == 3 + next - offset;
      PiecesReassemble(r, i, next, size);
      assert BytesOf(e)[offset..] == e.data[offset..next] + BytesOf(e)[next..];
    }
  }

  /** What a read is refused for, in this order: a reservation other than the current one, a
      record that is not there, an offset beyond its length. */
  lemma ReadRefusals(r: Repo, reservation: u16, id: u16, offset: u8, want: u8)
    requires Sized(r.entries) && !Faults(r, reservation, id, offset, want)
    ensures var reply, i := Read(r, reservation, id, offset, want), Position(r.entries, id);
            && (reservation != 0 && reservation != r.reservation <==> reply == [0xC5])
            && (reply == [0xCB] <==> (reservation == 0 || reservation == r.reservation) && i >= |r.entries|)
            && (reply == [0xC9] <==> (reservation == 0 || reservation == r.reservation) && i < |r.entries| && offset >= r.entries[i].length)
  {
    hide Position, Le16;
  }

  /** Under id 0xffff the last record is read, as the end of the chain; under an id no record
      holds, and from an empty repository under any id, nothing is. */
  lemma ReadLast(r: Repo, id: u16, offset: u8, want: u8)
    requires Inv(r) && offset + want <= 255
    ensures r.entries != [] ==>
              var e := r.entries[|r.entries| - 1];
              && Read(r, 0, LAST_ID, offset, want) ==
                 (if offset >= e.length then [PARAMETER_OUT_OF_RANGE_CC]
                  else [0] + Le16(LAST_ID) + e.data[offset..Min(offset + want, e.length)])
              && (0 < e.length ==> Read(r, 0, LAST_ID, 0, 255) == [0] + Le16(LAST_ID) + AllBytes(r.entries)[|r.entries| - 1])
    ensures r.entries == [] || (id != 0 && id != LAST_ID && !Holds(r.entries, id)) ==> Read(r, 0, id, offset, want) == [NOT_PRESENT_CC]
  {
    hide Le16;
  }

  /** A reservation handed out is refused once k further ones were, for k short of a whole lap
      of the sixteen-bit counter; the current one, and none, are taken. */
  lemma StaleReservationRefused(r: Repo, k: nat, id: u16, offset: u8, want: u8)
    requires Sized(r.entries) && 0 < r.reservation && 0 < k < 0xffff && offset + want <= 255
    ensures var now := r.(reservation := Cyclic.Iter(r.reservation, Cyclic.M16, k));
            && Read(now, r.reservation, id, offset, want) == [INVALID_RESERVATION_CC]
            && Read(now, now.reservation, id, offset, want) == Read(now, 0, id, offset, want)
  {
    hide Le16, Position, ReadRecord;
    Cyclic.NoRepeat(r.reservation, Cyclic.M16, 0, k);
  }

  /** A record made on the card reads back as its id, its body and its name, and five zeros
      under the length it is given. */
  lemma LocalThenRead(r: Repo, body: seq<u8>, idStr: seq<u8>)
    requires Inv(r) && Makeable(body, idStr) && r.nextFreeEntryId < r.maxSdrCount && r.nextFreeEntryId < 0xffff
    ensures var r', id, n := MainSdrAdd(r, body, idStr), r.nextFreeEntryId, body[45] % 32;
            && Inv(r') && |r'.entries| == |r.entries| + 1
            && r'.entries[|r.entries|].lun == body[4] && r'.entries[|r.entries|].sensNum == body[5]
            && Read(r', 0, id, 0, 255) == [0] + Le16(LAST_ID) + Le16(id) + body + idStr[..n] + Zeros(5)
  {
    hide Le16, Read;
    var e, r', n := LocalRecord(r, body, idStr), MainSdrAdd(r, body, idStr), body[45] % 32;
    AppendKeepsInv(r, e);
    assert r'.entries[|r.entries|] == e;
    ReadAt(r', |r.entries|, e.recordId, 0, 255);
    assert e.data[..e.length] == Le16(r.nextFreeEntryId) + body + idStr[..n] + Zeros(5);
  }

  /** A record added from a message reads back as that message's bytes under a new id, with the
      id in front on the central controller and zeros in its place elsewhere. */
  lemma AddThenRead(r: Repo, p: seq<u8>)
    requires Inv(r) && r.nextFreeEntryId < 0xffff && Addable(r, p)
    requires p[46] == 0 && First(r.entries, p[6], p[7], 0) == |r.entries| && 2 <= LengthOf(p)
    ensures var a, id := AddSdr(r, p), r.nextFreeEntryId;
            && Inv(a.repo) && a.reply == Some([0] + Le16(id))
            && Read(a.repo, 0, id, 0, 255) ==
               [0] + Le16(LAST_ID) + (if r.card == 0 then Le16(id) else [0, 0]) + p[2..LengthOf(p)]
  {
    hide Le16, Read;
    var e, a, n := NewRecord(r, p), AddSdr(r, p), |r.entries|;
    AppendKeepsInv(r, e);
    assert a.repo.entries[n] == e;
    ReadAt(a.repo, n, e.recordId, 0, 255);
    assert e.data[..e.length] == (if r.card == 0 then Le16(r.nextFreeEntryId) else [0, 0]) + p[2..LengthOf(p)];
  }

  /** A message about a known sensor is answered with the id of its first record; an update of
      an unknown one is not answered; no message changes anything but one value or one record. */
  lemma KnownAnswered(r: Repo, p: seq<u8>)
    requires Addable(r, p)
    ensures var a, i := AddSdr(r, p), First(r.entries, p[6], p[7], 0);
            && (i < |r.entries| ==>
                  && a.reply == Some([0] + Le16(r.entries[i].recordId)) && |a.repo.entries| == |r.entries|
                  && a.repo == r.(entries := a.repo.entries)
                  && (forall k :: 0 <= k < |r.entries| && k != i ==> a.repo.entries[k] == r.entries[k])
                  && a.repo.entries[i] == r.entries[i].(value := if p[46] == 0 then r.entries[i].value else p[46]))
            && (i == |r.entries| && p[46] != 0 ==> a == Answer(r, None))
  {
    hide Le16;
  }

  // ---------- at-least-once delivery ----------

  /** What a second delivery of the same message meets: an update, logical unit zero, or a
      sensor already known. */
  predicate Repeatable(r: Repo, p: seq<u8>)
    requires |p| == RECORD_BYTES
  {
    p[46] != 0 || p[6] == 0 || First(r.entries, p[6], p[7], 0) < |r.entries|
  }

  lemma StillAddable(r: Repo, p: seq<u8>)
    requires Addable(r, p)
    ensures Addable(AddSdr(r, p).repo, p)
  {
    var i := First(r.entries, p[6], p[7], 0);
    if p[46] != 0 && i < |r.entries| {
      SameFirst(r.entries, i, p[46], p[6], p[7]);
    }
  }

  /** A second delivery changes nothing and answers the same, exactly when the message is
      repeatable: new records never store their logical unit, so for another unit the
      duplicate is not recognised and a second record appears. */
  lemma SecondDelivery(r: Repo, p: seq<u8>)
    requires Addable(r, p)
    ensures Addable(AddSdr(r, p).repo, p)
    ensures AddSdr(AddSdr(r, p).repo, p) == AddSdr(r, p) <==> Repeatable(r, p)
    ensures Repeatable(AddSdr(r, p).repo, p) <==> Repeatable(r, p)
  {
    hide Le16;
    StillAddable(r, p);
    var a, i, n := AddSdr(r, p), First(r.entries, p[6], p[7], 0), |r.entries|;
    if p[46] == 0 && i == n {
      var e := NewRecord(r, p);
      FirstAppended(r.entries, e, p[6], p[7]);
      if p[6] != 0 {
        assert |AddSdr(a.repo, p).repo.entries| == n + 2;
      }
    } else if p[46] != 0 && i < n {
      SameFirst(r.entries, i, p[46], p[6], p[7]);
      assert r.entries[i := r.entries[i].(value := p[46])][i := r.entries[i].(value := p[46])]
          == r.entries[i := r.entries[i].(value := p[46])];
    }
  }

  lemma {:induction false} FirstAppended(es: seq<Record>, e: Record, lun: u8, num: u8)
    ensures First(es + [e], lun, num, 0) ==
            if First(es, lun, num, 0) < |es| || (e.lun == lun && e.sensNum == num) then First(es, lun, num, 0) else |es| + 1
  {
    var i, j := First(es, lun, num, 0), First(es + [e], lun, num, 0);
    assert forall k :: 0 <= k < |es| ==> (es + [e])[k] == es[k];
    assert (es + [e])[|es|] == e;
  }

  /** Updating a value moves no record. */
  lemma {:induction false} SameFirst(es: seq<Record>, i: nat, v: u8, lun: u8, num: u8)
    requires i < |es|
    ensures First(es[i := es[i].(value := v)], lun, num, 0) == First(es, lun, num, 0)
  {
    var es' := es[i := es[i].(value := v)];
    assert forall k :: 0 <= k < |es| ==> es'[k].lun == es[k].lun && es'[k].sensNum == es[k].sensNum;
  }

  /** The state after n deliveries of one message, and the last answer. */
  function Deliver(r: Repo, p: seq<u8>, n: nat): Answer
    requires Addable(r, p) && 0 < n
    ensures Addable(Deliver(r, p, n).repo, p)
  {
    StillAddable(r, p);
    if n == 1 then AddSdr(r, p)
    else
      StillAddable(Deliver(r, p, n - 1).repo, p);
      AddSdr(Deliver(r, p, n - 1).repo, p)
  }

  /** Any number of deliveries leaves the repository, and answers, as one delivery does. */
  lemma {:induction false} DeliverIsOnce(r: Repo, p: seq<u8>, n: nat)
    requires Addable(r, p) && Repeatable(r, p) && 0 < n
    ensures Deliver(r, p, n) == AddSdr(r, p)
    decreases n
  {
    hide AddSdr;
    if n > 1 {
      DeliverIsOnce(r, p, n - 1);
      SecondDelivery(r, p);
    }
  }
}
