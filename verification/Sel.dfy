/** The system event log (sections 31.4 to 31.9 of the IPMI v2.0 specification). */
module Sel {
  import opened Bits
  import opened Codes
  import Cyclic

  datatype Entry = Entry(recordId: u16, data: seq<u8>)

  const ZERO_ENTRY := Entry(0, Zeros(16))

  datatype Log = Log(entries: seq<Entry>, count: u16, maxCount: u16, flags: u8, reservation: u16, nextEntry: u16)

  // ---------- record ids ----------

  predicate Taken(entries: seq<Entry>, id: u16) {
    exists i :: 0 <= i < |entries| && entries[i].recordId == id
  }

  /** An id the allocator may hand out: no entry holds it, and the counter does not wrap
      to zero behind it. */
  predicate Free(entries: seq<Entry>, id: u16) {
    !Taken(entries, id) && id != 0xffff
  }

  /** The id k places after start, wrapping at sixteen bits. */
  function At(start: u16, k: nat): u16 {
    (start + k) % 0x1_0000
  }

  /** The distance from start to the first free id, not counting the first k places;
      0x1_0000 if there is none. */
  function Probe(entries: seq<Entry>, start: u16, k: nat): (r: nat)
    requires k <= 0x1_0000
    ensures k <= r <= 0x1_0000
    ensures r < 0x1_0000 ==> Free(entries, At(start, r))
    ensures forall j :: k <= j < r ==> !Free(entries, At(start, j))
    decreases 0x1_0000 - k
  {
    if k == 0x1_0000 || Free(entries, At(start, k)) then k else Probe(entries, start, k + 1)
  }

  /** Which entry holds an id. */
  function Holder(entries: seq<Entry>, id: u16): (i: nat)
    requires Taken(entries, id)
    ensures i < |entries| && entries[i].recordId == id
  {
    HolderFrom(entries, id, 0)
  }

  function HolderFrom(entries: seq<Entry>, id: u16, i: nat): (r: nat)
    requires i <= |entries| && exists j :: i <= j < |entries| && entries[j].recordId == id
    ensures i <= r < |entries| && entries[r].recordId == id
    decreases |entries| - i
  {
    if entries[i].recordId == id then i else HolderFrom(entries, id, i + 1)
  }

  lemma AtInjective(start: u16, j: nat, k: nat)
    requires j < k < 0x1_0000
    ensures At(start, j) != At(start, k)
  {
  }

  /** Distinct indices below n that are all taken need n different entries. */
  lemma {:induction false} TakenNeedsEntries(entries: seq<Entry>, start: u16, js: set<nat>)
    requires forall j :: j in js ==> j < 0x1_0000 && Taken(entries, At(start, j))
    ensures |js| <= |entries|
  {
    var holders := set j | j in js :: Holder(entries, At(start, j));
    forall j, k | j in js && k in js && j != k
      ensures Holder(entries, At(start, j)) != Holder(entries, At(start, k))
    {
      if j < k {
        AtInjective(start, j, k);
      } else {
        AtInjective(start, k, j);
      }
    }
    ImageSize(js, entries, start);
    Below(holders, |entries|);
  }

  lemma {:induction false} ImageSize(js: set<nat>, entries: seq<Entry>, start: u16)
    requires forall j :: j in js ==> Taken(entries, At(start, j))
    requires forall j, k :: j in js && k in js && j != k ==> Holder(entries, At(start, j)) != Holder(entries, At(start, k))
    ensures |set j | j in js :: Holder(entries, At(start, j))| == |js|
    decreases |js|
  {
    var image := set j | j in js :: Holder(entries, At(start, j));
    if js != {} {
      var x :| x in js;
      var rest := js - {x};
      var restImage := set j | j in rest :: Holder(entries, At(start, j));
      ImageSize(rest, entries, start);
      assert image == restImage + {Holder(entries, At(start, x))};
    } else {
      assert image == {};
    }
  }

  lemma {:induction false} Below(s: set<nat>, n: nat)
    requires forall x :: x in s ==> x < n
    ensures |s| <= n
    decreases n
  {
    if n == 0 {
      assert s == {};
    } else {
      Below(s - {n - 1}, n - 1);
    }
  }

  /** Pigeonhole: from any log and any counter, the probe needs at most one step more than
      the log has entries, so below 65535 entries it always ends on a free id. */
  lemma ProbeIsShort(entries: seq<Entry>, start: u16)
    ensures Probe(entries, start, 0) <= |entries| + 1
    ensures |entries| < 0xffff ==> Free(entries, At(start, Probe(entries, start, 0)))
  {
    hide Free, At, Probe;
    var r := Probe(entries, start, 0);
    var all := UpTo(r);
    if j0 :| j0 in all && At(start, j0) == 0xffff {
      var js := all - {j0};
      assert |js| == r - 1;
      forall j | j in js
        ensures Taken(entries, At(start, j))
      {
        OnlyOneLast(entries, start, j0, j);
      }
      TakenNeedsEntries(entries, start, js);
    } else {
      forall j | j in all
        ensures Taken(entries, At(start, j))
      {
        OnlyOneLast(entries, start, j, j);
      }
      TakenNeedsEntries(entries, start, all);
    }
  }

  lemma OnlyOneLast(entries: seq<Entry>, start: u16, j0: nat, j: nat)
    requires j0 < 0x1_0000 && j < 0x1_0000 && !Free(entries, At(start, j))
    requires if j == j0 then At(start, j0) != 0xffff else At(start, j0) == 0xffff
    ensures Taken(entries, At(start, j))
  {
    if j < j0 {
      AtInjective(start, j, j0);
    } else if j0 < j {
      AtInjective(start, j0, j);
    }
  }

  ghost function UpTo(n: nat): (s: set<nat>)
    ensures |s| == n && forall x: nat :: x in s <==> x < n
  {
    if n == 0 then {}
    else
      var below := UpTo(n - 1);
      var last: nat := n - 1;
      assert last !in below;
      below + {last}
  }

  // ---------- commands ----------

  /** The sixteen bytes stored: id, type, and below type 0xe0 a timestamp, then the rest of
      the given record from the same offset on, zero-filled. */
  function StoredRecord(id: u16, recordType: u8, recordData: seq<u8>, now: u32): (s: seq<u8>)
    requires |recordData| >= if recordType < 0xe0 then 7 else 3
    ensures |s| == 16
  {
    var head := Le16(id) + [recordType] + (if recordType < 0xe0 then Le32(now) else []);
    var tail := recordData[|head|..Min(16, |recordData|)];
    head + tail + Zeros(16 - |head| - |tail|)
  }

  /** Enough record data for the slices the log takes of it. */
  predicate LongEnough(recordType: u8, recordData: seq<u8>) {
    |recordData| >= if recordType < 0xe0 then 7 else 3
  }

  datatype AddResult = AddResult(log: Log, err: u16, recordId: u16)

  function Add(l: Log, recordType: u8, recordData: seq<u8>, now: u32): AddResult
    requires LongEnough(recordType, recordData)
  {
    var k := Probe(l.entries, l.nextEntry, 0);
    if l.count >= l.maxCount then AddResult(l.(flags := l.flags % 0x80 + 0x80), OUT_OF_SPACE_CC, 0)
    else if k == 0x1_0000 then AddResult(l.(nextEntry := At(l.nextEntry, 1)), OUT_OF_SPACE_CC, 0)
    else
      var id := At(l.nextEntry, k);
      AddResult(l.(entries := l.entries + [Entry(id, StoredRecord(id, recordType, recordData, now))],
                   count := (l.count + 1) % 0x1_0000, nextEntry := At(l.nextEntry, k + 1)), 0, id)
  }

  /** Allocation succeeds from any log with room: the id is new and not 0xFFFF. */
  lemma AddAllocates(l: Log, recordType: u8, recordData: seq<u8>, now: u32)
    requires LongEnough(recordType, recordData) && |l.entries| < 0xffff
    ensures var r := Add(l, recordType, recordData, now);
            && (r.err == 0 <==> l.count < l.maxCount)
            && (r.err == 0 ==> Free(l.entries, r.recordId) && Taken(r.log.entries, r.recordId))
  {
    hide StoredRecord;
    ProbeIsShort(l.entries, l.nextEntry);
    var r := Add(l, recordType, recordData, now);
    if r.err == 0 {
      assert r.log.entries[|l.entries|].recordId == r.recordId;
    }
  }

  /** Every id is somewhere on the search. */
  lemma Reaches(start: u16, id: u16)
    ensures At(start, (id - start) % 0x1_0000) == id
  {
  }

  /** An add is refused exactly when the log is full or no id is free, always with the same
      code; the first raises the overflow flag, the second moves the counter, and nothing else
      changes. */
  lemma AddRefused(l: Log, recordType: u8, recordData: seq<u8>, now: u32)
    requires LongEnough(recordType, recordData)
    ensures var r := Add(l, recordType, recordData, now);
            && (r.err != 0 <==> l.count >= l.maxCount || forall id: u16 :: !Free(l.entries, id))
            && (r.err != 0 ==> r.err == 0xC4 && r.recordId == 0)
            && (l.count >= l.maxCount ==> r.log == l.(flags := r.log.flags) && r.log.flags == (if l.flags < 0x80 then l.flags + 0x80 else l.flags))
            && (r.err != 0 && l.count < l.maxCount ==> r.log == l.(nextEntry := if l.nextEntry == 0xffff then 0 else l.nextEntry + 1))
  {
    hide StoredRecord, Free;
    var k := Probe(l.entries, l.nextEntry, 0);
    forall id: u16 | k == 0x1_0000
      ensures !Free(l.entries, id)
    {
      Reaches(l.nextEntry, id);
    }
  }

  /** The position of the first entry with this id, from i on, or the length. */
  function FindFrom(entries: seq<Entry>, id: u16, i: nat): (r: nat)
    requires i <= |entries|
    ensures i <= r <= |entries|
    ensures r < |entries| ==> entries[r].recordId == id
    ensures forall k :: i <= k < r ==> entries[k].recordId != id
    decreases |entries| - i
  {
    if i == |entries| || entries[i].recordId == id then i else FindFrom(entries, id, i + 1)
  }

  /** The entry a read finds and the next id it reports; a blank entry stands for none. */
  function Found(l: Log, recordId: u16): (Entry, u16)
    requires 0 < l.count <= |l.entries|
  {
    var i := FindFrom(l.entries, recordId, 0);
    if recordId == 0 then (l.entries[0], if l.count > 1 then 2 else LAST_ID)
    else if recordId == LAST_ID then (l.entries[l.count - 1], LAST_ID)
    else if i == |l.entries| then (ZERO_ENTRY, 0)
    else (l.entries[i], if i + 1 >= l.count then LAST_ID else (i + 2) % 0x1_0000)
  }

  /** A read whose slice bounds are out of order stops the server: its record is found, its
      offset lies inside it, and offset plus count does not fit eight bits. */
  predicate Faults(l: Log, reservation: u16, recordId: u16, offset: u8, want: u8)
    requires l.count <= |l.entries|
  {
    (reservation == 0 || reservation == l.reservation) && offset < 16 && l.count != 0
    && Found(l, recordId).0.recordId != 0 && offset + want > 255
  }

  predicate Fit(l: Log) {
    l.count <= |l.entries| && forall e :: e in l.entries ==> |e.data| == 16
  }

  /** Reply data of a read: completion code, next id, record bytes. */
  function Read(l: Log, reservation: u16, recordId: u16, offset: u8, want: u8): (reply: seq<u8>)
    requires Fit(l) && !Faults(l, reservation, recordId, offset, want)
  {
    if reservation != 0 && reservation != l.reservation then [INVALID_RESERVATION_CC]
    else if offset >= 16 then [INVALID_DATA_FIELD_CC]
    else if l.count == 0 then [NOT_PRESENT_CC]
    else
      var (entry, next) := Found(l, recordId);
      if entry.recordId == 0 then [NOT_PRESENT_CC]
      else [0] + Le16(next) + entry.data[offset..Min(16, offset + want)]
  }

  function Erase(l: Log): Log {
    l.(entries := seq(l.maxCount, _ => ZERO_ENTRY), flags := l.flags % 0x80)
  }

  // ---------- the log as the program keeps it ----------

  class SelT {
    var entries: seq<Entry>
    var count: u16
    const maxCount: u16
    var flags: u8
    var reservation: u16
    var nextEntry: u16

    function View(): Log
      reads this
    {
      Log(entries, count, maxCount, flags, reservation, nextEntry)
    }

    constructor ()
      ensures View() == Log([], 0, 1000, 0, 0, 1)
    {
      entries, count, maxCount, flags, reservation, nextEntry := [], 0, 1000, 0, 0, 1;
    }

    method FindSelEventByRecid(recordId: u16) returns (found: bool)
      ensures found <==> Taken(entries, recordId)
    {
      for i := 0 to |entries|
        invariant forall k :: 0 <= k < i ==> entries[k].recordId != recordId
      {
        if entries[i].recordId == recordId {
          return true;
        }
      }
      return false;
    }

    method AddToSel(recordType: u8, recordData: seq<u8>, now: u32) returns (err: u16, recordId: u16)
      requires LongEnough(recordType, recordData)
      modifies this
      ensures AddResult(View(), err, recordId) == Add(old(View()), recordType, recordData, now)
    {
      hide StoredRecord, At, Probe, Free;
      if count >= maxCount {
        flags := flags % 0x80 + 0x80;
        return OUT_OF_SPACE_CC, 0;
      }
      recordId := nextEntry;
      nextEntry := (nextEntry + 1) % 0x1_0000;
      var startRecordId := recordId;
      ghost var k := 0;
      AtNext(startRecordId, 0);
      var taken := FindSelEventByRecid(recordId);
      while nextEntry == 0 || taken
        invariant 0 <= k < 0x1_0000 && startRecordId == old(nextEntry) && (nextEntry == 0 <==> recordId == 0xffff)
        invariant recordId == At(startRecordId, k) && nextEntry == At(startRecordId, k + 1)
        invariant taken == Taken(entries, recordId)
        invariant Probe(entries, startRecordId, k) == Probe(entries, startRecordId, 0)
        invariant View() == old(View()).(nextEntry := nextEntry)
        decreases 0x1_0000 - k
      {
        ProbeStep(entries, startRecordId, k);
        recordId := nextEntry;
        nextEntry := (nextEntry + 1) % 0x1_0000;
        k := k + 1;
        AtNext(startRecordId, k);
        if recordId == startRecordId {
          ComesRound(startRecordId, k);
          return OUT_OF_SPACE_CC, 0;
        }
        taken := FindSelEventByRecid(recordId);
      }
      ProbeStep(entries, startRecordId, k);
      entries := entries + [Entry(recordId, StoredRecord(recordId, recordType, recordData, now))];
      count := (count + 1) % 0x1_0000;
      err := 0;
    }

    /** The reservation counter skips zero. */
    method ReserveSel() returns (reply: seq<u8>)
      modifies this
      ensures View() == old(View()).(reservation := Cyclic.Succ(old(reservation), Cyclic.M16))
      ensures reply == [0] + Le16(reservation)
    {
      reservation := (reservation + 1) % 0x1_0000;
      if reservation == 0 {
        reservation := reservation + 1;
      }
      reply := [0] + Le16(reservation);
    }

    /** No reply stands for slice bounds out of order. */
    method GetSelEntry(req: u16, recordId: u16, offset: u8, want: u8) returns (reply: Option<seq<u8>>)
      requires Fit(View())
      ensures reply == if Faults(View(), req, recordId, offset, want) then None
                       else Some(Read(View(), req, recordId, offset, want))
    {
      if req != 0 && req != reservation {
        return Some([INVALID_RESERVATION_CC]);
      }
      if offset >= 16 {
        return Some([INVALID_DATA_FIELD_CC]);
      }
      if count == 0 {
        return Some([NOT_PRESENT_CC]);
      }
      var entry, nextRecordId := FindEntry(recordId);
      if entry.recordId == 0 {
        return Some([NOT_PRESENT_CC]);
      }
      SliceInOrder(offset, want, 16);
      var n := want;
      if SliceEnd(offset, n) > 16 {
        n := 16 - offset;
      }
      if SliceEnd(offset, n) < offset {
        return None;
      }
      reply := Some([0] + Le16(nextRecordId) + entry.data[offset..SliceEnd(offset, n)]);
    }

    /** Zero is the first entry, the last id the one at the count, any other is searched for. */
    method FindEntry(recordId: u16) returns (entry: Entry, nextRecordId: u16)
      requires 0 < count <= |entries|
      ensures (entry, nextRecordId) == Found(View(), recordId)
    {
      entry, nextRecordId := ZERO_ENTRY, 0;
      if recordId == 0 {
        entry := entries[0];
        nextRecordId := if count - 1 > 0 then 2 else LAST_ID;
      } else if recordId == LAST_ID {
        entry := entries[count - 1];
        nextRecordId := LAST_ID;
      } else {
        var i := 0;
        while i < |entries|
          invariant 0 <= i <= |entries|
          invariant FindFrom(entries, recordId, i) == FindFrom(entries, recordId, 0)
          invariant entry == ZERO_ENTRY && nextRecordId == 0
        {
          if entries[i].recordId == recordId {
            entry := entries[i];
            nextRecordId := if i + 1 >= count then LAST_ID else (i + 2) % 0x1_0000;
            break;
          }
          i := i + 1;
        }
      }
    }

    /** The reservation is checked, then the letters "CLR", then the operation; only 0xaa
        erases. */
    method ClearSel(req: u16, clr: seq<u8>, op: u8) returns (reply: seq<u8>)
      modifies this
      ensures var l := old(View());
              if req != 0 && req != l.reservation then View() == l && reply == [INVALID_RESERVATION_CC]
              else if clr != CLR || (op != 0 && op != 0xaa) then View() == l && reply == [INVALID_DATA_FIELD_CC]
              else View() == (if op == 0xaa then Erase(l) else l) && reply == [0, 1]
    {
      if req != 0 && req != reservation {
        return [INVALID_RESERVATION_CC];
      }
      if clr != CLR {
        return [INVALID_DATA_FIELD_CC];
      }
      if op != 0 && op != 0xaa {
        return [INVALID_DATA_FIELD_CC];
      }
      if op == 0xaa {
        entries := seq(maxCount, _ => ZERO_ENTRY);
        flags := flags % 0x80;
      }
      reply := [0, 1];
    }

    /** The handler passes the sixteen-byte record from its fourth byte on. */
    method AddSelEntry(record: seq<u8>, now: u32) returns (reply: seq<u8>)
      requires |record| == 16
      modifies this
      ensures var r := Add(old(View()), record[2], record[3..16], now);
              View() == r.log && reply == if r.err == 0 then [0] + Le16(r.recordId) else [r.err % 0x100]
    {
      hide Add;
      var err, r := AddToSel(record[2], record[3..16], now);
      if err != 0 {
        return [err % 0x100];
      }
      reply := [0] + Le16(r);
    }
  }

  lemma AtNext(start: u16, k: nat)
    ensures At(start, 0) == start && (At(start, k) + 1) as int % 0x1_0000 == At(start, k + 1)
    ensures At(start, 0x1_0000) == start
  {
  }

  lemma ProbeStep(entries: seq<Entry>, start: u16, k: nat)
    requires k < 0x1_0000
    ensures Free(entries, At(start, k)) <==> !Taken(entries, At(start, k)) && At(start, k) != 0xffff
    ensures Free(entries, At(start, k)) ==> Probe(entries, start, k) == k
    ensures !Free(entries, At(start, k)) ==> Probe(entries, start, k) == Probe(entries, start, k + 1)
    ensures k == 0xffff && !Free(entries, At(start, k)) ==> Probe(entries, start, k) == 0x1_0000
  {
  }

  lemma ComesRound(start: u16, k: nat)
    requires 0 < k <= 0x1_0000 && At(start, k) == start
    ensures k == 0x1_0000
  {
  }

  // ---------- runs ----------

  /** The live part of a log starts after the z records an erase leaves behind; c0 is the
      count at the last erase. */
  predicate Inv(l: Log, z: nat, c0: nat) {
    && l.maxCount < 0xffff && c0 <= l.count <= l.maxCount && l.nextEntry == l.count + 1
    && (if z == 0 then c0 == 0 else z == l.maxCount)
    && |l.entries| == z + l.count - c0
    && (forall i :: 0 <= i < |l.entries| ==> |l.entries[i].data| == 16)
    && (forall i :: 0 <= i < z ==> l.entries[i].recordId == 0)
    && (forall i :: z <= i < |l.entries| ==> l.entries[i].recordId == c0 + 1 + i - z)
  }

  /** The next id is the one after the count, whatever was erased. */
  lemma AddInRun(l: Log, z: nat, c0: nat, recordType: u8, recordData: seq<u8>, now: u32)
    requires Inv(l, z, c0) && LongEnough(recordType, recordData)
    ensures var r := Add(l, recordType, recordData, now);
            && Inv(r.log, z, c0)
            && (l.count < l.maxCount ==>
                  && r.err == 0 && r.recordId == l.count + 1 && r.log.count == l.count + 1
                  && r.log.entries == l.entries + [Entry(r.recordId, StoredRecord(r.recordId, recordType, recordData, now))])
            && (l.count == l.maxCount ==> r.err == OUT_OF_SPACE_CC && r.log.entries == l.entries && r.log.count == l.count)
  {
    hide StoredRecord;
    AtNext(l.nextEntry, 0);
    assert l.count < l.maxCount ==> Free(l.entries, l.nextEntry);
    ProbeStep(l.entries, l.nextEntry, 0);
  }

  lemma EraseInRun(l: Log, z: nat, c0: nat)
    requires Inv(l, z, c0)
    ensures Inv(Erase(l), l.maxCount, if l.maxCount == 0 then 0 else l.count)
  {
  }

  datatype Event = AddRecord(recordType: u8, recordData: seq<u8>, now: u32) | EraseAll | Reserve

  predicate Usable(evs: seq<Event>) {
    forall k :: 0 <= k < |evs| && evs[k].AddRecord? ==> LongEnough(evs[k].recordType, evs[k].recordData)
  }

  function Next(l: Log, e: Event): Log
    requires e.AddRecord? ==> LongEnough(e.recordType, e.recordData)
  {
    match e
    case AddRecord(t, d, now) => Add(l, t, d, now).log
    case EraseAll => Erase(l)
    case Reserve => l.(reservation := Cyclic.Succ(l.reservation, Cyclic.M16))
  }

  function Run(l: Log, evs: seq<Event>): Log
    requires Usable(evs)
    decreases |evs|
  {
    if evs == [] then l else Run(Next(l, evs[0]), evs[1..])
  }

  /** The ids handed out over a run, in order. */
  function IdsOf(l: Log, evs: seq<Event>): seq<u16>
    requires Usable(evs)
    decreases |evs|
  {
    if evs == [] then []
    else
      (if evs[0].AddRecord? && Add(l, evs[0].recordType, evs[0].recordData, evs[0].now).err == 0
       then [Add(l, evs[0].recordType, evs[0].recordData, evs[0].now).recordId] else [])
      + IdsOf(Next(l, evs[0]), evs[1..])
  }

  lemma NextKeepsInv(l: Log, z: nat, c0: nat, e: Event) returns (z': nat, c0': nat)
    requires Inv(l, z, c0) && (e.AddRecord? ==> LongEnough(e.recordType, e.recordData))
    ensures Inv(Next(l, e), z', c0') && c0 <= c0' && z <= z' && Next(l, e).maxCount == l.maxCount
    ensures l.count <= Next(l, e).count
    ensures if e.EraseAll? then z' == l.maxCount else z' == z && c0' == c0
  {
    hide Add, Erase;
    z', c0' := z, c0;
    match e {
      case AddRecord(t, d, now) =>
        AddInRun(l, z, c0, t, d, now);
        AddKeepsMax(l, t, d, now);
      case EraseAll =>
        EraseInRun(l, z, c0);
        EraseKeeps(l);
        z', c0' := l.maxCount, if l.maxCount == 0 then 0 else l.count;
      case Reserve =>
    }
  }

  lemma AddKeepsMax(l: Log, recordType: u8, recordData: seq<u8>, now: u32)
    requires LongEnough(recordType, recordData)
    ensures Add(l, recordType, recordData, now).log.maxCount == l.maxCount
  {
  }

  lemma EraseKeeps(l: Log)
    ensures Erase(l).maxCount == l.maxCount && Erase(l).count == l.count
  {
  }

  /** Over any run of adds, erases and reservations, the ids handed out are consecutive from
      count+1: none is used twice, none comes back after an erase, and at most maxCount are
      ever issued. */
  lemma {:induction false} IdsAreConsecutive(l: Log, z: nat, c0: nat, evs: seq<Event>)
    requires Inv(l, z, c0) && Usable(evs)
    ensures forall k :: 0 <= k < |IdsOf(l, evs)| ==> IdsOf(l, evs)[k] == l.count + 1 + k
    ensures l.count + |IdsOf(l, evs)| == Run(l, evs).count <= l.maxCount
    decreases |evs|
  {
    hide Add, Erase;
    if evs != [] {
      var z', c0' := NextKeepsInv(l, z, c0, evs[0]);
      if evs[0].AddRecord? {
        AddInRun(l, z, c0, evs[0].recordType, evs[0].recordData, evs[0].now);
        AddKeepsMax(l, evs[0].recordType, evs[0].recordData, evs[0].now);
      } else if evs[0].EraseAll? {
        EraseKeeps(l);
      }
      IdsAreConsecutive(Next(l, evs[0]), z', c0', evs[1..]);
    }
  }

  /** The invariant at the end of a run; once anything was erased it stays erased. */
  lemma {:induction false} RunKeepsInv(l: Log, z: nat, c0: nat, evs: seq<Event>) returns (z': nat, c0': nat)
    requires Inv(l, z, c0) && Usable(evs)
    ensures Inv(Run(l, evs), z', c0') && c0 <= c0' && Run(l, evs).maxCount == l.maxCount && l.count <= Run(l, evs).count
    ensures z' == if exists k :: 0 <= k < |evs| && evs[k].EraseAll? then l.maxCount else z
    decreases |evs|
  {
    hide Next, Inv;
    z', c0' := z, c0;
    if evs != [] {
      var z1, c1 := NextKeepsInv(l, z, c0, evs[0]);
      z', c0' := RunKeepsInv(Next(l, evs[0]), z1, c1, evs[1..]);
      assert (exists k :: 0 <= k < |evs| && evs[k].EraseAll?) <==>
             evs[0].EraseAll? || exists k :: 0 <= k < |evs[1..]| && evs[1..][k].EraseAll? by {
        if k :| 0 <= k < |evs| && evs[k].EraseAll? && k > 0 {
          assert evs[1..][k - 1].EraseAll?;
        }
      }
    }
  }

  /** An erased id is never held by an entry again. */
  lemma ErasedStaysErased(l: Log, z: nat, c0: nat, evs: seq<Event>, id: u16)
    requires Inv(l, z, c0) && Usable(evs) && 0 < l.maxCount && 0 < id <= l.count
    ensures !Taken(Run(Erase(l), evs).entries, id)
  {
    hide Run, Erase;
    EraseInRun(l, z, c0);
    EraseKeeps(l);
    var z', c0' := RunKeepsInv(Erase(l), l.maxCount, l.count, evs);
  }

  /** Event k is an add that finds the log full. */
  predicate RefusedAt(l: Log, evs: seq<Event>, k: nat)
    requires Usable(evs) && k < |evs|
  {
    evs[k].AddRecord? && Run(l, evs[..k]).count >= l.maxCount
  }

  predicate NoErase(evs: seq<Event>) {
    forall k :: 0 <= k < |evs| ==> !evs[k].EraseAll?
  }

  /** Some add was refused and nothing erased since. */
  predicate RefusedSince(l: Log, evs: seq<Event>)
    requires Usable(evs)
  {
    exists k :: 0 <= k < |evs| && RefusedAt(l, evs, k) && NoErase(evs[k + 1..])
  }

  lemma RefusedAtLater(l: Log, evs: seq<Event>, k: nat)
    requires Usable(evs) && k + 1 < |evs| && Next(l, evs[0]).maxCount == l.maxCount
    ensures RefusedAt(l, evs, k + 1) <==> RefusedAt(Next(l, evs[0]), evs[1..], k)
    ensures evs[k + 1 + 1..] == evs[1..][k + 1..]
  {
    hide Next, Run;
    assert evs[..k + 1][0] == evs[0] && evs[..k + 1][1..] == evs[1..][..k];
    RunUnfolds(l, evs[..k + 1]);
  }

  lemma RefusedSinceStep(l: Log, evs: seq<Event>)
    requires Usable(evs) && evs != [] && Next(l, evs[0]).maxCount == l.maxCount
    ensures RefusedSince(l, evs) <==>
            RefusedSince(Next(l, evs[0]), evs[1..]) || (evs[0].AddRecord? && l.count >= l.maxCount && NoErase(evs[1..]))
  {
    hide Next, Run, NoErase, RefusedAt;
    var l1, rest := Next(l, evs[0]), evs[1..];
    assert RefusedAt(l, evs, 0) <==> evs[0].AddRecord? && l.count >= l.maxCount by {
      RefusedFirst(l, evs);
    }
    assert evs[0 + 1..] == rest;
    if RefusedSince(l, evs) {
      var k :| 0 <= k < |evs| && RefusedAt(l, evs, k) && NoErase(evs[k + 1..]);
      if k > 0 {
        RefusedAtLater(l, evs, k - 1);
        assert RefusedAt(l1, rest, k - 1) && NoErase(rest[k - 1 + 1..]);
      }
    }
    if RefusedSince(l1, rest) {
      var k :| 0 <= k < |rest| && RefusedAt(l1, rest, k) && NoErase(rest[k + 1..]);
      RefusedAtLater(l, evs, k);
      assert RefusedAt(l, evs, k + 1) && NoErase(evs[k + 1 + 1..]);
    }
  }

  lemma RefusedFirst(l: Log, evs: seq<Event>)
    requires Usable(evs) && evs != []
    ensures RefusedAt(l, evs, 0) <==> evs[0].AddRecord? && l.count >= l.maxCount
  {
    assert evs[..0] == [];
  }

  lemma NoEraseStep(evs: seq<Event>)
    requires evs != []
    ensures NoErase(evs) <==> !evs[0].EraseAll? && NoErase(evs[1..])
  {
    assert forall k :: 0 <= k < |evs| - 1 ==> evs[1..][k] == evs[k + 1];
  }

  /** The overflow flag, bit 7, is up after a run exactly when an add was refused and nothing
      erased since, or it was up and nothing was erased; the other flags never change. */
  lemma {:induction false} OverflowFlag(l: Log, z: nat, c0: nat, evs: seq<Event>)
    requires Inv(l, z, c0) && Usable(evs)
    ensures Run(l, evs).flags >= 0x80 <==> (l.flags >= 0x80 && NoErase(evs)) || RefusedSince(l, evs)
    ensures Run(l, evs).flags % 0x80 == l.flags % 0x80
    decreases |evs|
  {
    hide Inv, Next, Run, NoErase, RefusedSince;
    RunUnfolds(l, evs);
    if evs == [] {
      assert NoErase(evs) && !RefusedSince(l, evs) by {
        NothingRefused(l);
      }
    } else {
      var z1, c1 := NextKeepsInv(l, z, c0, evs[0]);
      NextFlags(l, z, c0, evs[0]);
      OverflowFlag(Next(l, evs[0]), z1, c1, evs[1..]);
      NoEraseStep(evs);
      RefusedSinceStep(l, evs);
    }
  }

  lemma NothingRefused(l: Log)
    ensures NoErase([]) && !RefusedSince(l, [])
  {
  }

  lemma RunUnfolds(l: Log, evs: seq<Event>)
    requires Usable(evs)
    ensures Run(l, evs) == if evs == [] then l else Run(Next(l, evs[0]), evs[1..])
  {
  }

  lemma NextFlags(l: Log, z: nat, c0: nat, e: Event)
    requires Inv(l, z, c0) && (e.AddRecord? ==> LongEnough(e.recordType, e.recordData))
    ensures var l1 := Next(l, e);
            && l1.maxCount == l.maxCount && l1.flags % 0x80 == l.flags % 0x80
            && (l1.flags >= 0x80 <==> !e.EraseAll? && (l.flags >= 0x80 || (e.AddRecord? && l.count >= l.maxCount)))
            && l1.reservation == if e.Reserve? then Cyclic.Succ(l.reservation, Cyclic.M16) else l.reservation
  {
    hide StoredRecord;
    if e.AddRecord? {
      AtNext(l.nextEntry, 0);
      assert l.count < l.maxCount ==> Free(l.entries, l.nextEntry);
      ProbeStep(l.entries, l.nextEntry, 0);
    }
  }

  function Reserves(evs: seq<Event>): nat {
    if evs == [] then 0 else (if evs[0].Reserve? then 1 else 0) + Reserves(evs[1..])
  }

  /** Only reservations replace the reservation: adds and erases leave it valid. */
  lemma {:induction false} ReservationOverRun(l: Log, z: nat, c0: nat, evs: seq<Event>)
    requires Inv(l, z, c0) && Usable(evs)
    ensures Run(l, evs).reservation == Cyclic.Iter(l.reservation, Cyclic.M16, Reserves(evs))
    decreases |evs|
  {
    hide Inv, Next;
    if evs != [] {
      var z1, c1 := NextKeepsInv(l, z, c0, evs[0]);
      NextFlags(l, z, c0, evs[0]);
      ReservationOverRun(Next(l, evs[0]), z1, c1, evs[1..]);
      if evs[0].Reserve? {
        Cyclic.IterShift(l.reservation, Cyclic.M16, 1, Reserves(evs[1..]));
        assert Cyclic.Iter(l.reservation, Cyclic.M16, 1) == Cyclic.Succ(Cyclic.Iter(l.reservation, Cyclic.M16, 0), Cyclic.M16);
      }
    }
  }

  // ---------- reading the log ----------

  /** A reservation handed out is refused once k further ones were, for k short of a whole
      lap of the sixteen-bit counter. */
  lemma StaleReservationRefused(l: Log, k: nat, recordId: u16, offset: u8, want: u8)
    requires Fit(l) && 0 < l.reservation && 0 < k < 0xffff
    ensures var now := l.(reservation := Cyclic.Iter(l.reservation, Cyclic.M16, k));
            && !Faults(now, l.reservation, recordId, offset, want)
            && Read(now, l.reservation, recordId, offset, want) == [INVALID_RESERVATION_CC]
  {
    hide Found;
    Cyclic.NoRepeat(l.reservation, Cyclic.M16, 0, k);
  }

  /** Reading by id, whatever was erased: the ids of the live records give their bytes, and
      those up to the count at the last erase give nothing.  Next ids form a chain only while
      nothing was erased; after an erase every record claims to be the last. */
  lemma ReadById(l: Log, z: nat, c0: nat, id: u16, offset: u8, want: u8)
    requires Inv(l, z, c0) && 0 < id <= l.count && offset < 16 && offset + want <= 255
    ensures Fit(l) && !Faults(l, 0, id, offset, want)
    ensures Read(l, 0, id, offset, want) ==
            if id <= c0 then [NOT_PRESENT_CC]
            else [0] + Le16(if z > 0 || id == l.count then LAST_ID else id + 1)
                 + l.entries[z + id - c0 - 1].data[offset..Min(16, offset + want)]
  {
    hide Le16, Min;
    var i := FindFrom(l.entries, id, 0);
    if c0 < id {
      assert l.entries[z + id - c0 - 1].recordId == id;
    }
  }

  /** What a read is refused for, in this order: a reservation other than the current one, an
      offset beyond the record, an empty log. */
  lemma ReadRefusals(l: Log, reservation: u16, id: u16, offset: u8, want: u8)
    requires Fit(l) && !Faults(l, reservation, id, offset, want)
    ensures var reply := Read(l, reservation, id, offset, want);
            && (reservation != 0 && reservation != l.reservation <==> reply == [0xC5])
            && (reply == [0xCC] <==> (reservation == 0 || reservation == l.reservation) && offset >= 16)
            && (reply != [0xC5] && reply != [0xCC] && l.count == 0 ==> reply == [0xCB])
  {
    hide Found, Le16;
  }

  /** Ids zero and 0xffff name the oldest and the newest record exactly while nothing was erased;
      after an erase both meet a blank entry.  An id not handed out yet is not present. */
  lemma ReadEnds(l: Log, z: nat, c0: nat, id: u16, offset: u8, want: u8)
    requires Inv(l, z, c0) && 0 < l.count && offset < 16 && offset + want <= 255
    ensures Fit(l) && !Faults(l, 0, 0, offset, want) && !Faults(l, 0, LAST_ID, offset, want) && !Faults(l, 0, id, offset, want)
    ensures Read(l, 0, 0, offset, want) ==
            if z > 0 then [NOT_PRESENT_CC]
            else [0] + Le16(if l.count == 1 then LAST_ID else 2) + l.entries[0].data[offset..Min(16, offset + want)]
    ensures Read(l, 0, LAST_ID, offset, want) ==
            if z > 0 then [NOT_PRESENT_CC]
            else [0] + Le16(LAST_ID) + l.entries[l.count - 1].data[offset..Min(16, offset + want)]
    ensures l.count < id < LAST_ID ==> Read(l, 0, id, offset, want) == [NOT_PRESENT_CC]
  {
    hide Le16, Min;
  }

  /** Follow the next ids from id on, reading whole records, for at most fuel reads. */
  function Walk(l: Log, id: u16, fuel: nat): seq<seq<u8>>
    requires Fit(l)
    decreases fuel
  {
    var reply := Read(l, 0, id, 0, 255);
    if fuel == 0 || |reply| != 19 then []
    else
      [reply[3..]] + (if Un16(reply[1..3]) == LAST_ID then [] else Walk(l, Un16(reply[1..3]), fuel - 1))
  }

  function DataOf(entries: seq<Entry>): seq<seq<u8>> {
    seq(|entries|, i requires 0 <= i < |entries| => entries[i].data)
  }

  lemma ReadAt(l: Log, i: nat, id: u16)
    requires Inv(l, 0, 0) && i < l.count && (id == i + 1 || (id == 0 && i == 0))
    ensures !Faults(l, 0, id, 0, 255)
    ensures Read(l, 0, id, 0, 255) == [0] + Le16(if i + 1 == l.count then LAST_ID else i + 2) + l.entries[i].data
  {
    hide Le16;
    assert l.entries[i].data[0..16] == l.entries[i].data;
    if id != 0 {
      var j := FindFrom(l.entries, id, 0);
      assert l.entries[i].recordId == id;
      assert j == i;
    }
  }

  /** One read of a walk. */
  lemma WalkReads(l: Log, id: u16, fuel: nat, next: u16, data: seq<u8>)
    requires Fit(l) && 0 < fuel && |data| == 16 && !Faults(l, 0, id, 0, 255)
    requires Read(l, 0, id, 0, 255) == [0] + Le16(next) + data
    ensures Walk(l, id, fuel) == [data] + (if next == LAST_ID then [] else Walk(l, next, fuel - 1))
  {
    hide Read, Le16, Un16, Faults;
    var reply := [0] + Le16(next) + data;
    assert reply[1..3] == Le16(next) && reply[3..] == data;
    LittleEndian16(next);
  }

  lemma {:induction false} WalkFrom(l: Log, i: nat, id: u16, fuel: nat)
    requires Inv(l, 0, 0) && i < l.count && (id == i + 1 || (id == 0 && i == 0)) && l.count - i <= fuel
    ensures Walk(l, id, fuel) == DataOf(l.entries[i..])
    decreases fuel
  {
    hide Read, Le16, Walk, Faults;
    EntriesFit(l, 0, 0);
    ReadAt(l, i, id);
    WalkReads(l, id, fuel, if i + 1 == l.count then LAST_ID else i + 2, l.entries[i].data);
    if i + 1 < l.count {
      WalkFrom(l, i + 1, i + 2, fuel - 1);
    }
  }

  lemma EntriesFit(l: Log, z: nat, c0: nat)
    requires Inv(l, z, c0)
    ensures Fit(l)
    ensures |l.entries| == z + l.count - c0 && c0 <= l.count <= l.maxCount < 0xffff
  {
  }

  /** Walking from id 0 returns the live records, each once, in order, after exactly as many
      reads as there are, if and only if nothing was ever erased or nothing is live. */
  lemma WalkIsLog(l: Log, z: nat, c0: nat, fuel: nat)
    requires Inv(l, z, c0) && l.count < fuel
    ensures Fit(l)
    ensures Walk(l, 0, fuel) == DataOf(l.entries[z..]) <==> z == 0 || l.count == c0
  {
    hide Inv;
    EntriesFit(l, z, c0);
    if l.count == 0 {
      assert Walk(l, 0, fuel) == [];
    } else if z == 0 {
      NotErased(l, c0);
      WalkFrom(l, 0, 0, fuel);
    } else {
      FirstIsBlank(l, z, c0);
      assert Walk(l, 0, fuel) == [];
      assert |DataOf(l.entries[z..])| == l.count - c0;
    }
  }

  lemma NotErased(l: Log, c0: nat)
    requires Inv(l, 0, c0)
    ensures c0 == 0
  {
  }

  lemma FirstIsBlank(l: Log, z: nat, c0: nat)
    requires Inv(l, z, c0) && 0 < z && 0 < l.count
    ensures Fit(l)
    ensures Read(l, 0, 0, 0, 255) == [NOT_PRESENT_CC]
  {
  }

  /** From the start-up log: without an erase, the walk returns the log; after one, it
      returns nothing, whatever is added later. */
  lemma WalkOverRuns(evs: seq<Event>, fuel: nat)
    requires Usable(evs) && 1000 < fuel
    ensures var l := Run(Log([], 0, 1000, 0, 0, 1), evs);
            && Fit(l)
            && Walk(l, 0, fuel) == if exists k :: 0 <= k < |evs| && evs[k].EraseAll? then [] else DataOf(l.entries)
  {
    hide Run, Walk;
    var l0 := Log([], 0, 1000, 0, 0, 1);
    var z, c0 := RunKeepsInv(l0, 0, 0, evs);
    var l := Run(l0, evs);
    EntriesFit(l, z, c0);
    WalkIsLog(l, z, c0, fuel);
    if z == 0 {
      assert l.entries[0..] == l.entries;
    } else {
      ErasedWalk(l, z, c0, fuel);
    }
  }

  lemma ErasedWalk(l: Log, z: nat, c0: nat, fuel: nat)
    requires Inv(l, z, c0) && 0 < z
    ensures Fit(l)
    ensures Walk(l, 0, fuel) == []
  {
    EntriesFit(l, z, c0);
    if l.count > 0 {
      FirstIsBlank(l, z, c0);
    }
  }

  /** The sixteen bytes each add stores, in order, while there is room. */
  function Records(first: nat, room: nat, evs: seq<Event>): seq<seq<u8>>
    requires Usable(evs) && first + room <= 0xffff
    decreases |evs|
  {
    if evs == [] then []
    else if evs[0].AddRecord? && room > 0 then
      [StoredRecord(first, evs[0].recordType, evs[0].recordData, evs[0].now)] + Records(first + 1, room - 1, evs[1..])
    else Records(first, room, evs[1..])
  }

  lemma {:induction false} RunStores(l: Log, z: nat, c0: nat, evs: seq<Event>)
    requires Inv(l, z, c0) && Usable(evs) && forall e :: e in evs ==> !e.EraseAll?
    ensures Inv(Run(l, evs), z, c0) && l.count <= Run(l, evs).count
    ensures DataOf(Run(l, evs).entries) == DataOf(l.entries) + Records(l.count + 1, l.maxCount - l.count, evs)
    decreases |evs|
  {
    hide Add, StoredRecord, Inv;
    EntriesFit(l, z, c0);
    if evs != [] {
      var e := evs[0];
      var l' := Next(l, e);
      if e.AddRecord? {
        AddInRun(l, z, c0, e.recordType, e.recordData, e.now);
        AddKeepsMax(l, e.recordType, e.recordData, e.now);
      } else {
        ReserveKeeps(l, z, c0);
      }
      assert e in evs && forall e' :: e' in evs[1..] ==> e' in evs;
      EntriesFit(l', z, c0);
      RunStores(l', z, c0, evs[1..]);
      if e.AddRecord? && l.count < l.maxCount {
        assert DataOf(l'.entries) == DataOf(l.entries) + [StoredRecord(l.count + 1, e.recordType, e.recordData, e.now)];
      } else {
        assert l'.entries == l.entries;
      }
    } else {
      assert Records(l.count + 1, l.maxCount - l.count, evs) == [];
    }
  }

  lemma ReserveKeeps(l: Log, z: nat, c0: nat)
    requires Inv(l, z, c0)
    ensures Inv(Next(l, Reserve), z, c0)
  {
  }

  /** From start-up and without an erase, the walk returns what the first thousand adds
      stored, numbered from 1, whatever reservations and refused adds lie between. */
  lemma WalkIsAdds(evs: seq<Event>, fuel: nat)
    requires Usable(evs) && 1000 < fuel && forall e :: e in evs ==> !e.EraseAll?
    ensures var l := Run(Log([], 0, 1000, 0, 0, 1), evs);
            && Fit(l)
            && Walk(l, 0, fuel) == Records(1, 1000, evs)
  {
    hide Run, Walk, Records;
    WalkOverRuns(evs, fuel);
    RunStores(Log([], 0, 1000, 0, 0, 1), 0, 0, evs);
  }

  lemma NewestRead(l: Log)
    requires Inv(l, 0, 0) && 0 < l.count
    ensures Fit(l) && !Faults(l, 0, LAST_ID, 0, 255) && |l.entries| == l.count
    ensures Read(l, 0, LAST_ID, 0, 255) == [0] + Le16(LAST_ID) + DataOf(l.entries)[l.count - 1]
  {
    hide Le16, Read;
    ReadEnds(l, 0, 0, 1, 0, 255);
    assert l.entries[l.count - 1].data[0..16] == l.entries[l.count - 1].data;
  }

  lemma StartsEmpty()
    ensures Inv(Log([], 0, 1000, 0, 0, 1), 0, 0)
  {
  }

  /** From start-up and without an erase, id 0xffff reads what the last stored add stored. */
  lemma NewestIsLastAdd(evs: seq<Event>)
    requires Usable(evs) && (forall e :: e in evs ==> !e.EraseAll?) && Records(1, 1000, evs) != []
    ensures var l, rs := Run(Log([], 0, 1000, 0, 0, 1), evs), Records(1, 1000, evs);
            Fit(l) && !Faults(l, 0, LAST_ID, 0, 255) && Read(l, 0, LAST_ID, 0, 255) == [0] + Le16(LAST_ID) + rs[|rs| - 1]
  {
    hide Run, Records, Le16, Read, Inv, Faults, Fit;
    var l0 := Log([], 0, 1000, 0, 0, 1);
    StartsEmpty();
    RunStores(l0, 0, 0, evs);
    var l, rs := Run(l0, evs), Records(1, 1000, evs);
    assert DataOf(l0.entries) == [] && DataOf(l0.entries) + rs == rs;
    EntriesFit(l, 0, 0);
    NewestRead(l);
  }

  /** What was added is what is read: until the next erase, whatever else is added or was
      erased before, reading the record's id gives its id, type, timestamp below type 0xe0,
      and the given bytes in their places. */
  lemma AddThenRead(l: Log, z: nat, c0: nat, recordType: u8, recordData: seq<u8>, now: u32, evs: seq<Event>)
    requires Inv(l, z, c0) && l.count < l.maxCount && |recordData| == 16
    requires Usable(evs) && forall e :: e in evs ==> !e.EraseAll?
    ensures var r := Add(l, recordType, recordData, now);
            var later := Run(r.log, evs);
            && Fit(later)
            && Read(later, 0, r.recordId, 0, 255) ==
               [0] + Le16(if z > 0 || r.recordId == later.count then LAST_ID else r.recordId + 1)
               + Le16(r.recordId) + [recordType]
               + (if recordType < 0xe0 then Le32(now) + recordData[7..] else recordData[3..])
  {
    hide Le16, Le32, Add, Read, Run, Records, Inv, StoredRecord, Faults;
    var r := Add(l, recordType, recordData, now);
    EntriesFit(l, z, c0);
    AddInRun(l, z, c0, recordType, recordData, now);
    RunStores(r.log, z, c0, evs);
    var later := Run(r.log, evs);
    EntriesFit(later, z, c0);
    ReadById(later, z, c0, r.recordId, 0, 255);
    var at := z + l.count - c0;
    assert DataOf(later.entries)[at] == DataOf(r.log.entries)[at];
    assert later.entries[at].data[0..16] == later.entries[at].data;
    StoredBytes(r.recordId, recordType, recordData, now);
  }

  lemma StoredBytes(id: u16, recordType: u8, recordData: seq<u8>, now: u32)
    requires |recordData| == 16
    ensures StoredRecord(id, recordType, recordData, now) ==
            Le16(id) + [recordType] + (if recordType < 0xe0 then Le32(now) + recordData[7..] else recordData[3..])
  {
    hide Le16, Le32;
  }

  /** The add handler hands over the record shifted by three bytes: the record bytes end up
      in their own places exactly when they are all zero. */
  lemma AddSelEntryShifts(id: u16, record: seq<u8>, now: u32)
    requires |record| == 16
    ensures var stored, from := StoredRecord(id, record[2], record[3..16], now), if record[2] < 0xe0 then 7 else 3;
            stored[from..] == record[from..] <==> record[from..] == Zeros(16 - from)
  {
    hide Le16, Le32;
    var stored, from := StoredRecord(id, record[2], record[3..16], now), if record[2] < 0xe0 then 7 else 3;
    var given := record[3..16];
    assert given[from..] == record[from + 3..];
    assert stored[from..] == record[from + 3..] + Zeros(3);
    if stored[from..] == record[from..] {
      forall k | from <= k < 16
        ensures record[k] == 0
      {
        ShiftZero(record, from, k);
      }
      assert record[from..] == Zeros(16 - from);
    }
  }

  lemma {:induction false} ShiftZero(record: seq<u8>, from: nat, k: nat)
    requires |record| == 16 && from <= k < 16 && from <= 13
    requires record[from..] == record[from + 3..] + Zeros(3)
    ensures record[k] == 0
    decreases 16 - k
  {
    assert record[k] == record[from..][k - from];
    if k < 13 {
      ShiftZero(record, from, k + 3);
    }
  }
}
