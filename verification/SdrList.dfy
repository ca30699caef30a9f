/** The repository as the program keeps it: a singly linked list with a tail pointer. */
module SdrList {
  import opened Bits
  import opened Codes
  import opened Sdr

  class Node {
    var recordId: u16
    var lun: u8
    var sensNum: u8
    var length: u8
    var enabled: bool
    var eventsEnabled: bool
    var scanningEnabled: bool
    var eventStatus: u16
    var value: u8
    var data: seq<u8>
    var next: Node?

    constructor (recordId: u16)
      ensures View() == Record(recordId, 0, 0, 0, false, false, false, 0, 0, Zeros(RECORD_BYTES)) && next == null
    {
      this.recordId, lun, sensNum, length := recordId, 0, 0, 0;
      enabled, eventsEnabled, scanningEnabled, eventStatus, value := false, false, false, 0, 0;
      data, next := Zeros(RECORD_BYTES), null;
    }

    function View(): Record
      reads this
    {
      Record(recordId, lun, sensNum, length, enabled, eventsEnabled, scanningEnabled, eventStatus, value, data)
    }
  }

  function Views(ns: seq<Node>): (es: seq<Record>)
    reads ns
    ensures |es| == |ns|
  {
    if ns == [] then [] else Views(ns[..|ns| - 1]) + [ns[|ns| - 1].View()]
  }

  lemma ViewsAt(ns: seq<Node>, i: nat)
    requires i < |ns|
    ensures Views(ns)[i] == ns[i].View()
  {
    if i < |ns| - 1 {
      ViewsAt(ns[..|ns| - 1], i);
    }
  }

  lemma ViewsAll(ns: seq<Node>)
    ensures forall i :: 0 <= i < |ns| ==> Views(ns)[i] == ns[i].View()
  {
    forall i | 0 <= i < |ns|
      ensures Views(ns)[i] == ns[i].View()
    {
      ViewsAt(ns, i);
    }
  }

  /** Distinct nodes, each linked to the one after it, the last to nothing. */
  ghost predicate Linked(ns: seq<Node>)
    reads ns
  {
    && (forall i, j :: 0 <= i < j < |ns| ==> ns[i] != ns[j])
    && (forall i :: 0 <= i < |ns| ==> ns[i].next == After(ns, i) && |ns[i].data| == RECORD_BYTES)
  }

  lemma LinkedAt(ns: seq<Node>, i: nat)
    requires Linked(ns) && i < |ns|
    ensures ns[i].next == After(ns, i) && |ns[i].data| == RECORD_BYTES && Views(ns)[i] == ns[i].View()
  {
    ViewsAt(ns, i);
  }

  /** Linking a new node behind the last one keeps the list linked and its records. */
  method LinkBehind(ghost ns: seq<Node>, tail: Node, newSdr: Node)
    requires ns != [] && tail == ns[|ns| - 1] && Linked(ns)
    requires newSdr !in ns && newSdr.next == null && |newSdr.data| == RECORD_BYTES
    modifies tail`next
    ensures Linked(ns + [newSdr]) && Views(ns) == old(Views(ns)) && newSdr.View() == old(newSdr.View())
  {
    hide Views;
    ViewsAll(ns);
    tail.next := newSdr;
    ViewsAll(ns);
  }

  /** Writing one node's value in place. */
  method UpdateValue(ghost ns: seq<Node>, ghost i: nat, entry: Node, v: u8)
    requires Linked(ns) && i < |ns| && entry == ns[i]
    modifies entry`value
    ensures Linked(ns) && Views(ns) == old(Views(ns))[i := old(Views(ns))[i].(value := v)]
    ensures entry.recordId == old(entry.recordId)
  {
    hide Views;
    ViewsAll(ns);
    entry.value := v;
    ViewsAll(ns);
  }

  lemma ViewsAppend(ns: seq<Node>, n: Node)
    ensures Views(ns + [n]) == Views(ns) + [n.View()]
  {
    assert (ns + [n])[..|ns|] == ns;
  }

  lemma LocalFits(r: Repo, body: seq<u8>, idStr: seq<u8>)
    requires Makeable(body, idStr)
    ensures |LocalRecord(r, body, idStr).data| == RECORD_BYTES
  {
  }

  /** The eight-bit slice bounds are in order and in range exactly when the copy fits. */
  lemma CopyFits(length: u8)
    ensures 2 <= SliceEnd(2, length) <= RECORD_BYTES <==> length + 2 <= RECORD_BYTES
    ensures length + 2 <= RECORD_BYTES ==> SliceEnd(2, length) == length + 2
  {
  }

  lemma ZerosTail(k: nat)
    requires k <= RECORD_BYTES
    ensures Zeros(RECORD_BYTES)[k..] == Zeros(RECORD_BYTES - k)
  {
  }

  lemma StampedTail(stamp: seq<u8>, k: nat)
    requires |stamp| == 2 <= k <= RECORD_BYTES
    ensures (stamp + Zeros(RECORD_BYTES - 2))[k..] == Zeros(RECORD_BYTES - k)
  {
  }

  lemma LinkedOne(n: Node)
    requires n.next == null && |n.data| == RECORD_BYTES
    ensures Linked([n])
  {
  }

  function After(ns: seq<Node>, i: nat): Node? {
    if i + 1 < |ns| then ns[i + 1] else null
  }

  class SdrsT {
    const card: u8
    var reservation: u16
    var sdrCount: u16
    const maxSdrCount: u16
    var nextFreeEntryId: u16
    var sdrs: Node?
    var tailSdr: Node?
    /** The nodes of the list, in order. */
    ghost var nodes: seq<Node>

    /** The list is acyclic and ends at the tail: its nodes are distinct, each links to the
        one after it, and head and tail are the first and the last, or both nil. */
    ghost predicate Valid()
      reads this, nodes
    {
      && Linked(nodes)
      && sdrs == (if nodes == [] then null else nodes[0])
      && tailSdr == (if nodes == [] then null else nodes[|nodes| - 1])
    }

    ghost function View(): Repo
      reads this, nodes
    {
      Repo(card, Views(nodes), reservation, sdrCount, maxSdrCount, nextFreeEntryId)
    }

    constructor (card: u8)
      ensures Valid() && nodes == [] && View() == Repo(card, [], 0, 0, 2000, 1)
    {
      this.card, maxSdrCount := card, 2000;
      reservation, sdrCount, nextFreeEntryId := 0, 0, 1;
      sdrs, tailSdr, nodes := null, null, [];
    }

    /** Search from the head for a sensor's record. */
    method FindSensor(lun: u8, sensNum: u8) returns (entry: Node?, ghost i: nat)
      requires Valid()
      ensures i == First(View().entries, lun, sensNum, 0)
      ensures entry == if i < |nodes| then nodes[i] else null
    {
      entry, i := sdrs, 0;
      while entry != null
        invariant 0 <= i <= |nodes| && entry == (if i < |nodes| then nodes[i] else null)
        invariant First(Views(nodes), lun, sensNum, i) == First(Views(nodes), lun, sensNum, 0)
        decreases |nodes| - i
      {
        ViewsAt(nodes, i);
        if entry.lun == lun && entry.sensNum == sensNum {
          return;
        }
        entry, i := entry.next, i + 1;
      }
    }

    /** Search from the head for a record id. */
    method FindId(recordId: u16) returns (entry: Node?, ghost i: nat)
      requires Valid()
      ensures i == WithId(View().entries, recordId, 0)
      ensures entry == if i < |nodes| then nodes[i] else null
    {
      entry, i := sdrs, 0;
      while entry != null
        invariant 0 <= i <= |nodes| && entry == (if i < |nodes| then nodes[i] else null)
        invariant WithId(Views(nodes), recordId, i) == WithId(Views(nodes), recordId, 0)
        decreases |nodes| - i
      {
        ViewsAt(nodes, i);
        if entry.recordId == recordId {
          return;
        }
        entry, i := entry.next, i + 1;
      }
    }

    /** Link a new node in behind the tail. */
    method AddSdrEntry(newSdr: Node)
      requires Valid() && newSdr !in nodes && newSdr.next == null && |newSdr.data| == RECORD_BYTES
      modifies this, nodes
      ensures Valid() && nodes == old(nodes) + [newSdr]
      ensures View() == old(View()).(entries := old(View()).entries + [old(newSdr.View())], sdrCount := (old(sdrCount) + 1) % 0x1_0000)
    {
      hide Linked, Views, Node.View;
      if sdrs == null {
        sdrs := newSdr;
        LinkedOne(newSdr);
        assert nodes + [newSdr] == [newSdr];
      } else {
        LinkBehind(nodes, tailSdr, newSdr);
      }
      ViewsAppend(nodes, newSdr);
      tailSdr := newSdr;
      sdrCount := (sdrCount + 1) % 0x1_0000;
      nodes := nodes + [newSdr];
    }

    /** A node with the next id, its bytes stamped with that id on the central controller. */
    method NewSdrEntry(length: u8) returns (n: Node)
      requires Valid()
      modifies this
      ensures fresh(n) && n.next == null && nodes == old(nodes) && Valid()
      ensures View() == old(View()).(nextFreeEntryId := (old(nextFreeEntryId) + 1) % 0x1_0000)
      ensures n.View() == Record(old(nextFreeEntryId), 0, 0, (length as int + 5) % 0x100, false, false, false, 0, 0,
                                 (if card == 0 then Le16(old(nextFreeEntryId)) else [0, 0]) + Zeros(RECORD_BYTES - 2))
    {
      hide Linked, Views, Le16;
      n := new Node(nextFreeEntryId);
      nextFreeEntryId := (nextFreeEntryId + 1) % 0x1_0000;
      n.length := (length as int + 5) % 0x100;
      if card == 0 {
        n.data := Le16(n.recordId) + n.data[2..];
      }
      assert n.data == (if card == 0 then Le16(n.recordId) else [0, 0]) + Zeros(RECORD_BYTES - 2);
    }

    /** The add-SDR handler, given the 64 record bytes of the message.  It stops the server,
        after taking an id, exactly when the bytes to copy into a new record run past it. */
    method AddSdrMessage(p: seq<u8>) returns (stopped: bool, reply: Option<seq<u8>>)
      requires Valid() && |p| == RECORD_BYTES
      modifies this, nodes
      ensures Valid() && (nodes == old(nodes) || (|nodes| == |old(nodes)| + 1 && nodes[..|old(nodes)|] == old(nodes) && fresh(nodes[|old(nodes)|])))
      ensures stopped <==> !Addable(old(View()), p)
      ensures if stopped then View() == old(View()).(nextFreeEntryId := (old(nextFreeEntryId) + 1) % 0x1_0000)
              else Answer(View(), reply) == AddSdr(old(View()), p)
    {
      hide Le16;
      stopped, reply := false, None;
      var entry, i := FindSensor(p[6], p[7]);
      if entry != null {
        ViewsAt(nodes, i);
      }
      if p[46] == 0 {
        if entry != null {
          return false, Some([0] + Le16(entry.recordId));
        }
        stopped, reply := AppendFrom(p);
      } else if entry != null {
        UpdateValue(nodes, i, entry, p[46]);
        reply := Some([0] + Le16(entry.recordId));
      }
    }

    /** Copy the message into a new node: its length counts bytes from position two on. */
    method FillEntry(entry: Node, ghost r: Repo, p: seq<u8>)
      requires |p| == RECORD_BYTES && LengthOf(p) + 2 <= RECORD_BYTES
      requires entry.View() == Record(r.nextFreeEntryId, 0, 0, LengthOf(p), false, false, false, 0, 0,
                                      (if r.card == 0 then Le16(r.nextFreeEntryId) else [0, 0]) + Zeros(RECORD_BYTES - 2))
      modifies entry
      ensures entry.next == old(entry.next) && entry.View() == NewRecord(r, p)
    {
      hide Le16;
      entry.sensNum := p[7];
      StampedTail(entry.data[..2], 2 + entry.length);
      entry.data := entry.data[..2] + p[2..2 + entry.length] + entry.data[2 + entry.length..];
      entry.enabled, entry.eventsEnabled, entry.scanningEnabled, entry.eventStatus := true, true, true, 0;
    }

    method AppendFrom(p: seq<u8>) returns (stopped: bool, reply: Option<seq<u8>>)
      requires Valid() && |p| == RECORD_BYTES
      modifies this, nodes
      ensures Valid() && (stopped <==> LengthOf(p) + 2 > RECORD_BYTES)
      ensures stopped ==> nodes == old(nodes) && View() == old(View()).(nextFreeEntryId := (old(nextFreeEntryId) + 1) % 0x1_0000)
      ensures !stopped ==>
                && |nodes| == |old(nodes)| + 1 && nodes[..|old(nodes)|] == old(nodes) && fresh(nodes[|old(nodes)|])
                && View() == Append(old(View()), NewRecord(old(View()), p)) && reply == Some(Reply(NewRecord(old(View()), p)))
    {
      hide Le16, Linked, Views;
      ghost var r := View();
      var entry := NewSdrEntry(p[4]);
      CopyFits(entry.length);
      if SliceEnd(2, entry.length) < 2 || SliceEnd(2, entry.length) > RECORD_BYTES {
        return true, None;
      }
      FillEntry(entry, r, p);
      AddSdrEntry(entry);
      stopped, reply := false, Some([0] + Le16(entry.recordId));
    }

    /** A record made on this card. */
    method MainSdrAdd(body: seq<u8>, idStr: seq<u8>)
      requires Valid() && Makeable(body, idStr)
      modifies this, nodes
      ensures Valid() && View() == Sdr.MainSdrAdd(old(View()), body, idStr)
      ensures nodes == old(nodes) || (|nodes| == |old(nodes)| + 1 && nodes[..|old(nodes)|] == old(nodes) && fresh(nodes[|old(nodes)|]))
    {
      hide Linked, Views, LocalRecord;
      ghost var r := View();
      LocalFits(r, body, idStr);
      if nextFreeEntryId >= maxSdrCount {
        return;
      }
      var newSdr := MakeLocal(r, body, idStr);
      nextFreeEntryId := (nextFreeEntryId + 1) % 0x1_0000;
      AddSdrEntry(newSdr);
    }

    /** Fill in a node for a record made on this card. */
    method MakeLocal(ghost r: Repo, body: seq<u8>, idStr: seq<u8>) returns (newSdr: Node)
      requires Makeable(body, idStr) && r.nextFreeEntryId == nextFreeEntryId
      ensures fresh(newSdr) && newSdr.next == null && newSdr.View() == LocalRecord(r, body, idStr)
    {
      hide Le16;
      newSdr := new Node(nextFreeEntryId);
      var n := body[45] % 32;
      newSdr.length := 48 + n + 5;
      newSdr.enabled, newSdr.eventsEnabled, newSdr.scanningEnabled, newSdr.eventStatus := true, true, true, 0;
      newSdr.lun, newSdr.sensNum := body[4], body[5];
      ZerosTail(48 + n);
      newSdr.data := Le16(newSdr.recordId) + body + idStr[..n] + newSdr.data[48 + n..];
    }

    /** The get-SDR handler; no reply stands for slice bounds out of order. */
    method GetSdr(req: u16, recordId: u16, offset: u8, want: u8) returns (reply: Option<seq<u8>>)
      requires Valid() && Sized(View().entries)
      ensures reply == if Faults(View(), req, recordId, offset, want) then None
                       else Some(Read(View(), req, recordId, offset, want))
    {
      hide Le16, Linked, Views, WithId;
      if req != 0 && req != reservation {
        return Some([INVALID_RESERVATION_CC]);
      }
      var entry, i := Locate(recordId);
      if entry == null {
        return Some([NOT_PRESENT_CC]);
      }
      LinkedAt(nodes, i);
      if offset >= entry.length {
        return Some([PARAMETER_OUT_OF_RANGE_CC]);
      }
      reply := ReadNode(entry, i, offset, want);
    }

    /** Id zero is the head, the last id the tail, any other is searched for. */
    method Locate(recordId: u16) returns (entry: Node?, ghost i: nat)
      requires Valid()
      ensures i == Position(View().entries, recordId)
      ensures entry == if i < |nodes| then nodes[i] else null
    {
      hide Linked, Views, WithId;
      if recordId == 0 {
        entry, i := sdrs, 0;
      } else if recordId == 0xffff {
        entry, i := tailSdr, if nodes == [] then 0 else |nodes| - 1;
      } else {
        entry, i := FindId(recordId);
      }
    }

    /** The next id and the bytes asked for, clipped to the record in eight bits. */
    method ReadNode(entry: Node, ghost i: nat, offset: u8, want: u8) returns (reply: Option<seq<u8>>)
      requires Valid() && i < |nodes| && entry == nodes[i]
      requires var es := View().entries; i < |es| && offset < es[i].length <= RECORD_BYTES == |es[i].data|
      ensures reply == if offset + want > 255 then None else Some(ReadRecord(View().entries, i, offset, want))
    {
      hide Le16, Linked, Views;
      LinkedAt(nodes, i);
      if i + 1 < |nodes| {
        LinkedAt(nodes, i + 1);
      }
      SliceInOrder(offset, want, entry.length);
      var n := want;
      if SliceEnd(offset, n) > entry.length {
        n := entry.length - offset;
      }
      var data := [0];
      if entry.next != null {
        data := data + Le16(entry.next.recordId);
      } else {
        data := data + Le16(0xffff);
      }
      if SliceEnd(offset, n) < offset {
        return None;
      }
      reply := Some(data + entry.data[offset..SliceEnd(offset, n)]);
    }

    method ReserveSdrRepository() returns (reply: seq<u8>)
      requires Valid()
      modifies this
      ensures Valid() && View() == Reserve(old(View())) && reply == [0] + Le16(reservation)
    {
      hide Linked, Views;
      reservation := (reservation + 1) % 0x1_0000;
      if reservation == 0 {
        reservation := reservation + 1;
      }
      reply := [0] + Le16(reservation);
    }

    /** Erasing drops head and tail; both counters stay. */
    method ClearSdrRepository(req: u16, clr: seq<u8>, op: u8) returns (reply: seq<u8>)
      requires Valid()
      modifies this
      ensures Valid()
      ensures var r := old(View());
              if req != 0 && req != r.reservation then View() == r && reply == [INVALID_RESERVATION_CC]
              else if clr != CLR || (op != 0 && op != 0xaa) then View() == r && reply == [INVALID_DATA_FIELD_CC]
              else View() == (if op == 0xaa then Clear(r) else r) && reply == [0, 1]
    {
      if req != 0 && req != reservation {
        return [INVALID_RESERVATION_CC];
      }
      if clr != CLR {
        return [INVALID_DATA_FIELD_CC];
      }
      if op != 0 && op != 0xaa {
        return [INVALID_DATA_FIELD_CC];
      }
      if op == 0xaa {
        sdrs, tailSdr, nodes := null, null, [];
      }
      reply := [0, 1];
    }
  }
}
