/** Sensor polling and reading: each registered sensor's value is copied into its record,
    and on a line card pushed to the central controller. */
module Sensors {
  import opened Bits
  import opened Codes
  import opened Client
  import opened Sdr
  import opened SdrList
  import opened Connection

  const SENSORS_PER_LUN := 254

  datatype Sensor = Sensor(lun: u8, num: u8, sensorType: u8, eventReadingCode: u8, enabled: bool, eventsEnabled: bool,
                           scanningEnabled: bool, value: u8)

  /** Registered sensors by logical unit and number. */
  type Table = map<(u8, u8), Sensor>

  /** A simulated reading; a sensor with no case of its own repeats the previous reading of
      the same poll. */
  function Simulated(num: u8, rnd: nat, previous: u8): u8 {
    if num == 1 || num == 17 || num == 33 then rnd % 0x10 + 20
    else if num == 2 || num == 18 || num == 34 then rnd % 0x10
    else if num == 3 || num == 19 || num == 35 then rnd % 8
    else if num == 4 || num == 20 || num == 36 then rnd % 0x40
    else previous
  }

  /** A card: the reading drawn last in the running poll, its sensors, its records, its client
      context, and the requests it handed to the connection, in order. */
  datatype Board = Board(value: u8, table: Table, repo: Repo, ctx: Ctx, outbox: seq<seq<u8>>)

  /** Every sensor the poll visits has a record. */
  predicate Covered(table: Table, es: seq<Record>) {
    forall l: u8, n: u8 :: (l, n) in table && l < 4 && 1 <= n <= SENSORS_PER_LUN ==> First(es, l, n, 0) < |es|
  }

  predicate AllSized(es: seq<Record>) {
    forall i :: 0 <= i < |es| ==> |es[i].data| == RECORD_BYTES
  }

  predicate PollOk(p: Board) {
    Covered(p.table, p.repo.entries) && AllSized(p.repo.entries)
  }

  /** The visited sensor, if registered, has a record; the code dereferences it unchecked. */
  predicate Visitable(p: Board, l: u8, n: u8) {
    l < 4 && 1 <= n <= SENSORS_PER_LUN && AllSized(p.repo.entries)
    && ((l, n) in p.table ==> First(p.repo.entries, l, n, 0) < |p.repo.entries|)
  }

  /** A line card queues a request; the controller does not. */
  function Queued(p: Board, pkt: seq<u8>): Board {
    if p.repo.card == 0 then p else p.(ctx := AddSdrBuilt(p.ctx), outbox := p.outbox + [pkt])
  }

  /** One visit of the poll's inner loop. */
  function Visit(p: Board, l: u8, n: u8, rnd: nat): Board
    requires Visitable(p, l, n)
  {
    if (l, n) !in p.table then p
    else
      var v := Simulated(n, rnd, p.value);
      var es, i := p.repo.entries, First(p.repo.entries, l, n, 0);
      var p1 := p.(value := v, table := p.table[(l, n) := p.table[(l, n)].(value := v)],
                   repo := p.repo.(entries := es[i := es[i].(value := v)]));
      Queued(p1, PushRequest(p.ctx, es[i].data, v))
  }

  /** The sensor visited at step k. */
  function LunAt(k: nat): nat {
    k / SENSORS_PER_LUN
  }

  function NumAt(k: nat): (n: nat)
    ensures 1 <= n <= SENSORS_PER_LUN
  {
    k % SENSORS_PER_LUN + 1
  }

  /** The state after the first k visits; `rnd(k)` is the random number drawn at step k. */
  function Polled(p: Board, rnd: nat -> nat, k: nat): (r: Board)
    requires PollOk(p) && k <= 4 * SENSORS_PER_LUN
    ensures PollOk(r) && r.repo.card == p.repo.card
  {
    if k == 0 then p
    else
      var before := Polled(p, rnd, k - 1);
      VisitKeeps(before, LunAt(k - 1), NumAt(k - 1), rnd(k - 1));
      Visit(before, LunAt(k - 1), NumAt(k - 1), rnd(k - 1))
  }

  /** Same records up to their values. */
  predicate SameRecords(es: seq<Record>, es': seq<Record>) {
    |es'| == |es| && forall i :: 0 <= i < |es| ==> es'[i] == es[i].(value := es'[i].value)
  }

  lemma {:induction false} SameRecordsFirst(es: seq<Record>, es': seq<Record>, l: u8, n: u8)
    requires SameRecords(es, es')
    ensures First(es', l, n, 0) == First(es, l, n, 0)
  {
    assert forall k :: 0 <= k < |es| ==> es'[k].lun == es[k].lun && es'[k].sensNum == es[k].sensNum;
  }

  lemma AllVisitable(p: Board, l: u8, n: u8)
    requires PollOk(p) && l < 4 && 1 <= n <= SENSORS_PER_LUN
    ensures Visitable(p, l, n)
  {
  }

  lemma VisitKeeps(p: Board, l: u8, n: u8, rnd: nat)
    requires Visitable(p, l, n)
    ensures var r := Visit(p, l, n, rnd);
            && SameRecords(p.repo.entries, r.repo.entries) && r.table.Keys == p.table.Keys && AllSized(r.repo.entries)
            && (PollOk(p) ==> PollOk(r)) && r.repo == p.repo.(entries := r.repo.entries)
  {
    hide Simulated, PushRequest;
    var r := Visit(p, l, n, rnd);
    if (l, n) in p.table {
      assert r.table.Keys == p.table.Keys;
    }
    forall a: u8, b: u8 | PollOk(p) && (a, b) in r.table && a < 4 && 1 <= b <= SENSORS_PER_LUN
      ensures First(r.repo.entries, a, b, 0) < |r.repo.entries|
    {
      assert (a, b) in p.table;
      SameRecordsFirst(p.repo.entries, r.repo.entries, a, b);
    }
  }

  /** The step at which a sensor is visited. */
  function StepOf(l: u8, n: u8): nat
    requires 1 <= n
  {
    SENSORS_PER_LUN * l + (n - 1)
  }

  /** Sensor and record agree for every sensor visited before step k, no other record or
      sensor has changed, and nothing but values has. */
  ghost predicate Agree(p: Board, r: Board, k: nat) {
    SameRecords(p.repo.entries, r.repo.entries) && r.table.Keys == p.table.Keys && SensorsAgree(p, r, k) && OthersKept(p, r)
  }

  ghost predicate SensorsAgree(p: Board, r: Board, k: nat)
    requires r.table.Keys == p.table.Keys
  {
    forall l: u8, n: u8 :: (l, n) in p.table && l < 4 && 1 <= n <= SENSORS_PER_LUN ==>
          && r.table[(l, n)] == p.table[(l, n)].(value := r.table[(l, n)].value)
          && First(p.repo.entries, l, n, 0) < |r.repo.entries|
          && if StepOf(l, n) < k then r.repo.entries[First(p.repo.entries, l, n, 0)].value == r.table[(l, n)].value
             else r.table[(l, n)] == p.table[(l, n)]
  }

  predicate OthersKept(p: Board, r: Board)
    requires |r.repo.entries| == |p.repo.entries|
  {
    forall i :: 0 <= i < |r.repo.entries| && r.repo.entries[i] != p.repo.entries[i] ==>
      (r.repo.entries[i].lun, r.repo.entries[i].sensNum) in p.table && First(p.repo.entries, r.repo.entries[i].lun, r.repo.entries[i].sensNum, 0) == i
  }

  lemma StepOfInjective(l: u8, n: u8, k: nat)
    requires l < 4 && 1 <= n <= SENSORS_PER_LUN
    ensures StepOf(l, n) == k <==> l == LunAt(k) && n == NumAt(k)
  {
  }

  lemma VisitAgrees(p: Board, before: Board, rnd: nat, k: nat)
    requires PollOk(p) && PollOk(before) && k < 4 * SENSORS_PER_LUN && Agree(p, before, k)
    ensures Agree(p, Visit(before, LunAt(k), NumAt(k), rnd), k + 1)
  {
    hide Visit, LunAt, NumAt, StepOf, SensorsAgree, OthersKept, PollOk;
    LunInRange(k);
    AllVisitable(before, LunAt(k), NumAt(k));
    VisitKeeps(before, LunAt(k), NumAt(k), rnd);
    VisitSensorsAgree(p, before, rnd, k);
    VisitKeepsOthers(p, before, LunAt(k), NumAt(k), rnd);
  }

  lemma VisitSensorsAgree(p: Board, before: Board, rnd: nat, k: nat)
    requires PollOk(p) && PollOk(before) && k < 4 * SENSORS_PER_LUN && LunAt(k) < 4
    requires SameRecords(p.repo.entries, before.repo.entries) && before.table.Keys == p.table.Keys && SensorsAgree(p, before, k)
    ensures var r := Visit(before, LunAt(k), NumAt(k), rnd);
            r.table.Keys == p.table.Keys && SensorsAgree(p, r, k + 1)
  {
    hide Simulated, PushRequest, LunAt, NumAt, StepOf, SameRecords;
    var l0: u8, n0: u8 := LunAt(k), NumAt(k);
    var r := Visit(before, l0, n0, rnd);
    VisitKeeps(before, l0, n0, rnd);
    SameRecordsFirst(p.repo.entries, before.repo.entries, l0, n0);
    forall l: u8, n: u8 | (l, n) in p.table && l < 4 && 1 <= n <= SENSORS_PER_LUN
      ensures r.table[(l, n)] == p.table[(l, n)].(value := r.table[(l, n)].value)
      ensures First(p.repo.entries, l, n, 0) < |r.repo.entries|
      ensures if StepOf(l, n) < k + 1 then r.repo.entries[First(p.repo.entries, l, n, 0)].value == r.table[(l, n)].value
              else r.table[(l, n)] == p.table[(l, n)]
    {
      StepOfInjective(l, n, k);
    }
  }

  lemma VisitKeepsOthers(p: Board, before: Board, l: u8, n: u8, rnd: nat)
    requires PollOk(before) && l < 4 && 1 <= n <= SENSORS_PER_LUN
    requires SameRecords(p.repo.entries, before.repo.entries) && before.table.Keys == p.table.Keys && OthersKept(p, before)
    ensures var r := Visit(before, l, n, rnd); SameRecords(p.repo.entries, r.repo.entries) && OthersKept(p, r)
  {
    hide Simulated, PushRequest;
    SameRecordsFirst(p.repo.entries, before.repo.entries, l, n);
  }

  lemma LunInRange(k: nat)
    requires k < 4 * SENSORS_PER_LUN
    ensures LunAt(k) < 4
  {
  }

  lemma {:induction false} PolledAgrees(p: Board, rnd: nat -> nat, k: nat)
    requires PollOk(p) && k <= 4 * SENSORS_PER_LUN
    ensures Agree(p, Polled(p, rnd, k), k)
    decreases k
  {
    hide Visit, LunAt, NumAt;
    if k > 0 {
      PolledAgrees(p, rnd, k - 1);
      LunInRange(k - 1);
      VisitAgrees(p, Polled(p, rnd, k - 1), rnd(k - 1), k - 1);
    }
  }

  /** Reply data of a sensor reading: completion code, value, enable bits, event status. */
  function Reading(es: seq<Record>, lun: u8, num: u8): seq<u8> {
    var i := First(es, lun, num, 0);
    if i == |es| then [0x81]
    else
      [0, es[i].value, (if es[i].eventsEnabled then 0x80 else 0) + (if es[i].scanningEnabled && es[i].enabled then 0x40 else 0)]
      + Le16(es[i].eventStatus)
  }

  /** The reply, bit by bit: the value, bit 7 for events enabled, bit 6 for scanning while
      enabled, no other bit, and the event status; a sensor without a record is code 0x81. */
  lemma ReadingBits(es: seq<Record>, lun: u8, num: u8)
    ensures var i, d := First(es, lun, num, 0), Reading(es, lun, num);
            if i == |es| then d == [0x81]
            else
              && |d| == 5 && d[0] == 0 && d[1] == es[i].value
              && (d[2] >= 0x80 <==> es[i].eventsEnabled) && (d[2] % 0x80 >= 0x40 <==> es[i].scanningEnabled && es[i].enabled)
              && d[2] % 0x40 == 0 && Un16(d[3..5]) == es[i].eventStatus
  {
    hide Le16, Un16;
    var i, d := First(es, lun, num, 0), Reading(es, lun, num);
    if i < |es| {
      LittleEndian16(es[i].eventStatus);
      assert d[3..5] == Le16(es[i].eventStatus);
    }
  }

  /** After a poll, reading any registered sensor returns the value the poll gave it. */
  lemma ReadingIsPolled(p: Board, rnd: nat -> nat, l: u8, n: u8)
    requires PollOk(p) && (l, n) in p.table && l < 4 && 1 <= n <= SENSORS_PER_LUN
    ensures var r := Polled(p, rnd, 4 * SENSORS_PER_LUN);
            && (l, n) in r.table && |Reading(r.repo.entries, l, n)| == 5
            && Reading(r.repo.entries, l, n)[1] == r.table[(l, n)].value
            && Reading(r.repo.entries, l, n)[2..] == Reading(p.repo.entries, l, n)[2..]
  {
    hide Polled;
    var r := Polled(p, rnd, 4 * SENSORS_PER_LUN);
    PolledAgrees(p, rnd, 4 * SENSORS_PER_LUN);
    SameRecordsFirst(p.repo.entries, r.repo.entries, l, n);
    assert StepOf(l, n) < 4 * SENSORS_PER_LUN;
  }

  // ---------- what a reading can be ----------

  /** Temperatures are 20 to 35, so never zero; the other kinds start at zero. */
  lemma SimulatedRange(num: u8, rnd: nat, previous: u8)
    ensures num == 1 || num == 17 || num == 33 ==> 20 <= Simulated(num, rnd, previous) <= 35
    ensures num == 2 || num == 18 || num == 34 ==> Simulated(num, rnd, previous) <= 15
    ensures num == 3 || num == 19 || num == 35 ==> Simulated(num, rnd, previous) <= 7
    ensures num == 4 || num == 20 || num == 36 ==> Simulated(num, rnd, previous) <= 63
  {
  }

  /** Every reading in range is drawn for some random number, and a sensor without a case repeats
      the reading before it. */
  lemma SimulatedCovers(num: u8, v: u8, previous: u8)
    ensures (num == 1 || num == 17 || num == 33) && 20 <= v <= 35 ==> Simulated(num, v - 20, previous) == v
    ensures (num == 2 || num == 18 || num == 34) && v <= 15 ==> Simulated(num, v, previous) == v
    ensures (num == 3 || num == 19 || num == 35) && v <= 7 ==> Simulated(num, v, previous) == v
    ensures (num == 4 || num == 20 || num == 36) && v <= 63 ==> Simulated(num, v, previous) == v
    ensures num > 36 || num % 16 == 0 || num % 16 > 4 ==> Simulated(num, v, previous) == previous
  {
  }

  /** A board whose sensors are all numbered above 36, as on cards 3 and up, draws zero for
      ever: no case sets a reading, so each poll repeats the zero it starts from. */
  lemma {:induction false} QuietBoard(p: Board, rnd: nat -> nat, k: nat, l: u8, n: u8)
    requires PollOk(p) && k <= 4 * SENSORS_PER_LUN && p.value == 0 && l < 4 && 1 <= n <= SENSORS_PER_LUN
    requires forall x :: x in p.table ==> x.1 > 36
    ensures Polled(p, rnd, k).value == 0 && Polled(p, rnd, k).table.Keys == p.table.Keys
    ensures (l, n) in p.table && StepOf(l, n) < k ==> Polled(p, rnd, k).table[(l, n)].value == 0
    decreases k
  {
    hide Visit, LunAt, NumAt, StepOf, PollOk;
    if k > 0 {
      QuietBoard(p, rnd, k - 1, l, n);
      LunInRange(k - 1);
      StepOfInjective(l, n, k - 1);
      AllVisitable(Polled(p, rnd, k - 1), LunAt(k - 1), NumAt(k - 1));
      VisitQuiet(Polled(p, rnd, k - 1), LunAt(k - 1), NumAt(k - 1), rnd(k - 1), l, n);
    }
  }

  lemma VisitQuiet(p: Board, l: u8, n: u8, rnd: nat, l': u8, n': u8)
    requires Visitable(p, l, n) && p.value == 0 && forall x :: x in p.table ==> x.1 > 36
    ensures var r := Visit(p, l, n, rnd);
            && r.value == 0 && r.table.Keys == p.table.Keys
            && ((l, n) in p.table ==> r.table[(l, n)].value == 0)
            && ((l', n') in p.table && (l', n') != (l, n) ==> r.table[(l', n')] == p.table[(l', n')])
  {
    hide PushRequest;
    var r := Visit(p, l, n, rnd);
    if (l, n) in p.table {
      assert (l, n).1 > 36;
      assert r.table.Keys == p.table.Keys;
    }
  }

  // ---------- start-up ----------

  /** Number of a card's k-th sensor. */
  function SensorNum(card: nat, k: nat): u8
    requires card < 16 && 1 <= k <= 4
  {
    k + 16 * card
  }

  /** No two cards share a sensor number. */
  lemma SensorNumInjective(c: nat, k: nat, c': nat, k': nat)
    requires c < 16 && 1 <= k <= 4 && c' < 16 && 1 <= k' <= 4
    ensures SensorNum(c, k) == SensorNum(c', k') <==> c == c' && k == k'
  {
  }

  /** Temperature, voltage, current and fan: units, nominal reading, ranges and thresholds. */
  function KindBytes(k: nat): (s: seq<u8>)
    requires 1 <= k <= 4
    ensures |s| == 22
  {
    match k
    case 1 => [0, 1, 0, 0, 1, 0, 0, 0, 0, 0, 3, 0x60, 0xB0, 0, 0xB0, 0, 0xA0, 0x90, 0x66, 0, 0, 0]
    case 2 => [0, 4, 0, 0, 1, 0, 0, 0, 0, 0, 3, 0, 0, 0x0D, 0x10, 0x0C, 0x0F, 0x0E, 0x0D, 0, 0, 0]
    case 3 => [0, 5, 0, 0, 1, 0, 0, 0, 0, 0, 3, 0, 0, 3, 6, 5, 7, 6, 5, 0, 0, 0]
    case _ => [4, 0x12, 0x0A, 0, 1, 0, 0, 0, 0, 0, 3, 0, 0, 0x28, 0x50, 0x32, 0x46, 0x3C, 0, 0, 0, 0]
  }

  /** Bytes 2 to 47 of the record of a card's k-th sensor. */
  function Body(card: u8, k: nat): (s: seq<u8>)
    requires card < 16 && 1 <= k <= 4
    ensures |s| == 46
  {
    [0x51, 1, if k == 1 then 0x32 else 0x35, 0x20, 0, SensorNum(card, k), 3, card, 0x67, 0x88, k, 1]
    + [0x0F, 0xC0, 0x7F, 0xC0, 0x38, 0x38] + KindBytes(k) + [0, 0, 0, 0, 0, if k == 1 then 0xC7 else 0xCA]
  }

  function IdString(card: u8, k: nat): (s: seq<u8>)
    requires card < 16 && 1 <= k <= 4
    ensures |s| == if k == 1 then 7 else 10
  {
    ['0' as u8 + card] +
    match k
    case 1 => ['D' as u8, 'J' as u8, 't' as u8, 'e' as u8, 'm' as u8, 'p' as u8]
    case 2 => ['M' as u8, 'X' as u8, 'v' as u8, 'o' as u8, 'l' as u8, 't' as u8, 'a' as u8, 'g' as u8, 'e' as u8]
    case 3 => ['M' as u8, 'X' as u8, 'c' as u8, 'u' as u8, 'r' as u8, 'r' as u8, 'e' as u8, 'n' as u8, 't' as u8]
    case _ => ['F' as u8, 'X' as u8, 'f' as u8, 'a' as u8, 'n' as u8, 'r' as u8, 'e' as u8, 'a' as u8, 'd' as u8]
  }

  /** The k-th sensor's registration: the sensor, its record unless the repository is full,
      and on a line card the push of that record. */
  function Registered(b: Board, k: nat): Board
    requires b.repo.card < 16 && 1 <= k <= 4
  {
    var card := b.repo.card;
    var n := SensorNum(card, k);
    var b1 := b.(table := b.table[(0, n) := Sensor(0, n, k, 1, true, true, true, 0)]);
    if b.repo.nextFreeEntryId >= b.repo.maxSdrCount then b1
    else
      var e := LocalRecord(b.repo, Body(card, k), IdString(card, k));
      Queued(b1.(repo := Append(b.repo, e)), AddSdrRequest(b.ctx, e.data))
  }

  /** A record names its own sensor, under logical unit zero, in the bytes the controller
      files it by, and its length field fits. */
  predicate SelfDescribed(e: Record) {
    |e.data| == RECORD_BYTES && e.lun == 0 && e.data[6] == 0 && e.data[7] == e.sensNum && LengthOf(e.data) + 2 <= RECORD_BYTES
  }

  predicate AllDescribed(es: seq<Record>) {
    forall i :: 0 <= i < |es| ==> SelfDescribed(es[i])
  }

  /** The records made at start-up are such records, with a zero OEM byte. */
  lemma StartRecordDescribed(r: Repo, k: nat)
    requires r.card < 16 && 1 <= k <= 4
    ensures var e := LocalRecord(r, Body(r.card, k), IdString(r.card, k));
            SelfDescribed(e) && e.sensNum == SensorNum(r.card, k) && e.data[46] == 0 && e.value == 0
  {
    hide Le16, KindBytes, IdString;
    var body := Body(r.card, k);
    assert body[2] == (if k == 1 then 0x32 else 0x35) && body[4] == 0 && body[5] == SensorNum(r.card, k);
    assert body[44] == 0 && body[45] == if k == 1 then 0xC7 else 0xCA;
  }

  /** Registering keeps every visited sensor covered by a record exactly when the repository
      has an id left or already had a record for the sensor. */
  lemma RegisterCovers(b: Board, k: nat)
    requires b.repo.card < 16 && 1 <= k <= 4 && PollOk(b)
    ensures PollOk(Registered(b, k)) <==>
            b.repo.nextFreeEntryId < b.repo.maxSdrCount
            || First(b.repo.entries, 0, SensorNum(b.repo.card, k), 0) < |b.repo.entries|
  {
    hide LocalRecord, Body, IdString, AddSdrRequest;
    var r, n := Registered(b, k), SensorNum(b.repo.card, k);
    StartRecordDescribed(b.repo, k);
    BodyMakeable(b.repo.card, k);
    if b.repo.nextFreeEntryId < b.repo.maxSdrCount {
      var e := LocalRecord(b.repo, Body(b.repo.card, k), IdString(b.repo.card, k));
      forall l: u8, m: u8 | (l, m) in r.table && l < 4 && 1 <= m <= SENSORS_PER_LUN
        ensures First(r.repo.entries, l, m, 0) < |r.repo.entries|
      {
        FirstAppended(b.repo.entries, e, l, m);
        assert (l, m) == (0, n) || (l, m) in b.table;
      }
    } else {
      assert (0, n) in r.table;
    }
  }

  /** The first k registrations of start-up. */
  function Started(b: Board, k: nat): (r: Board)
    requires b.repo.card < 16 && k <= 4
    ensures r.repo.card == b.repo.card
  {
    if k == 0 then b else Registered(Started(b, k - 1), k)
  }

  /** A card before start-up. */
  predicate Blank(b: Board) {
    b.table == map[] && b.outbox == [] && b.repo == Repo(b.repo.card, [], 0, 0, 2000, 1) && b.repo.card < 16
  }

  /** Start-up leaves a board fit for polling: its four sensors, each with its own record, and
      on a line card four adds for the controller. */
  lemma {:induction false} StartedOk(b: Board, k: nat)
    requires Blank(b) && k <= 4
    ensures var r := Started(b, k);
            && PollOk(r) && AllDescribed(r.repo.entries) && r.repo.nextFreeEntryId == 1 + k && r.repo.maxSdrCount == 2000
            && |r.repo.entries| == k && (forall j :: 0 <= j < k ==> r.repo.entries[j].sensNum == SensorNum(b.repo.card, j + 1))
            && r.table.Keys == (set j | 1 <= j <= k :: (0, SensorNum(b.repo.card, j)))
            && |r.outbox| == if b.repo.card == 0 then 0 else k
    decreases k
  {
    hide LocalRecord, Body, IdString, AddSdrRequest, SelfDescribed, SensorNum, PollOk, AddSdrBuilt;
    if k > 0 {
      StartedOk(b, k - 1);
      var before := Started(b, k - 1);
      RegisterCovers(before, k);
      StartRecordDescribed(before.repo, k);
    } else {
      BlankOk(b);
    }
  }

  function StartRecord(r: Repo, k: nat): Record
    requires r.card < 16 && 1 <= k <= 4
  {
    BodyMakeable(r.card, k);
    LocalRecord(r, Body(r.card, k), IdString(r.card, k))
  }

  lemma RegisteredAppends(b: Board, k: nat)
    requires b.repo.card < 16 && 1 <= k <= 4 && b.repo.nextFreeEntryId < b.repo.maxSdrCount
    ensures Registered(b, k).repo == Append(b.repo, StartRecord(b.repo, k))
  {
    hide Body, IdString, LocalRecord, AddSdrRequest, AddSdrBuilt;
  }

  lemma StartRecordFields(r: Repo, k: nat)
    requires r.card < 16 && 1 <= k <= 4
    ensures var e := StartRecord(r, k);
            && e.recordId == r.nextFreeEntryId && e.lun == 0 && e.sensNum == SensorNum(r.card, k)
            && e.enabled && e.eventsEnabled && e.scanningEnabled && e.eventStatus == 0 && e.value == 0
            && |e.data| == RECORD_BYTES && 0 < e.length <= RECORD_BYTES
            && e.data[..e.length] == Le16(r.nextFreeEntryId) + Body(r.card, k) + IdString(r.card, k) + Zeros(5)
  {
    hide KindBytes, Le16;
    BodyMakeable(r.card, k);
    var body, name := Body(r.card, k), IdString(r.card, k);
    assert body[4] == 0 && body[5] == SensorNum(r.card, k) && body[45] == if k == 1 then 0xC7 else 0xCA;
    var e := LocalRecord(r, body, name);
    assert name[..body[45] % 32] == name;
    assert e.data[..e.length] == Le16(r.nextFreeEntryId) + body + name + Zeros(5);
  }

  /** The records after start-up are those made one after the other. */
  lemma {:induction false} StartedEntries(b: Board, k: nat)
    requires Blank(b) && k <= 4
    ensures var r := Started(b, k).repo;
            && Inv(r) && r.nextFreeEntryId == k + 1 && |r.entries| == k && r.maxSdrCount == 2000
            && forall j :: 0 <= j < k ==> r.entries[j] == StartRecord(Started(b, j).repo, j + 1)
    decreases k
  {
    hide StartRecord, Registered, SensorNum, Inv, Append;
    if k == 0 {
      BlankInv(b);
    } else {
      StartedEntries(b, k - 1);
      var r := Started(b, k - 1).repo;
      RegisteredAppends(Started(b, k - 1), k);
      StartRecordFields(r, k);
      AppendKeepsInv(r, StartRecord(r, k));
      Appended(r, StartRecord(r, k));
    }
  }

  lemma Appended(r: Repo, e: Record)
    requires r.nextFreeEntryId < 0xffff
    ensures var r' := Append(r, e);
            r'.entries == r.entries + [e] && r'.nextFreeEntryId == r.nextFreeEntryId + 1 && r'.maxSdrCount == r.maxSdrCount
  {
  }

  lemma BlankInv(b: Board)
    requires Blank(b)
    ensures Inv(b.repo)
  {
  }

  /** After start-up each sensor reads zero, with events and scanning enabled. */
  lemma StartReadings(b: Board, k: nat)
    requires Blank(b) && 1 <= k <= 4
    ensures Reading(Started(b, 4).repo.entries, 0, SensorNum(b.repo.card, k)) == [0, 0, 0xC0, 0, 0]
  {
    hide Started, StartRecord, Body, IdString, Inv;
    var es := Started(b, 4).repo.entries;
    StartedEntries(b, 4);
    forall j | 0 <= j < 4
      ensures es[j].lun == 0 && es[j].sensNum == SensorNum(b.repo.card, j + 1)
    {
      StartRecordFields(Started(b, j).repo, j + 1);
    }
    var i := First(es, 0, SensorNum(b.repo.card, k), 0);
    assert es[k - 1].lun == 0 && es[k - 1].sensNum == SensorNum(b.repo.card, k);
    assert i < 4 && es[i].sensNum == SensorNum(b.repo.card, i + 1);
    assert i == k - 1;
    StartRecordFields(Started(b, k - 1).repo, k);
    assert Le16(0) == [0, 0];
  }

  lemma LocalByte(r: Repo, body: seq<u8>, idStr: seq<u8>, j: nat)
    requires Makeable(body, idStr) && 2 <= j < 48
    ensures |LocalRecord(r, body, idStr).data| == RECORD_BYTES && LocalRecord(r, body, idStr).data[j] == body[j - 2]
  {
    hide Le16;
  }

  lemma LocalName(r: Repo, body: seq<u8>, idStr: seq<u8>)
    requires Makeable(body, idStr) && 0 < body[45] % 32
    ensures |LocalRecord(r, body, idStr).data| == RECORD_BYTES && LocalRecord(r, body, idStr).data[48] == idStr[0]
  {
    hide Le16;
  }

  lemma BodyBytes(card: u8, k: nat)
    requires card < 16 && 1 <= k <= 4
    ensures var b, n := Body(card, k), |IdString(card, k)|;
            && b[1] == 1 && b[3] == 0x20 && b[4] == 0 && b[5] == SensorNum(card, k) && b[7] == card && b[10] == k && b[11] == 1
            && b[2] as int + 5 == 48 + n && b[45] % 32 == n && IdString(card, k)[0] == '0' as u8 + card
  {
    hide KindBytes;
  }

  /** Sensor and record made at start-up agree: unit, number, kind and reading code are the
      record's bytes, the record's own length byte covers its bytes up to the name's end, and
      the card shows in the owner's instance and in the name. */
  lemma StartSensorAgrees(b: Board, k: nat)
    requires b.repo.card < 16 && 1 <= k <= 4 && b.repo.nextFreeEntryId < b.repo.maxSdrCount
    ensures var r, d := Registered(b, k), StartRecord(b.repo, k).data;
            && |d| == RECORD_BYTES && (0, SensorNum(b.repo.card, k)) in r.table
            && (var s := r.table[(0, SensorNum(b.repo.card, k))];
                && s.lun == d[6] && s.num == d[7] && s.sensorType == d[12] == k && s.eventReadingCode == d[13] == 1
                && s.enabled && s.eventsEnabled && s.scanningEnabled && s.value == 0)
            && LengthOf(d) as int == 48 + |IdString(b.repo.card, k)| && d[3] == 1 && d[5] == 0x20 && d[9] == b.repo.card
            && d[48] == '0' as u8 + b.repo.card
  {
    hide AddSdrRequest, AddSdrBuilt, Body, IdString, LocalRecord, SensorNum;
    BodyMakeable(b.repo.card, k);
    BodyBytes(b.repo.card, k);
    var body, name := Body(b.repo.card, k), IdString(b.repo.card, k);
    forall j | 2 <= j < 48
      ensures |StartRecord(b.repo, k).data| == RECORD_BYTES && StartRecord(b.repo, k).data[j] == body[j - 2]
    {
      LocalByte(b.repo, body, name, j);
    }
    LocalName(b.repo, body, name);
  }

  /** A sensor added from a message reads zero, with events and scanning enabled. */
  lemma AddedReads(r: Repo, p: seq<u8>)
    requires Addable(r, p) && p[46] == 0 && p[6] == 0 && First(r.entries, p[6], p[7], 0) == |r.entries|
    ensures Reading(AddSdr(r, p).repo.entries, 0, p[7]) == [0, 0, 0xC0, 0, 0]
  {
    hide Le16;
    FirstAppended(r.entries, NewRecord(r, p), 0, p[7]);
    assert Le16(0) == [0, 0] by {
      ZeroBytes();
    }
  }

  lemma ZeroBytes()
    ensures Le16(0) == [0, 0]
  {
  }

  /** Reading the k-th start-up record gives its id, body and name, and five zeros. */
  lemma StartRecordRead(b: Board, k: nat)
    requires Blank(b) && 1 <= k <= 4
    ensures Inv(Started(b, 4).repo)
    ensures Read(Started(b, 4).repo, 0, k, 0, 255) ==
            [0] + Le16(if k == 4 then LAST_ID else k + 1) + Le16(k) + Body(b.repo.card, k) + IdString(b.repo.card, k) + Zeros(5)
  {
    hide Started, StartRecord, Le16, Body, IdString, Read, Inv, Zeros, SensorNum;
    var r := Started(b, 4).repo;
    StartedEntries(b, 4);
    StartedEntries(b, k - 1);
    StartRecordFields(Started(b, k - 1).repo, k);
    var e := r.entries[k - 1];
    if k < 4 {
      StartedEntries(b, k);
      StartRecordFields(Started(b, k).repo, k + 1);
    }
    ReadAt(r, k - 1, k, 0, 255);
    assert e.data[0..Min(255, e.length)] == e.data[..e.length];
    Regroup([0], Le16(if k == 4 then LAST_ID else k + 1), Le16(k), Body(b.repo.card, k), IdString(b.repo.card, k), Zeros(5));
  }

  lemma Regroup(a: seq<u8>, b: seq<u8>, c: seq<u8>, d: seq<u8>, e: seq<u8>, f: seq<u8>)
    ensures a + b + (c + d + e + f) == a + b + c + d + e + f
  {
  }

  /** Clearing the repository after start-up leaves the sensors without records, so the next
      poll dereferences nil. */
  lemma ClearUncovers(b: Board)
    requires Blank(b)
    ensures !Covered(Started(b, 4).table, Clear(Started(b, 4).repo).entries)
  {
    hide Started;
    StartedOk(b, 4);
    var n := SensorNum(b.repo.card, 1);
    assert (0, n) in Started(b, 4).table;
    assert First(Clear(Started(b, 4).repo).entries, 0, n, 0) == 0;
  }

  lemma BlankOk(b: Board)
    requires Blank(b)
    ensures PollOk(b)
  {
  }

  // ---------- the card ----------

  class BoardT {
    const repo: SdrsT
    const client: ClientT
    var sensors: Table
    /** Requests handed to the connection, in order. */
    var outbox: seq<seq<u8>>

    ghost function View(value: u8): Board
      reads this, repo, repo.nodes, client
    {
      Board(value, sensors, repo.View(), client.ctx, outbox)
    }

    constructor (card: u8)
      requires card < 16
      ensures fresh(repo) && fresh(client) && repo.Valid() && repo.nodes == [] && repo.card == card
      ensures Blank(View(0))
    {
      repo := new SdrsT(card);
      client := new ClientT();
      sensors, outbox := map[], [];
    }

    /** Register a sensor: a second one under the same unit and number replaces the first. */
    method SensorAdd(lun: u8, num: u8, sensorType: u8, eventReadingCode: u8)
      modifies `sensors
      ensures sensors == old(sensors)[(lun, num) := Sensor(lun, num, sensorType, eventReadingCode, true, true, true, 0)]
    {
      sensors := sensors[(lun, num) := Sensor(lun, num, sensorType, eventReadingCode, true, true, true, 0)];
    }

    /** One of the four registrations of start-up. */
    method Register(k: nat)
      requires repo.Valid() && repo.card < 16 && 1 <= k <= 4
      modifies `sensors, `outbox, client, repo, repo.nodes
      ensures repo.Valid() && View(0) == Registered(old(View(0)), k)
      ensures repo.nodes == old(repo.nodes) || (|repo.nodes| == |old(repo.nodes)| + 1 && repo.nodes[..|old(repo.nodes)|] == old(repo.nodes) && fresh(repo.nodes[|old(repo.nodes)|]))
    {
      hide Linked, Views, LocalRecord, Body, IdString, AddSdrRequest, KindBytes;
      ghost var r := repo.View();
      StartRecordDescribed(r, k);
      BodyMakeable(repo.card, k);
      var n := SensorNum(repo.card, k);
      SensorAdd(0, n, k, 1);
      var full := repo.nextFreeEntryId >= repo.maxSdrCount;
      repo.MainSdrAdd(Body(repo.card, k), IdString(repo.card, k));
      if !full && repo.card > 0 {
        ViewsAt(repo.nodes, |repo.nodes| - 1);
        var msgData := client.AddSdrBuildMsg(repo.tailSdr.data);
        outbox := outbox + [msgData];
      }
    }

    /** Start-up of the sensors and their records. */
    method BmcInit()
      requires repo.Valid() && repo.card < 16
      modifies `sensors, `outbox, client, repo, repo.nodes
      ensures repo.Valid() && View(0) == Started(old(View(0)), 4)
    {
      hide Registered, SdrsT.Valid;
      ghost var b, ns := View(0), repo.nodes;
      for k := 1 to 5
        invariant repo.Valid() && View(0) == Started(b, k - 1)
        invariant |ns| <= |repo.nodes| && repo.nodes[..|ns|] == ns && forall j :: |ns| <= j < |repo.nodes| ==> fresh(repo.nodes[j])
      {
        Register(k);
      }
    }

    /** Visit every unit and number in order.  The poll completes exactly when every sensor
        visited has a record; otherwise it dereferences nil at the first that has none. */
    method PollSensors(rnd: nat -> nat) returns (completed: bool)
      requires repo.Valid()
      modifies `sensors, `outbox, client, repo.nodes
      ensures repo.Valid() && repo.nodes == old(repo.nodes)
      ensures completed <==> Covered(old(sensors), old(repo.View()).entries)
      ensures completed ==> exists v :: PollOk(old(View(0))) && View(v) == Polled(old(View(0)), rnd, 4 * SENSORS_PER_LUN)
    {
      hide PollOk, Polled, Visit, Linked, Views;
      ghost var p := View(0);
      ghost var ns := repo.nodes;
      SizedByValid(repo);
      var k := 0;
      var value := 0;
      PollStarts(p, rnd);
      for lun := 0 to 4
        invariant repo.Valid() && repo.nodes == ns && k == SENSORS_PER_LUN * lun
        invariant InProgress(p, View(value), rnd, k)
      {
        for sensNum := 1 to 255
          invariant repo.Valid() && repo.nodes == ns && k == SENSORS_PER_LUN * lun + (sensNum - 1)
          invariant InProgress(p, View(value), rnd, k)
        {
          PollContinues(p, View(value), rnd, k, lun, sensNum);
          var found;
          found, value := VisitSensor(lun, sensNum, rnd(k), value);
          if !found {
            return false;
          }
          k := k + 1;
        }
      }
      PollEnds(p, View(value), rnd);
      completed := true;
    }

    /** The body of the inner loop; false where the record is missing. */
    method VisitSensor(lun: u8, sensNum: u8, rnd: nat, previous: u8) returns (found: bool, value: u8)
      requires repo.Valid() && lun < 4 && 1 <= sensNum <= SENSORS_PER_LUN
      modifies `sensors, `outbox, client, repo.nodes
      ensures repo.Valid() && repo.nodes == old(repo.nodes)
      ensures found <==> Visitable(old(View(previous)), lun, sensNum)
      ensures found ==> View(value) == Visit(old(View(previous)), lun, sensNum, rnd)
    {
      hide Linked, Views, PushRequest, Simulated;
      SizedByValid(repo);
      found, value := true, previous;
      if (lun, sensNum) !in sensors {
        return;
      }
      value := DrawValue(sensNum, rnd, previous);
      sensors := sensors[(lun, sensNum) := sensors[(lun, sensNum)].(value := value)];
      var data;
      found, data := StoreValue(lun, sensNum, value);
      if found && repo.card > 0 {
        Push(data, value);
      }
    }

    method DrawValue(sensNum: u8, rnd: nat, previous: u8) returns (value: u8)
      ensures value == Simulated(sensNum, rnd, previous)
    {
      value := previous;
      if sensNum == 1 || sensNum == 17 || sensNum == 33 {
        value := rnd % 0x10 + 20;
      } else if sensNum == 2 || sensNum == 18 || sensNum == 34 {
        value := rnd % 0x10;
      } else if sensNum == 3 || sensNum == 19 || sensNum == 35 {
        value := rnd % 8;
      } else if sensNum == 4 || sensNum == 20 || sensNum == 36 {
        value := rnd % 0x40;
      }
    }

    /** Find the sensor's record, if it has one, and write its value. */
    method StoreValue(lun: u8, sensNum: u8, value: u8) returns (found: bool, data: seq<u8>)
      requires repo.Valid()
      modifies repo.nodes
      ensures repo.Valid() && repo.nodes == old(repo.nodes)
      ensures found <==> First(old(repo.View().entries), lun, sensNum, 0) < |old(repo.View().entries)|
      ensures found ==>
                var es, i := old(repo.View().entries), First(old(repo.View().entries), lun, sensNum, 0);
                repo.View() == old(repo.View()).(entries := es[i := es[i].(value := value)]) && data == es[i].data
    {
      hide Linked, Views;
      var entry, i := repo.FindSensor(lun, sensNum);
      if entry == null {
        return false, [];
      }
      LinkedAt(repo.nodes, i);
      found, data := true, entry.data;
      UpdateValue(repo.nodes, i, entry, value);
    }

    /** Push a reading to the central controller. */
    method Push(data: seq<u8>, value: u8)
      requires |data| == RECORD_BYTES
      modifies `outbox, client
      ensures client.ctx == AddSdrBuilt(old(client.ctx))
      ensures outbox == old(outbox) + [PushRequest(old(client.ctx), data, value)]
    {
      hide AddSdrRequest;
      var msgData := client.AddSdrBuildMsg(data);
      outbox := outbox + [msgData[66 := value]];
    }

    method GetSensorReading(lun: u8, sensNum: u8) returns (reply: seq<u8>)
      requires repo.Valid()
      ensures reply == Reading(repo.View().entries, lun, sensNum)
    {
      hide Le16, Linked, Views;
      var entry, i := repo.FindSensor(lun, sensNum);
      if entry == null {
        return [0x81];
      }
      LinkedAt(repo.nodes, i);
      var sensEn := if entry.eventsEnabled then 1 else 0;
      var scanEn := if entry.scanningEnabled && entry.enabled then 1 else 0;
      reply := [0, entry.value, sensEn * 0x80 + scanEn * 0x40] + Le16(entry.eventStatus);
    }
  }

  lemma BodyMakeable(card: u8, k: nat)
    requires card < 16 && 1 <= k <= 4
    ensures Makeable(Body(card, k), IdString(card, k))
  {
    hide KindBytes;
    assert Body(card, k)[45] == if k == 1 then 0xC7 else 0xCA;
  }

  lemma SizedByValid(repo: SdrsT)
    requires repo.Valid()
    ensures AllSized(repo.View().entries)
  {
    ViewsAll(repo.nodes);
  }

  /** Where a running poll stands before step k: nothing but values changed, every sensor
      visited so far had a record, and the state is the poll's if all have. */
  ghost predicate InProgress(p: Board, now: Board, rnd: nat -> nat, k: nat)
    requires k <= 4 * SENSORS_PER_LUN
  {
    && AllSized(p.repo.entries) && AllSized(now.repo.entries)
    && SameRecords(p.repo.entries, now.repo.entries) && now.table.Keys == p.table.Keys
    && (forall l: u8, n: u8 :: (l, n) in p.table && l < 4 && 1 <= n <= SENSORS_PER_LUN && StepOf(l, n) < k ==>
          First(p.repo.entries, l, n, 0) < |p.repo.entries|)
    && (PollOk(p) ==> now == Polled(p, rnd, k))
  }

  lemma PollStarts(p: Board, rnd: nat -> nat)
    requires AllSized(p.repo.entries)
    ensures InProgress(p, p, rnd, 0)
  {
  }

  /** The next visit goes on from there if the sensor has a record, and otherwise shows that
      the poll cannot complete. */
  lemma PollContinues(p: Board, now: Board, rnd: nat -> nat, k: nat, lun: u8, sensNum: u8)
    requires lun < 4 && 1 <= sensNum <= SENSORS_PER_LUN && k == StepOf(lun, sensNum) && k < 4 * SENSORS_PER_LUN
    requires InProgress(p, now, rnd, k)
    ensures Visitable(now, lun, sensNum) ==> InProgress(p, Visit(now, lun, sensNum, rnd(k)), rnd, k + 1)
    ensures !Visitable(now, lun, sensNum) ==> !Covered(p.table, p.repo.entries)
  {
    hide Visit;
    StepOfInjective(lun, sensNum, k);
    SameRecordsFirst(p.repo.entries, now.repo.entries, lun, sensNum);
    if Visitable(now, lun, sensNum) {
      VisitKeeps(now, lun, sensNum, rnd(k));
      VisitedCovered(p, now, k, lun, sensNum);
    }
  }

  lemma VisitedCovered(p: Board, now: Board, k: nat, lun: u8, sensNum: u8)
    requires lun < 4 && 1 <= sensNum <= SENSORS_PER_LUN && k == StepOf(lun, sensNum) && Visitable(now, lun, sensNum)
    requires SameRecords(p.repo.entries, now.repo.entries) && now.table.Keys == p.table.Keys
    requires forall l: u8, n: u8 :: (l, n) in p.table && l < 4 && 1 <= n <= SENSORS_PER_LUN && StepOf(l, n) < k ==>
               First(p.repo.entries, l, n, 0) < |p.repo.entries|
    ensures forall l: u8, n: u8 :: (l, n) in p.table && l < 4 && 1 <= n <= SENSORS_PER_LUN && StepOf(l, n) < k + 1 ==>
               First(p.repo.entries, l, n, 0) < |p.repo.entries|
  {
    SameRecordsFirst(p.repo.entries, now.repo.entries, lun, sensNum);
    forall l: u8, n: u8 | (l, n) in p.table && l < 4 && 1 <= n <= SENSORS_PER_LUN && StepOf(l, n) == k
      ensures l == lun && n == sensNum
    {
      StepOfInjective(l, n, k);
      StepOfInjective(lun, sensNum, k);
    }
  }

  lemma PollEnds(p: Board, now: Board, rnd: nat -> nat)
    requires InProgress(p, now, rnd, 4 * SENSORS_PER_LUN)
    ensures PollOk(p) && now == Polled(p, rnd, 4 * SENSORS_PER_LUN)
  {
    hide Polled;
    forall l: u8, n: u8 | (l, n) in p.table && l < 4 && 1 <= n <= SENSORS_PER_LUN
      ensures First(p.repo.entries, l, n, 0) < |p.repo.entries|
    {
      assert StepOf(l, n) < 4 * SENSORS_PER_LUN;
    }
  }
}
