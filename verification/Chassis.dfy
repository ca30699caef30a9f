/** The whole chassis: sixteen cards registering and polling their sensors, and the central
    controller, card 0, receiving what the others send.  Steps of different cards interleave
    in any order, and a packet arrives any number of times, at any moments, until its card
    sends the next one. */
module Chassis {
  import opened Bits
  import opened Codes
  import opened Sessions
  import opened Client
  import opened Sdr
  import opened Sensors
  import opened Mirror

  const CARDS := 16

  /** What a card's last packet says: a sensor, its reading (zero for an add), and whether it
      has arrived. */
  datatype Note = Note(num: u8, value: u8, add: bool, heard: bool)

  datatype Card = Card(board: Board, last: Option<Note>)

  datatype Event = Register(c: nat, k: nat) | BeginPoll(c: nat) | VisitOne(c: nat, l: u8, n: u8, rnd: nat) | Arrive(c: nat)

  /** Card indices and sensor positions as they occur. */
  predicate Formed(e: Event) {
    e.c < CARDS
    && match e
       case Register(_, k) => 1 <= k <= 4
       case VisitOne(_, l, n, _) => l < 4 && 1 <= n <= SENSORS_PER_LUN
       case Arrive(c) => 0 < c
       case BeginPoll(_) => true
  }

  // ---------- one card ----------

  /** The card has a record for its sensor. */
  predicate Known(b: Board, n: u8) {
    First(b.repo.entries, 0, n, 0) < |b.repo.entries|
  }

  /** A card registers each sensor once, at start-up. */
  predicate Registers(x: Card, k: nat) {
    x.board.repo.card < 16 && 1 <= k <= 4 && (0, SensorNum(x.board.repo.card, k)) !in x.board.table
  }

  /** A step in which a line card sends a packet. */
  predicate Sends(x: Card, e: Event) {
    x.board.repo.card > 0
    && match e
       case Register(_, k) => Registers(x, k) && x.board.repo.nextFreeEntryId < x.board.repo.maxSdrCount
       case VisitOne(_, l, n, _) => Visitable(x.board, l, n) && (l, n) in x.board.table
       case _ => false
  }

  /** A card's own step; a visit that finds no record stops the card where it is. */
  function CardStep(x: Card, e: Event): Card
    requires x.board.repo.card < 16 && Formed(e)
  {
    var b := x.board;
    match e
    case Register(_, k) =>
      if !Registers(x, k) then x
      else Card(Registered(b, k), if Sends(x, e) then Some(Note(SensorNum(b.repo.card, k), 0, true, false)) else x.last)
    case BeginPoll(_) => x.(board := b.(value := 0))
    case VisitOne(_, l, n, rnd) =>
      if !Visitable(b, l, n) then x
      else Card(Visit(b, l, n, rnd), if Sends(x, e) then Some(Note(n, Visit(b, l, n, rnd).value, false, false)) else x.last)
    case Arrive(_) => if x.last.Some? then x.(last := Some(x.last.value.(heard := true))) else x
  }

  /** One of a card's own sensors. */
  predicate Own(c: nat, n: u8)
    requires c < 16
  {
    exists k :: 1 <= k <= 4 && n == SensorNum(c, k)
  }

  predicate OwnTable(table: Table, c: nat)
    requires c < 16
  {
    forall t :: t in table ==> t.0 == 0 && Own(c, t.1)
  }

  /** Records describe registered sensors. */
  predicate OwnRecords(b: Board) {
    forall i :: 0 <= i < |b.repo.entries| ==> SelfDescribed(b.repo.entries[i]) && (0, b.repo.entries[i].sensNum) in b.table
  }

  /** The last packet says what its note says, and the note says what the sensor says. */
  predicate NoteOk(b: Board, m: Note) {
    && PacketOk(LastSent(b), m.num, m.value) && Known(b, m.num)
    && (0, m.num) in b.table && b.table[(0, m.num)].value == m.value
    && (m.add ==> m.value == 0) && (Temperature(m.num) && !m.add ==> m.value != 0)
  }

  /** The temperature sensors of the two line cards that draw readings. */
  predicate Temperature(n: u8) {
    n == 17 || n == 33
  }

  predicate CardInv(x: Card, c: nat)
    requires c < 16
  {
    && x.board.repo.card == c && AllSized(x.board.repo.entries) && OwnTable(x.board.table, c)
    && (c > 0 ==> OwnRecords(x.board))
    && (x.last.Some? ==> c > 0 && NoteOk(x.board, x.last.value))
  }

  lemma OwnOne(c: nat, c': nat, n: u8)
    requires c < 16 && c' < 16 && Own(c, n) && Own(c', n)
    ensures c == c'
  {
  }

  /** What a registration does to the board. */
  lemma RegisterFacts(b: Board, k: nat)
    requires b.repo.card < 16 && 1 <= k <= 4
    ensures var r, n, es := Registered(b, k), SensorNum(b.repo.card, k), b.repo.entries;
            && r.repo.card == b.repo.card
            && (0, n) in r.table && r.table == b.table[(0, n) := r.table[(0, n)]] && r.table[(0, n)].value == 0
            && (if b.repo.nextFreeEntryId < b.repo.maxSdrCount then
                  |r.repo.entries| == |es| + 1 && r.repo.entries == es + [r.repo.entries[|es|]]
                  && SelfDescribed(r.repo.entries[|es|]) && r.repo.entries[|es|].sensNum == n
                else r.repo == b.repo && r.outbox == b.outbox)
            && (b.repo.card > 0 && b.repo.nextFreeEntryId < b.repo.maxSdrCount ==> PacketOk(LastSent(r), n, 0))
  {
    hide LocalRecord, Body, IdString, AddSdrRequest, PacketOk, SensorNum, SelfDescribed;
    StartRecordDescribed(b.repo, k);
    BodyMakeable(b.repo.card, k);
    if b.repo.card > 0 && b.repo.nextFreeEntryId < b.repo.maxSdrCount {
      RegisterSends(b, k);
    }
  }

  /** What a visit does to the board. */
  lemma VisitFacts(b: Board, l: u8, n: u8, rnd: nat)
    requires Visitable(b, l, n) && (l, n) in b.table
    ensures var r := Visit(b, l, n, rnd);
            && r.repo.card == b.repo.card && AllSized(r.repo.entries) && SameRecords(b.repo.entries, r.repo.entries)
            && (l, n) in r.table && r.table == b.table[(l, n) := r.table[(l, n)]] && r.table[(l, n)].value == r.value
            && (Temperature(n) ==> r.value != 0)
    ensures forall num: u8 :: (l, num) != (0, n) && num != n ==> Lookup(Visit(b, l, n, rnd).repo, num) == Lookup(b.repo, num)
    ensures l == 0 && b.repo.card > 0 && OwnRecords(b) ==> PacketOk(LastSent(Visit(b, l, n, rnd)), n, Visit(b, l, n, rnd).value)
  {
    hide PushRequest, PacketOk, Simulated, SelfDescribed, Own;
    VisitKeeps(b, l, n, rnd);
    SimulatedRange(n, rnd, b.value);
    var es, i := b.repo.entries, First(b.repo.entries, l, n, 0);
    if l == 0 && b.repo.card > 0 && OwnRecords(b) {
      VisitSends(b, n, rnd);
    }
    forall num: u8 | num != n
      ensures Lookup(Visit(b, l, n, rnd).repo, num) == Lookup(b.repo, num)
    {
      SameFirst(es, i, Simulated(n, rnd, b.value), 0, num);
    }
  }

  lemma RegisterInv(x: Card, c: nat, k: nat)
    requires c < 16 && CardInv(x, c) && Registers(x, k)
    ensures CardInv(CardStep(x, Register(c, k)), c)
  {
    hide Registered, PacketOk, SensorNum;
    RegisterFacts(x.board, k);
    RegisterKnown(x, c, k);
    assert Own(c, SensorNum(c, k));
  }

  /** A registration with room makes its own sensor known, and on any card leaves every other
      sensor's record where it was. */
  lemma RegisterKnown(x: Card, c: nat, k: nat)
    requires c < 16 && CardInv(x, c) && Registers(x, k)
    ensures var b, r, n := x.board, Registered(x.board, k), SensorNum(c, k);
            && (c > 0 ==> !Known(b, n))
            && (c > 0 ==> forall num: u8 :: Known(r, num) <==> Known(b, num) || (num == n && Sends(x, Register(c, k))))
            && (forall num: u8 :: num != n ==> Lookup(r.repo, num) == Lookup(b.repo, num))
  {
    hide Registered, PacketOk, SensorNum, SelfDescribed;
    RegisterFacts(x.board, k);
    var b, r, n, es := x.board, Registered(x.board, k), SensorNum(c, k), x.board.repo.entries;
    if b.repo.nextFreeEntryId < b.repo.maxSdrCount {
      var e := r.repo.entries[|es|];
      Described(e);
      forall num: u8
        ensures First(es + [e], 0, num, 0) == if First(es, 0, num, 0) < |es| || e.sensNum == num then First(es, 0, num, 0) else |es| + 1
      {
        FirstAppended(es, e, 0, num);
      }
    }
  }

  lemma Described(e: Record)
    requires SelfDescribed(e)
    ensures e.lun == 0 && |e.data| == RECORD_BYTES
  {
  }

  lemma VisitInv(x: Card, c: nat, l: u8, n: u8, rnd: nat)
    requires c < 16 && CardInv(x, c) && Visitable(x.board, l, n) && (l, n) in x.board.table
    ensures l == 0 && Own(c, n) && CardInv(CardStep(x, VisitOne(c, l, n, rnd)), c)
    ensures forall num: u8 :: Known(Visit(x.board, l, n, rnd), num) <==> Known(x.board, num)
  {
    hide Visit, PacketOk, Own;
    assert (l, n).1 == n && (l, n).0 == l;
    VisitFacts(x.board, l, n, rnd);
    var b, r := x.board, Visit(x.board, l, n, rnd);
    forall num: u8
      ensures Known(r, num) <==> Known(b, num)
    {
      SameRecordsFirst(b.repo.entries, r.repo.entries, 0, num);
    }
    if c > 0 {
      StillOwnRecords(b, r);
    }
  }

  lemma StillOwnRecords(b: Board, r: Board)
    requires OwnRecords(b) && SameRecords(b.repo.entries, r.repo.entries) && r.table.Keys == b.table.Keys
    ensures OwnRecords(r)
  {
    forall i | 0 <= i < |r.repo.entries|
      ensures SelfDescribed(r.repo.entries[i]) && (0, r.repo.entries[i].sensNum) in r.table
    {
      assert SelfDescribed(b.repo.entries[i]) && (0, b.repo.entries[i].sensNum) in b.table;
    }
  }

  /** Every step of a card keeps its invariant. */
  lemma CardStepInv(x: Card, c: nat, e: Event)
    requires c < 16 && CardInv(x, c) && Formed(e) && e.c == c
    ensures CardInv(CardStep(x, e), c)
  {
    hide Registered, Visit, PacketOk, Own, SensorNum, Visitable;
    match e {
      case Register(_, k) =>
        if Registers(x, k) {
          RegisterInv(x, c, k);
        }
      case BeginPoll(_) =>
      case VisitOne(_, l, n, rnd) =>
        if Visitable(x.board, l, n) {
          if (l, n) in x.board.table {
            VisitInv(x, c, l, n, rnd);
          } else {
            VisitNothing(x.board, l, n, rnd);
          }
        }
      case Arrive(_) =>
    }
  }

  lemma VisitNothing(b: Board, l: u8, n: u8, rnd: nat)
    requires Visitable(b, l, n) && (l, n) !in b.table
    ensures Visit(b, l, n, rnd) == b
  {
  }

  // ---------- the chassis ----------

  /** A packet of a line card arrives at the controller, or a card does something itself. */
  function Step(s: seq<Card>, e: Event): (s': seq<Card>)
    requires |s| == CARDS && Formed(e) && s[e.c].board.repo.card < 16
    ensures |s'| == CARDS
  {
    var s1 := s[e.c := CardStep(s[e.c], e)];
    if e.Arrive? && s[e.c].last.Some? then
      s1[0 := s1[0].(board := s1[0].board.(repo := Handled(s[0].board.repo, LastSent(s[e.c].board))))]
    else s1
  }

  predicate Inv(s: seq<Card>) {
    |s| == CARDS && forall c :: 0 <= c < CARDS ==> CardInv(s[c], c)
  }

  /** What the controller shows for a sensor. */
  function Display(s: seq<Card>, n: u8): Option<u8>
    requires |s| == CARDS
  {
    Lookup(s[0].board.repo, n)
  }

  lemma HandledKeeps(x: Card, pkt: seq<u8>)
    requires CardInv(x, 0)
    ensures CardInv(x.(board := x.board.(repo := Handled(x.board.repo, pkt))), 0)
  {
    hide PayloadOf, Le16;
  }

  lemma StepInv(s: seq<Card>, e: Event)
    requires Inv(s) && Formed(e)
    ensures Inv(Step(s, e))
  {
    hide CardInv, CardStep, Handled;
    InvCard(s, e.c);
    CardStepInv(s[e.c], e.c, e);
    if e.Arrive? {
      HandledKeeps(s[0], LastSent(s[e.c].board));
    }
  }

  lemma InvCard(s: seq<Card>, c: nat)
    requires Inv(s) && c < CARDS
    ensures |s| == CARDS && s[c].board.repo.card == c && CardInv(s[c], c)
  {
  }

  /** Card c's last packet is about sensor n. */
  predicate About(x: Card, n: u8) {
    x.last.Some? && x.last.value.num == n
  }

  /** The value shown for a line card's sensor moves only when a packet about it arrives. */
  lemma StepDisplays(s: seq<Card>, e: Event, c: nat, n: u8)
    requires Inv(s) && Formed(e) && 0 < c < CARDS && Own(c, n)
    ensures Display(Step(s, e), n) ==
            if e == Arrive(c) && About(s[c], n) then Shown(Display(s, n), [s[c].last.value.value]) else Display(s, n)
  {
    hide Registered, Visit, PacketOk, Own, SensorNum, Visitable, Handled, Lookup, Shown;
    var x := s[e.c];
    InvCard(s, e.c);
    match e {
      case Register(_, k) =>
        if e.c == 0 && Registers(x, k) {
          RegisterKnown(x, 0, k);
          IsOwn(0, k);
          NotShared(c, n, SensorNum(0, k));
        }
      case BeginPoll(_) =>
      case VisitOne(_, l, m, rnd) =>
        if e.c == 0 && Visitable(x.board, l, m) {
          if (l, m) in x.board.table {
            VisitInv(x, 0, l, m, rnd);
            VisitFacts(x.board, l, m, rnd);
            NotShared(c, n, m);
          } else {
            VisitNothing(x.board, l, m, rnd);
          }
        }
      case Arrive(_) =>
        if x.last.Some? {
          var m := x.last.value;
          HandledShows(s[0].board.repo, LastSent(x.board), m.num, m.value, n);
          assert (0, m.num).1 == m.num && Own(e.c, (0, m.num).1);
          if m.num == n {
            OwnOne(c, e.c, n);
          }
        }
    }
  }

  lemma IsOwn(c: nat, k: nat)
    requires c < 16 && 1 <= k <= 4
    ensures Own(c, SensorNum(c, k))
  {
  }

  lemma NotShared(c: nat, n: u8, m: u8)
    requires 0 < c < 16 && Own(c, n) && Own(0, m)
    ensures n != m
  {
  }

  // ---------- runs ----------

  predicate AllFormed(evs: seq<Event>) {
    forall e :: e in evs ==> Formed(e)
  }

  function Run(s: seq<Card>, evs: seq<Event>): (s': seq<Card>)
    requires Inv(s) && AllFormed(evs)
    ensures Inv(s')
    decreases |evs|
  {
    if evs == [] then s
    else
      assert evs[0] in evs;
      StepInv(s, evs[0]);
      Run(Step(s, evs[0]), evs[1..])
  }

  /** The values for sensor n that arrive from card c over a run, in order. */
  function Values(s: seq<Card>, evs: seq<Event>, c: nat, n: u8): seq<u8>
    requires Inv(s) && AllFormed(evs) && c < CARDS
    decreases |evs|
  {
    if evs == [] then []
    else
      assert evs[0] in evs;
      StepInv(s, evs[0]);
      (if evs[0] == Arrive(c) && About(s[c], n) then [s[c].last.value.value] else []) + Values(Step(s, evs[0]), evs[1..], c, n)
  }

  /** Over every run, whatever interleaves and however often each packet arrives, what the
      controller shows for a line card's sensor is what the arrivals about it make of it. */
  lemma {:induction false} ControllerShows(s: seq<Card>, evs: seq<Event>, c: nat, n: u8)
    requires Inv(s) && AllFormed(evs) && 0 < c < CARDS && Own(c, n)
    ensures Display(Run(s, evs), n) == Shown(Display(s, n), Values(s, evs, c, n))
    decreases |evs|
  {
    hide Step, Display, Shown, Own, Inv, CardInv;
    InvCard(s, c);
    if evs == [] {
      ShownNothing(Display(s, n));
    } else {
      assert evs[0] in evs;
      InvCard(s, evs[0].c);
      var s1 := Step(s, evs[0]);
      StepInv(s, evs[0]);
      StepDisplays(s, evs[0], c, n);
      ControllerShows(s1, evs[1..], c, n);
      var hit, rest := evs[0] == Arrive(c) && About(s[c], n), Values(s1, evs[1..], c, n);
      assert Values(s, evs, c, n) == if hit then [s[c].last.value.value] + rest else rest;
      if hit {
        ShownConcat(Display(s, n), s[c].last.value.value, rest);
      }
    }
  }

  /** A retried push that reaches the controller n times is n arrivals of the run. */
  lemma {:induction false} ArrivalsHandled(s: seq<Card>, c: nat, n: nat)
    requires Inv(s) && 0 < c < CARDS && s[c].last.Some?
    ensures AllFormed(seq(n, _ => Arrive(c)))
    ensures Run(s, seq(n, _ => Arrive(c)))[0].board.repo == HandledTimes(s[0].board.repo, LastSent(s[c].board), n)
    decreases n
  {
    hide CardInv, Handled, Inv;
    var evs := seq(n, _ => Arrive(c));
    if n > 0 {
      InvCard(s, c);
      StepInv(s, Arrive(c));
      assert evs[0] == Arrive(c) && evs[1..] == seq(n - 1, _ => Arrive(c));
      ArrivalsHandled(Step(s, Arrive(c)), c, n - 1);
    }
  }

  // ---------- runs as the program goes ----------

  /** A card goes on sending only after its last packet arrived; for `all` false that is asked
      of adds only, which the program retries until answered or else stops. */
  predicate Polite(s: seq<Card>, e: Event, all: bool)
    requires |s| == CARDS && Formed(e)
  {
    Sends(s[e.c], e) ==> s[e.c].last.None? || s[e.c].last.value.heard || (!all && !s[e.c].last.value.add)
  }

  predicate PoliteRun(s: seq<Card>, evs: seq<Event>, all: bool)
    requires Inv(s) && AllFormed(evs)
    decreases |evs|
  {
    if evs == [] then true
    else
      assert evs[0] in evs;
      StepInv(s, evs[0]);
      Polite(s, evs[0], all) && PoliteRun(Step(s, evs[0]), evs[1..], all)
  }

  /** Card c's sensor n has a record, and its add has arrived. */
  predicate Settled(x: Card, n: u8) {
    Known(x.board, n) && !(About(x, n) && x.last.value.add && !x.last.value.heard)
  }

  /** The controller shows v for a settled sensor, and nothing for another. */
  predicate Shows(s: seq<Card>, c: nat, n: u8, v: u8)
    requires |s| == CARDS && c < CARDS
  {
    Display(s, n) == (if Settled(s[c], n) then Some(v) else None) && (!Settled(s[c], n) ==> v == 0)
  }

  /** What a card's own step changes of a sensor being settled: nothing, except that the
      arrival of its packet settles it. */
  lemma StepSettles(s: seq<Card>, e: Event, c: nat, n: u8, all: bool)
    requires Inv(s) && Formed(e) && 0 < c < CARDS && Polite(s, e, all)
    ensures Settled(Step(s, e)[c], n) <==> Settled(s[c], n) || (e == Arrive(c) && About(s[c], n))
  {
    hide Registered, Visit, PacketOk, Own, SensorNum, Visitable, Handled, Lookup, Known;
    var x := s[c];
    InvCard(s, c);
    if e.c == c {
      match e {
        case Register(_, k) =>
          if Registers(x, k) {
            RegisterKnown(x, c, k);
          }
        case BeginPoll(_) =>
          SameKnown(x.board, x.board.(value := 0), n);
        case VisitOne(_, l, m, rnd) =>
          if Visitable(x.board, l, m) {
            if (l, m) in x.board.table {
              VisitInv(x, c, l, m, rnd);
            } else {
              VisitNothing(x.board, l, m, rnd);
            }
          }
        case Arrive(_) =>
      }
    }
  }

  lemma SameKnown(b: Board, b': Board, n: u8)
    requires b'.repo == b.repo
    ensures Known(b', n) == Known(b, n)
  {
  }

  lemma StepShows(s: seq<Card>, e: Event, c: nat, n: u8, v: u8, all: bool)
    requires Inv(s) && Formed(e) && 0 < c < CARDS && Own(c, n) && Polite(s, e, all) && Shows(s, c, n, v)
    ensures Shows(Step(s, e), c, n,
                  if e == Arrive(c) && About(s[c], n) && s[c].last.value.value != 0 then s[c].last.value.value else v)
  {
    hide Step, Display, Own, CardStep, PacketOk, Sends;
    StepDisplays(s, e, c, n);
    StepSettles(s, e, c, n, all);
    if e == Arrive(c) && About(s[c], n) {
      InvCard(s, c);
      ShownOne(Display(s, n), s[c].last.value.value);
    }
  }

  lemma ShownOne(o: Option<u8>, v: u8)
    ensures Shown(o, [v]) == if v == 0 then (if o.None? then Some(0) else o) else (if o.None? then None else Some(v))
  {
    assert [v][1..] == [];
    ShownNothing(if v == 0 then (if o.None? then Some(0) else o) else (if o.None? then None else Some(v)));
  }

  lemma {:induction false} RunShows(s: seq<Card>, evs: seq<Event>, c: nat, n: u8, v: u8, all: bool)
    requires Inv(s) && AllFormed(evs) && 0 < c < CARDS && Own(c, n) && PoliteRun(s, evs, all) && Shows(s, c, n, v)
    ensures Shows(Run(s, evs), c, n, LastNonZero(Values(s, evs, c, n), v))
    decreases |evs|
  {
    hide Step, Own, Inv, CardInv, Shows, Polite;
    if evs != [] {
      assert evs[0] in evs;
      InvCard(s, evs[0].c);
      var s1, hit := Step(s, evs[0]), evs[0] == Arrive(c) && About(s[c], n);
      StepInv(s, evs[0]);
      StepShows(s, evs[0], c, n, v, all);
      RunShows(s1, evs[1..], c, n, if hit && s[c].last.value.value != 0 then s[c].last.value.value else v, all);
      var rest := Values(s1, evs[1..], c, n);
      assert Values(s, evs, c, n) == if hit then [s[c].last.value.value] + rest else rest;
      if hit {
        LastNonZeroCons(Values(s, evs, c, n), v);
      }
    }
  }

  /** All cards before start-up. */
  predicate PowerOn(s: seq<Card>) {
    |s| == CARDS
    && forall c :: 0 <= c < CARDS ==> Blank(s[c].board) && s[c].board.repo.card == c && s[c].board.value == 0 && s[c].last.None?
  }

  lemma PowerOnInv(s: seq<Card>)
    requires PowerOn(s)
    ensures Inv(s)
    ensures forall c, n :: 0 < c < CARDS && Own(c, n) ==> Shows(s, c, n, 0)
  {
    hide Own;
  }

  /** The controller mirrors the cards: from power-on, over every run, for every sensor of
      every line card, once its add has arrived it shows the last non-zero reading that
      arrived, zero if there was none, and before that it shows nothing. */
  lemma ControllerMirrors(s: seq<Card>, evs: seq<Event>, c: nat, k: nat)
    requires PowerOn(s) && Inv(s) && AllFormed(evs) && PoliteRun(s, evs, false) && 0 < c < CARDS && 1 <= k <= 4
    ensures var n := SensorNum(c, k);
            Display(Run(s, evs), n) ==
            if Settled(Run(s, evs)[c], n) then Some(LastNonZero(Values(s, evs, c, n), 0)) else None
  {
    hide Run, Values, SensorNum, PoliteRun, Inv;
    PowerOnInv(s);
    IsOwn(c, k);
    RunShows(s, evs, c, SensorNum(c, k), 0, false);
  }

  // ---------- when every push arrives ----------

  /** The controller shows the card's own value for sensor n, unless its packet is still under
      way, or the value is zero and so travelled as an add; temperatures are never zero. */
  predicate InStep(s: seq<Card>, c: nat, n: u8)
    requires |s| == CARDS && c < CARDS
  {
    var x := s[c];
    Settled(x, n) && !(About(x, n) && !x.last.value.heard) && (0, n) in x.board.table
    && (Temperature(n) || x.board.table[(0, n)].value != 0)
    ==> Display(s, n) == Some(x.board.table[(0, n)].value)
  }

  lemma StepInStep(s: seq<Card>, e: Event, c: nat, n: u8, v: u8)
    requires Inv(s) && Formed(e) && 0 < c < CARDS && Own(c, n) && Polite(s, e, true) && Shows(s, c, n, v) && InStep(s, c, n)
    ensures InStep(Step(s, e), c, n)
  {
    hide Display, Own, PacketOk, Registered, Visit, Visitable, SensorNum, Handled, Known;
    StepDisplays(s, e, c, n);
    StepSettles(s, e, c, n, true);
    InvCard(s, c);
    var x := s[c];
    if e.c == c {
      match e {
        case Register(_, k) =>
          if Registers(x, k) {
            RegisterFacts(x.board, k);
            RegisterKnown(x, c, k);
          }
        case BeginPoll(_) =>
        case VisitOne(_, l, m, rnd) =>
          if Visitable(x.board, l, m) {
            if (l, m) in x.board.table {
              VisitInv(x, c, l, m, rnd);
              VisitFacts(x.board, l, m, rnd);
            } else {
              VisitNothing(x.board, l, m, rnd);
            }
          }
        case Arrive(_) =>
          if About(x, n) {
            ShownOne(Display(s, n), x.last.value.value);
          }
      }
    }
  }

  lemma {:induction false} RunInStep(s: seq<Card>, evs: seq<Event>, c: nat, n: u8, v: u8)
    requires Inv(s) && AllFormed(evs) && 0 < c < CARDS && Own(c, n) && PoliteRun(s, evs, true)
    requires Shows(s, c, n, v) && InStep(s, c, n)
    ensures InStep(Run(s, evs), c, n)
    decreases |evs|
  {
    hide Step, Own, Inv, CardInv, Shows, Polite, InStep;
    if evs != [] {
      var e := evs[0];
      assert e in evs;
      InvCard(s, e.c);
      StepInv(s, e);
      StepInStep(s, e, c, n, v);
      StepShows(s, e, c, n, v, true);
      RunInStep(Step(s, e), evs[1..], c, n,
                if e == Arrive(c) && About(s[c], n) && s[c].last.value.value != 0 then s[c].last.value.value else v);
    }
  }

  /** From power-on, over every run in which each packet arrives before its card sends the
      next, the controller is in step with every sensor of every line card; the temperature
      sensors are mirrored exactly. */
  lemma ControllerInStep(s: seq<Card>, evs: seq<Event>, c: nat, k: nat)
    requires PowerOn(s) && Inv(s) && AllFormed(evs) && PoliteRun(s, evs, true) && 0 < c < CARDS && 1 <= k <= 4
    ensures InStep(Run(s, evs), c, SensorNum(c, k))
  {
    hide Run, SensorNum, PoliteRun, Inv;
    PowerOnInv(s);
    IsOwn(c, k);
    BlankInStep(s, c, SensorNum(c, k));
    RunInStep(s, evs, c, SensorNum(c, k), 0);
  }

  lemma BlankInStep(s: seq<Card>, c: nat, n: u8)
    requires PowerOn(s) && c < CARDS
    ensures InStep(s, c, n)
  {
  }

  // ---------- a whole poll ----------

  /** A line card's own events in a run. */
  function Mine(evs: seq<Event>, c: nat): seq<Event> {
    if evs == [] then [] else (if evs[0].c == c && !evs[0].Arrive? then [evs[0]] else []) + Mine(evs[1..], c)
  }

  function BoardAfter(b: Board, evs: seq<Event>): (r: Board)
    requires b.repo.card < 16 && AllFormed(evs)
    ensures r.repo.card == b.repo.card
    decreases |evs|
  {
    if evs == [] then b
    else
      assert evs[0] in evs;
      SameCard(b, evs[0]);
      BoardAfter(CardStep(Card(b, None), evs[0]).board, evs[1..])
  }

  lemma SameCard(b: Board, e: Event)
    requires b.repo.card < 16 && Formed(e)
    ensures CardStep(Card(b, None), e).board.repo.card == b.repo.card
  {
    hide LocalRecord, PushRequest, AddSdrRequest, Simulated;
  }

  lemma MineFormed(evs: seq<Event>, c: nat)
    requires AllFormed(evs)
    ensures AllFormed(Mine(evs, c))
  {
    if evs != [] {
      assert evs[0] in evs;
      MineFormed(evs[1..], c);
    }
  }

  /** A line card's board depends on its own events only. */
  lemma {:induction false} BoardIsOwn(s: seq<Card>, evs: seq<Event>, c: nat)
    requires Inv(s) && AllFormed(evs) && 0 < c < CARDS
    ensures AllFormed(Mine(evs, c)) && s[c].board.repo.card < 16
    ensures Run(s, evs)[c].board == BoardAfter(s[c].board, Mine(evs, c))
    decreases |evs|
  {
    hide Inv, CardInv, Registered, Visit, Handled, Visitable;
    MineFormed(evs, c);
    InvCard(s, c);
    if evs != [] {
      assert evs[0] in evs;
      InvCard(s, evs[0].c);
      StepInv(s, evs[0]);
      BoardIsOwn(Step(s, evs[0]), evs[1..], c);
      if evs[0].c == c && !evs[0].Arrive? {
        assert Mine(evs, c)[0] == evs[0] && Mine(evs, c)[1..] == Mine(evs[1..], c);
      } else {
        assert Mine(evs, c) == Mine(evs[1..], c);
      }
    }
  }

  /** The events of a poll from step k on. */
  function PollEvents(c: nat, rnd: nat -> nat, k: nat): (evs: seq<Event>)
    requires c < CARDS && k <= 4 * SENSORS_PER_LUN
    ensures AllFormed(evs)
    decreases 4 * SENSORS_PER_LUN - k
  {
    if k == 4 * SENSORS_PER_LUN then []
    else
      LunInRange(k);
      [VisitOne(c, LunAt(k), NumAt(k), rnd(k))] + PollEvents(c, rnd, k + 1)
  }

  lemma VisitIsStep(b: Board, c: nat, rnd: nat -> nat, k: nat)
    requires PollOk(b) && b.repo.card < 16 && c < CARDS && k < 4 * SENSORS_PER_LUN
    ensures LunAt(k) < 4
    ensures CardStep(Card(Polled(b, rnd, k), None), VisitOne(c, LunAt(k), NumAt(k), rnd(k))).board == Polled(b, rnd, k + 1)
  {
    hide Visit, PollOk, LunAt, NumAt;
    LunInRange(k);
    AllVisitable(Polled(b, rnd, k), LunAt(k), NumAt(k));
  }

  /** The visits of a poll, one by one, are the poll. */
  lemma {:induction false} PollIsRun(b: Board, c: nat, rnd: nat -> nat, k: nat)
    requires PollOk(b) && b.repo.card < 16 && c < CARDS && k <= 4 * SENSORS_PER_LUN
    ensures BoardAfter(Polled(b, rnd, k), PollEvents(c, rnd, k)) == Polled(b, rnd, 4 * SENSORS_PER_LUN)
    decreases 4 * SENSORS_PER_LUN - k
  {
    hide Polled, CardStep, LunAt, NumAt, PollOk;
    if k < 4 * SENSORS_PER_LUN {
      VisitIsStep(b, c, rnd, k);
      PollIsRun(b, c, rnd, k + 1);
      var evs := PollEvents(c, rnd, k);
      assert evs[0] == VisitOne(c, LunAt(k), NumAt(k), rnd(k)) && evs[1..] == PollEvents(c, rnd, k + 1);
    }
  }

  /** A line card's whole poll, from the state BeginPoll left, interleaved with anything the
      other cards do, each packet arriving before the card's next: at its end the controller
      shows every value the poll drew, unless it is zero, and every temperature. */
  lemma PollMirrored(s: seq<Card>, evs: seq<Event>, c: nat, n: u8, v: u8, rnd: nat -> nat)
    requires Inv(s) && AllFormed(evs) && 0 < c < CARDS && Own(c, n) && PoliteRun(s, evs, true) && Shows(s, c, n, v) && InStep(s, c, n)
    requires s[c].board.repo.card < 16 && PollOk(s[c].board) && Mine(evs, c) == PollEvents(c, rnd, 0)
    requires var x := Run(s, evs)[c]; (0, n) in x.board.table && Settled(x, n) && (x.last.None? || x.last.value.heard)
    ensures var r := Polled(s[c].board, rnd, 4 * SENSORS_PER_LUN);
            (0, n) in r.table
            && (Temperature(n) || r.table[(0, n)].value != 0 ==> Display(Run(s, evs), n) == Some(r.table[(0, n)].value))
  {
    hide Run, Polled, Inv, PoliteRun, Shows, Own, Settled, PollOk, Display, PollEvents, Mine, BoardAfter, AllFormed;
    InvCard(s, c);
    BoardIsOwn(s, evs, c);
    PolledFromStart(s[c].board, rnd);
    PollIsRun(s[c].board, c, rnd, 0);
    RunInStep(s, evs, c, n, v);
  }

  lemma PolledFromStart(b: Board, rnd: nat -> nat)
    requires PollOk(b)
    ensures Polled(b, rnd, 0) == b
  {
  }

  // ---------- what a card sends ----------

  /** The message numbers a client in this context puts on its next request. */
  predicate NumberedBy(pkt: seq<u8>, c: Ctx) {
    && IsAdd(pkt)
    && Arrived(pkt).message.rqSeq == c.rqSeq % 64 && Arrived(pkt).session.seqNum == c.sessionSeq && Arrived(pkt).session.sid == c.sessionId
  }

  /** A line card's step either sends nothing and leaves its context alone, or sends one packet
      numbered by the context and moves both numbers on by one. */
  lemma StepSends(x: Card, c: nat, e: Event)
    requires 0 < c < CARDS && CardInv(x, c) && Formed(e) && e.c == c
    ensures var b, b' := x.board, CardStep(x, e).board;
            if Sends(x, e) then
              && |b'.outbox| == |b.outbox| + 1 && b'.outbox[..|b.outbox|] == b.outbox && NumberedBy(LastSent(b'), b.ctx)
              && b'.ctx == b.ctx.(rqSeq := (b.ctx.rqSeq + 1) % 0x100, sessionSeq := (b.ctx.sessionSeq + 1) % 0x1_0000_0000)
            else b'.outbox == b.outbox && b'.ctx == b.ctx
  {
    hide PushRequest, AddSdrRequest, Simulated, LocalRecord, Body, IdString, IsAdd, SelfDescribed, Own, PacketOk;
    var b := x.board;
    match e {
      case Register(_, k) =>
        if Sends(x, e) {
          StartRecordDescribed(b.repo, k);
          BodyMakeable(b.repo.card, k);
          NumbersPush(b.ctx, LocalRecord(b.repo, Body(b.repo.card, k), IdString(b.repo.card, k)), 0);
        }
      case VisitOne(_, l, n, rnd) =>
        if Sends(x, e) {
          VisitInv(x, c, l, n, rnd);
          NumbersPush(b.ctx, b.repo.entries[First(b.repo.entries, l, n, 0)], Simulated(n, rnd, b.value));
        }
      case _ =>
    }
  }

  lemma NumbersPush(c: Ctx, e: Record, v: u8)
    requires SelfDescribed(e)
    ensures NumberedBy(PushRequest(c, e.data, v), c)
    ensures e.data[46] == v ==> NumberedBy(AddSdrRequest(c, e.data), c)
  {
    hide PushRequest, AddSdrRequest;
    PushArrives(c, e.data, v);
    PushPacketOk(c, e, v);
  }

  // ---------- the cards that draw nothing ----------

  /** A card whose sensors are all numbered above 36 and read zero. */
  predicate Quiet(x: Card) {
    x.board.value == 0 && forall t :: t in x.board.table ==> t.1 > 36 && x.board.table[t].value == 0
  }

  lemma StepQuiet(s: seq<Card>, e: Event, c: nat)
    requires Inv(s) && Formed(e) && 3 <= c < CARDS && Quiet(s[c])
    ensures Quiet(Step(s, e)[c])
  {
    hide Registered, Visit, PacketOk, Own, Visitable, Handled, Known;
    InvCard(s, c);
    var x := s[c];
    if e.c == c {
      match e {
        case Register(_, k) =>
          if Registers(x, k) {
            RegisterFacts(x.board, k);
            RegisterValue(x.board, k);
          }
        case BeginPoll(_) =>
        case VisitOne(_, l, n, rnd) =>
          if Visitable(x.board, l, n) {
            if (l, n) in x.board.table {
              VisitFacts(x.board, l, n, rnd);
              VisitQuiet(x.board, l, n, rnd, l, n);
            } else {
              VisitNothing(x.board, l, n, rnd);
            }
          }
        case Arrive(_) =>
      }
    }
  }

  lemma RegisterValue(b: Board, k: nat)
    requires b.repo.card < 16 && 1 <= k <= 4
    ensures Registered(b, k).value == b.value
  {
  }

  lemma {:induction false} QuietValues(s: seq<Card>, evs: seq<Event>, c: nat, n: u8)
    requires Inv(s) && AllFormed(evs) && 3 <= c < CARDS && Quiet(s[c])
    ensures forall j :: 0 <= j < |Values(s, evs, c, n)| ==> Values(s, evs, c, n)[j] == 0
    decreases |evs|
  {
    hide Step, Inv, CardInv, PacketOk, Known;
    if evs != [] {
      assert evs[0] in evs;
      InvCard(s, evs[0].c);
      StepInv(s, evs[0]);
      StepQuiet(s, evs[0], c);
      QuietValues(Step(s, evs[0]), evs[1..], c, n);
      if About(s[c], n) {
        NoteIsValue(s, c);
      }
    }
  }

  lemma NoteIsValue(s: seq<Card>, c: nat)
    requires Inv(s) && c < CARDS && s[c].last.Some?
    ensures var m := s[c].last.value; (0, m.num) in s[c].board.table && s[c].board.table[(0, m.num)].value == m.value
  {
    hide PacketOk, Known;
    InvCard(s, c);
  }

  lemma {:induction false} NoNonZero(vs: seq<u8>)
    requires forall j :: 0 <= j < |vs| ==> vs[j] == 0
    ensures LastNonZero(vs, 0) == 0
    decreases |vs|
  {
    if vs != [] {
      NoNonZero(vs[..|vs| - 1]);
    }
  }

  /** Cards 3 and up have sensor numbers above 36, for which no reading is simulated: the
      controller shows zero for them for ever. */
  lemma QuietCards(s: seq<Card>, evs: seq<Event>, c: nat, k: nat)
    requires PowerOn(s) && Inv(s) && AllFormed(evs) && PoliteRun(s, evs, false) && 3 <= c < CARDS && 1 <= k <= 4
    ensures Display(Run(s, evs), SensorNum(c, k)) == if Settled(Run(s, evs)[c], SensorNum(c, k)) then Some(0) else None
  {
    hide Run, Values, PoliteRun, Inv, SensorNum;
    ControllerMirrors(s, evs, c, k);
    QuietValues(s, evs, c, SensorNum(c, k));
    NoNonZero(Values(s, evs, c, SensorNum(c, k)));
  }
}
