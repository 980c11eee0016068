/** Delivery and read receipts (`services/read_receipt_service.cpp` over
    `repositories/pg_read_receipt_repository.cpp`) and each participant's last-read marker. */
module ReadReceipts {
  import opened Options
  import opened Ids

  datatype MsgId = MsgId(n: int)
  datatype Message = Message(room: Room, sender: User)
  datatype Receipt = Sent | Delivered | Read
  datatype Slot = Slot(m: MsgId, u: User)
  datatype Seat = Seat(room: Room, u: User)

  /** `seats` has one entry for each participant row, with its last-read marker. */
  datatype State = State(messages: map<MsgId, Message>, seats: map<Seat, Option<int>>, receipts: map<Slot, Receipt>)

  datatype Event =
    | Sends(m: MsgId, room: Room, sender: User)
    | Joins(room: Room, u: User)
    | Quits(room: Room, u: User)
    | MarksDelivered(u: User, m: MsgId)
    | MarksRead(u: User, room: Room, upTo: int)

  function Rank(r: Receipt): (k: nat) {
    match r
    case Sent => 0
    case Delivered => 1
    case Read => 2
  }

  /** The upsert: a new row, or the stored state unless the new one ranks higher. */
  function Upsert(receipts: map<Slot, Receipt>, slot: Slot, r: Receipt): (result: map<Slot, Receipt>) {
    if slot !in receipts || Rank(r) > Rank(receipts[slot]) then receipts[slot := r] else receipts
  }

  /** The messages a `mark_read` call covers: those of the conversation up to the id, but the reader's own. */
  predicate Covers(messages: map<MsgId, Message>, u: User, room: Room, upTo: int, m: MsgId) {
    m in messages && messages[m].room == room && m.n <= upTo && messages[m].sender != u
  }

  function MarkAll(s: State, u: User, room: Room, upTo: int): (receipts: map<Slot, Receipt>) {
    s.receipts + map m | m in s.messages && Covers(s.messages, u, room, upTo, m) :: Slot(m, u) := Read
  }

  /** GREATEST(COALESCE(marker, 0), n). */
  function Advance(marker: Option<int>, n: int): (v: int) {
    var reached := if marker.Some? then marker.value else 0;
    if reached < n then n else reached
  }

  predicate Accepts(s: State, e: Event) {
    match e
    case MarksDelivered(u, m) => m in s.messages && Seat(s.messages[m].room, u) in s.seats
    case MarksRead(u, room, _) => Seat(room, u) in s.seats
    case Sends(m, _, _) => m !in s.messages
    case _ => true
  }

  function Step(s: State, e: Event): (r: State) {
    if !Accepts(s, e) then s
    else
      match e
      case Sends(m, room, sender) => s.(messages := s.messages[m := Message(room, sender)])
      case Joins(room, u) => if Seat(room, u) in s.seats then s else s.(seats := s.seats[Seat(room, u) := None])
      case Quits(room, u) => s.(seats := s.seats - {Seat(room, u)})
      case MarksDelivered(u, m) => s.(receipts := Upsert(s.receipts, Slot(m, u), Delivered))
      case MarksRead(u, room, upTo) =>
        s.(receipts := MarkAll(s, u, room, upTo),
           seats := s.seats[Seat(room, u) := Some(Advance(s.seats[Seat(room, u)], upTo))])
  }

  function Run(s: State, events: seq<Event>): (r: State)
    decreases events
  {
    if events == [] then s else Run(Step(s, events[0]), events[1..])
  }

  const START := State(map[], map[], map[])

  // ----- The service -----

  datatype Outcome = Done | NotFound

  class ReadReceiptService {
    var messages: map<MsgId, Message>
    var seats: map<Seat, Option<int>>
    var receipts: map<Slot, Receipt>

    ghost function Tables(): (s: State)
      reads this
    {
      State(messages, seats, receipts)
    }

    constructor (messages: map<MsgId, Message>, seats: map<Seat, Option<int>>)
      ensures Tables() == State(messages, seats, map[])
    {
      this.messages, this.seats, receipts := messages, seats, map[];
    }

    method MarkDelivered(actor: User, m: MsgId) returns (out: Outcome)
      modifies this`receipts
      ensures Tables() == Step(old(Tables()), MarksDelivered(actor, m))
      ensures out.Done? <==> Accepts(old(Tables()), MarksDelivered(actor, m))
    {
      if m !in messages {
        return NotFound;
      }
      if Seat(messages[m].room, actor) !in seats {
        return NotFound;
      }
      receipts := Upsert(receipts, Slot(m, actor), Delivered);
      return Done;
    }

    method MarkRead(actor: User, room: Room, upTo: int) returns (out: Outcome)
      modifies this`receipts, this`seats
      ensures Tables() == Step(old(Tables()), MarksRead(actor, room, upTo))
      ensures out.Done? <==> Accepts(old(Tables()), MarksRead(actor, room, upTo))
    {
      if Seat(room, actor) !in seats {
        return NotFound;
      }
      receipts := receipts + map m | m in messages && Covers(messages, actor, room, upTo, m) :: Slot(m, actor) := Read;
      seats := seats[Seat(room, actor) := Some(Advance(seats[Seat(room, actor)], upTo))];
      return Done;
    }
  }

  // ----- Receipts are the highest rank applied -----

  /** How far a receipt has come: 0 with no row, then sent, delivered, read. */
  function Level(receipts: map<Slot, Receipt>, slot: Slot): (k: nat) {
    if slot in receipts then Rank(receipts[slot]) + 1 else 0
  }

  /** What one call asks for this message and user, whatever is stored: 0 when it is refused or does
      not concern them. */
  function Applied(s: State, e: Event, slot: Slot): (k: nat) {
    if !Accepts(s, e) then 0
    else
      match e
      case MarksDelivered(u, m) => if slot == Slot(m, u) then Rank(Delivered) + 1 else 0
      case MarksRead(u, room, upTo) =>
        if slot.u == u && Covers(s.messages, u, room, upTo, slot.m) then Rank(Read) + 1 else 0
      case _ => 0
  }

  function Max(a: int, b: int): (c: int) { if a < b then b else a }

  /** The highest level any call of the run asked for. */
  ghost function Highest(s: State, events: seq<Event>, slot: Slot): (k: int)
    decreases events
  {
    if events == [] then 0 else Max(Applied(s, events[0], slot), Highest(Step(s, events[0]), events[1..], slot))
  }

  lemma StepTakesMax(s: State, e: Event, slot: Slot)
    ensures Level(Step(s, e).receipts, slot) == Max(Level(s.receipts, slot), Applied(s, e, slot))
  {
    match e
    case MarksRead(u, room, upTo) =>
      if Accepts(s, e) {
        MarkAllAt(s, u, room, upTo, slot);
      }
    case _ =>
  }

  lemma MarkAllAt(s: State, u: User, room: Room, upTo: int, slot: Slot)
    ensures var r := MarkAll(s, u, room, upTo);
            if slot.u == u && Covers(s.messages, u, room, upTo, slot.m) then slot in r && r[slot] == Read
            else (slot in r <==> slot in s.receipts) && (slot in r ==> r[slot] == s.receipts[slot])
  {
    var more := map m | m in s.messages && Covers(s.messages, u, room, upTo, m) :: Slot(m, u) := Read;
    assert slot in more <==> slot.u == u && Covers(s.messages, u, room, upTo, slot.m) by {
      if slot.u == u && Covers(s.messages, u, room, upTo, slot.m) {
        assert Slot(slot.m, u) in more;
      }
    }
  }

  /** Over any run, in which messages arrive and people come and go, each receipt is the highest level
      it started from or was ever asked for. */
  lemma {:induction false} ReceiptsAreHighest(s: State, events: seq<Event>, slot: Slot)
    ensures Level(Run(s, events).receipts, slot) == Max(Level(s.receipts, slot), Highest(s, events, slot))
    decreases events
  {
    if events == [] {
    } else {
      hide Step, Level, Applied;
      StepTakesMax(s, events[0], slot);
      ReceiptsAreHighest(Step(s, events[0]), events[1..], slot);
    }
  }

  lemma {:induction false} HighestIsNatural(s: State, events: seq<Event>, slot: Slot)
    ensures Highest(s, events, slot) >= 0
    decreases events
  {
    if events == [] {
    } else {
      HighestIsNatural(Step(s, events[0]), events[1..], slot);
    }
  }

  /** Once marked read, a message stays read by that user for ever. */
  lemma ReadStaysRead(s: State, u: User, room: Room, upTo: int, after: seq<Event>, m: MsgId)
    requires Seat(room, u) in s.seats && Covers(s.messages, u, room, upTo, m)
    ensures var r := Run(Step(s, MarksRead(u, room, upTo)), after);
            Slot(m, u) in r.receipts && r.receipts[Slot(m, u)] == Read
  {
    var e := MarksRead(u, room, upTo);
    StepTakesMax(s, e, Slot(m, u));
    hide Step;
    ReceiptsAreHighest(Step(s, e), after, Slot(m, u));
  }

  // ----- Order does not matter -----

  predicate Marks(events: seq<Event>) {
    forall i :: 0 <= i < |events| ==> events[i].MarksDelivered? || events[i].MarksRead?
  }

  /** Mark calls leave the messages and the participants alone, and markers are never negative. */
  ghost predicate SameRooms(s: State, r: State) { r.messages == s.messages && r.seats.Keys == s.seats.Keys }

  ghost predicate MarkersOk(s: State) { forall x :: x in s.seats && s.seats[x].Some? ==> s.seats[x].value >= 0 }

  ghost predicate Asks(s: State, events: seq<Event>, slot: Slot, k: nat) {
    exists e :: e in events && Applied(s, e, slot) >= k
  }

  lemma SameRoomsSameCalls(s: State, r: State, e: Event, slot: Slot)
    requires SameRooms(s, r) && (e.MarksDelivered? || e.MarksRead?)
    ensures Accepts(s, e) == Accepts(r, e) && Applied(s, e, slot) == Applied(r, e, slot)
  {}

  lemma MarkKeepsRooms(s: State, e: Event)
    requires MarkersOk(s) && (e.MarksDelivered? || e.MarksRead?)
    ensures SameRooms(s, Step(s, e)) && MarkersOk(Step(s, e))
  {
    hide MarkAll, Upsert;
  }

  lemma {:induction false} MarksKeepRooms(s: State, events: seq<Event>)
    requires MarkersOk(s) && Marks(events)
    ensures SameRooms(s, Run(s, events)) && MarkersOk(Run(s, events))
    decreases events
  {
    if events == [] {
    } else {
      MarkKeepsRooms(s, events[0]);
      hide Step, MarkersOk;
      MarksKeepRooms(Step(s, events[0]), events[1..]);
    }
  }

  /** Among mark calls, the highest level reaches `k` exactly when some call asks for it: a statement
      about the set of calls, not their order. */
  lemma {:induction false} HighestIsAsked(s: State, events: seq<Event>, slot: Slot, k: nat)
    requires MarkersOk(s) && Marks(events) && k > 0
    ensures Highest(s, events, slot) >= k <==> Asks(s, events, slot, k)
    decreases events
  {
    if events == [] {
    } else {
      var e, rest := events[0], events[1..];
      MarkKeepsRooms(s, e);
      hide Step, MarkersOk;
      HighestIsAsked(Step(s, e), rest, slot, k);
      AskedBy(s, Step(s, e), events, slot, k);
    }
  }

  lemma AskedBy(s: State, r: State, events: seq<Event>, slot: Slot, k: nat)
    requires events != [] && Marks(events) && SameRooms(s, r)
    ensures Asks(s, events, slot, k) <==> Applied(s, events[0], slot) >= k || Asks(r, events[1..], slot, k)
  {
    var rest := events[1..];
    assert events == [events[0]] + rest;
    forall e | e in rest
      ensures Applied(s, e, slot) == Applied(r, e, slot)
    {
      var i :| 0 <= i < |rest| && rest[i] == e;
      assert events[i + 1] == e;
      SameRoomsSameCalls(s, r, e, slot);
    }
    hide Applied, SameRooms;
    if Asks(s, events, slot, k) {
      var e :| e in events && Applied(s, e, slot) >= k;
      assert e == events[0] || e in rest;
    }
  }

  ghost predicate SameCalls(es: seq<Event>, fs: seq<Event>) { forall e :: e in es <==> e in fs }

  lemma SameReceipt(s: State, es: seq<Event>, fs: seq<Event>, slot: Slot)
    requires MarkersOk(s) && Marks(es) && Marks(fs) && SameCalls(es, fs)
    ensures Level(Run(s, es).receipts, slot) == Level(Run(s, fs).receipts, slot)
  {
    ReceiptsAreHighest(s, es, slot);
    ReceiptsAreHighest(s, fs, slot);
    HighestIsNatural(s, es, slot);
    HighestIsNatural(s, fs, slot);
    var a, b := Highest(s, es, slot), Highest(s, fs, slot);
    hide Level, Highest, Run, Applied;
    if a > 0 {
      HighestIsAsked(s, es, slot, a);
      HighestIsAsked(s, fs, slot, a);
    }
    if b > 0 {
      HighestIsAsked(s, es, slot, b);
      HighestIsAsked(s, fs, slot, b);
    }
  }

  // ----- Markers -----

  /** Some `mark_read` call of this participant goes as far as `k`, counting from 0. */
  ghost predicate ReadsTo(events: seq<Event>, seat: Seat, k: int) {
    exists e :: e in events && e.MarksRead? && Seat(e.room, e.u) == seat && Max(0, e.upTo) >= k
  }

  predicate Reached(marker: Option<int>, k: int) { marker.Some? && marker.value >= k }

  lemma StepMarker(s: State, e: Event, seat: Seat, k: int)
    requires MarkersOk(s) && (e.MarksDelivered? || e.MarksRead?) && seat in s.seats
    ensures var r := Step(s, e);
            seat in r.seats && (Reached(r.seats[seat], k) <==> Reached(s.seats[seat], k) || ReadsTo([e], seat, k))
  {
    hide MarkAll, Upsert;
    assert e in [e];
  }

  /** A participant's marker has reached `k` exactly when it had, or some call in the run went that far. */
  lemma {:induction false} MarkerIsGreatest(s: State, events: seq<Event>, seat: Seat, k: int)
    requires MarkersOk(s) && Marks(events) && seat in s.seats
    ensures seat in Run(s, events).seats
    ensures Reached(Run(s, events).seats[seat], k) <==> Reached(s.seats[seat], k) || ReadsTo(events, seat, k)
    decreases events
  {
    if events == [] {
    } else {
      var e, rest := events[0], events[1..];
      assert events == [e] + rest;
      MarkKeepsRooms(s, e);
      StepMarker(s, e, seat, k);
      hide Step, MarkersOk, Reached;
      MarkerIsGreatest(Step(s, e), rest, seat, k);
    }
  }

  lemma SameMarker(s: State, es: seq<Event>, fs: seq<Event>, seat: Seat)
    requires MarkersOk(s) && Marks(es) && Marks(fs) && SameCalls(es, fs) && seat in s.seats
    ensures seat in Run(s, es).seats && seat in Run(s, fs).seats && Run(s, es).seats[seat] == Run(s, fs).seats[seat]
  {
    MarkerIsGreatest(s, es, seat, 0);
    MarkerIsGreatest(s, fs, seat, 0);
    var a, b := Run(s, es).seats[seat], Run(s, fs).seats[seat];
    if a.Some? {
      MarkerIsGreatest(s, es, seat, a.value);
      MarkerIsGreatest(s, fs, seat, a.value);
    }
    if b.Some? {
      MarkerIsGreatest(s, es, seat, b.value);
      MarkerIsGreatest(s, fs, seat, b.value);
    }
  }

  /** Over fixed messages and participants, runs of the same mark calls, reordered or repeated in any
      way, end in the same receipts and the same markers. */
  lemma MarksCommute(s: State, es: seq<Event>, fs: seq<Event>)
    requires MarkersOk(s) && Marks(es) && Marks(fs) && SameCalls(es, fs)
    ensures Run(s, es) == Run(s, fs)
  {
    var a, b := Run(s, es), Run(s, fs);
    MarksKeepRooms(s, es);
    MarksKeepRooms(s, fs);
    hide Run;
    forall slot
      ensures slot in a.receipts <==> slot in b.receipts
      ensures slot in a.receipts ==> a.receipts[slot] == b.receipts[slot]
    {
      SameReceipt(s, es, fs, slot);
    }
    assert a.receipts == b.receipts;
    forall seat | seat in s.seats
      ensures a.seats[seat] == b.seats[seat]
    {
      SameMarker(s, es, fs, seat);
    }
    assert a.seats == b.seats;
  }

  lemma {:induction false} ReachableMarkers(s: State, events: seq<Event>)
    requires MarkersOk(s)
    ensures MarkersOk(Run(s, events))
    decreases events
  {
    if events == [] {
    } else {
      assert MarkersOk(Step(s, events[0])) by { hide MarkAll, Upsert; }
      hide Step, MarkersOk;
      ReachableMarkers(Step(s, events[0]), events[1..]);
    }
  }

  /** So it is after every run, in which messages arrive and people come and go. */
  lemma MarksCommuteAnywhere(before: seq<Event>, es: seq<Event>, fs: seq<Event>)
    requires Marks(es) && Marks(fs) && SameCalls(es, fs)
    ensures Run(Run(START, before), es) == Run(Run(START, before), fs)
  {
    ReachableMarkers(START, before);
    MarksCommute(Run(START, before), es, fs);
  }

  // ----- Receipts read off the events alone -----

  /** The message that an id was first used for. */
  function MessageOf(events: seq<Event>, m: MsgId): (r: Option<Message>) {
    if events == [] then None
    else
      var before, e := MessageOf(events[..|events| - 1], m), events[|events| - 1];
      if before.None? && e.Sends? && e.m == m then Some(Message(e.room, e.sender)) else before
  }

  /** Whether a user is in a conversation: from when they join until they quit. */
  function Seated(events: seq<Event>, room: Room, u: User): (b: bool) {
    if events == [] then false
    else
      var e := events[|events| - 1];
      if e == Joins(room, u) then true
      else if e == Quits(room, u) then false
      else Seated(events[..|events| - 1], room, u)
  }

  /** The `i`th event marks a message read for a user: they are in the conversation, the message is in it, up
      to the given id, and somebody else's. */
  ghost predicate ReadCall(events: seq<Event>, i: int, m: MsgId, u: User) {
    && 0 <= i < |events| && events[i].MarksRead? && events[i].u == u
    && Seated(events[..i], events[i].room, u)
    && MessageOf(events[..i], m).Some? && MessageOf(events[..i], m).value.room == events[i].room
    && m.n <= events[i].upTo && MessageOf(events[..i], m).value.sender != u
  }

  /** The `i`th event marks a message delivered for a user in its conversation. */
  ghost predicate DeliveredCall(events: seq<Event>, i: int, m: MsgId, u: User) {
    && 0 <= i < |events| && events[i] == MarksDelivered(u, m)
    && MessageOf(events[..i], m).Some? && Seated(events[..i], MessageOf(events[..i], m).value.room, u)
  }

  lemma {:induction false} RunSnoc(s: State, events: seq<Event>)
    requires events != []
    ensures Run(s, events) == Step(Run(s, events[..|events| - 1]), events[|events| - 1])
    decreases events
  {
    var n := |events| - 1;
    if n == 0 {
      assert events[1..] == [] && events[..0] == [];
    } else {
      hide Step;
      RunSnoc(Step(s, events[0]), events[1..]);
      assert events[1..][..n - 1] == events[..n][1..];
    }
  }

  lemma TablesStep(s: State, e: Event, m: MsgId, room: Room, u: User)
    ensures var r := Step(s, e);
            && (m in r.messages <==> m in s.messages || (e.Sends? && e.m == m))
            && (m in r.messages ==>
                  r.messages[m] == if m in s.messages then s.messages[m] else Message(e.room, e.sender))
            && (Seat(room, u) in r.seats <==>
                e == Joins(room, u) || (e != Quits(room, u) && Seat(room, u) in s.seats))
  {
    hide MarkAll, Upsert, Covers;
  }

  /** In every run the messages and the participants are those that the events leave. */
  lemma {:induction false} TablesAreEvents(events: seq<Event>, m: MsgId, room: Room, u: User)
    ensures var s := Run(START, events);
            && (m in s.messages <==> MessageOf(events, m).Some?)
            && (m in s.messages ==> MessageOf(events, m) == Some(s.messages[m]))
            && (Seat(room, u) in s.seats <==> Seated(events, room, u))
  {
    if events == [] {
    } else {
      var n := |events| - 1;
      TablesAreEvents(events[..n], m, room, u);
      RunSnoc(START, events);
      hide Step, Run;
      TablesStep(Run(START, events[..n]), events[n], m, room, u);
    }
  }

  lemma AppliedIsCall(events: seq<Event>, m: MsgId, u: User)
    requires events != []
    ensures var n := |events| - 1;
            Applied(Run(START, events[..n]), events[n], Slot(m, u)) ==
            if ReadCall(events, n, m, u) then 3 else if DeliveredCall(events, n, m, u) then 2 else 0
  {
    var n := |events| - 1;
    var s, e := Run(START, events[..n]), events[n];
    TablesAreEvents(events[..n], m, Room(0), u);
    hide Run, MessageOf, Seated;
    match e
    case MarksRead(v, room, _) => TablesAreEvents(events[..n], m, room, u);
    case MarksDelivered(v, k) =>
      if k == m && m in s.messages {
        TablesAreEvents(events[..n], m, s.messages[m].room, u);
      }
    case _ =>
  }

  ghost predicate SomeRead(events: seq<Event>, m: MsgId, u: User) { exists i :: ReadCall(events, i, m, u) }

  ghost predicate SomeDelivered(events: seq<Event>, m: MsgId, u: User) { exists i :: DeliveredCall(events, i, m, u) }

  lemma SomeCallSnoc(events: seq<Event>, m: MsgId, u: User)
    requires events != []
    ensures var n := |events| - 1;
            && (SomeRead(events, m, u) <==> ReadCall(events, n, m, u) || SomeRead(events[..n], m, u))
            && (SomeDelivered(events, m, u) <==> DeliveredCall(events, n, m, u) || SomeDelivered(events[..n], m, u))
  {
    var n := |events| - 1;
    hide MessageOf, Seated;
    forall i | 0 <= i < n
      ensures ReadCall(events, i, m, u) <==> ReadCall(events[..n], i, m, u)
      ensures DeliveredCall(events, i, m, u) <==> DeliveredCall(events[..n], i, m, u)
    {
      assert events[..n][..i] == events[..i];
    }
  }

  lemma {:induction false} LevelIsCalls(events: seq<Event>, m: MsgId, u: User)
    ensures Level(Run(START, events).receipts, Slot(m, u)) ==
            if SomeRead(events, m, u) then 3 else if SomeDelivered(events, m, u) then 2 else 0
  {
    if events == [] {
    } else {
      var n := |events| - 1;
      LevelIsCalls(events[..n], m, u);
      RunSnoc(START, events);
      AppliedIsCall(events, m, u);
      SomeCallSnoc(events, m, u);
      hide Step, Run, Level, Applied, ReadCall, DeliveredCall, SomeRead, SomeDelivered;
      StepTakesMax(Run(START, events[..n]), events[n], Slot(m, u));
    }
  }

  /** In every run a message is read by a user exactly when some `mark_read` of theirs covered it, and has a
      receipt short of that exactly when only a `mark_delivered` was accepted, all by the events alone. */
  lemma ReceiptsAreCalls(events: seq<Event>, m: MsgId, u: User)
    ensures var r := Run(START, events).receipts;
            && (Slot(m, u) in r && r[Slot(m, u)] == Read <==> exists i :: ReadCall(events, i, m, u))
            && (Slot(m, u) in r && r[Slot(m, u)] == Delivered <==>
                (exists i :: DeliveredCall(events, i, m, u)) && !exists i :: ReadCall(events, i, m, u))
            && (Slot(m, u) in r ==> r[Slot(m, u)] != Sent)
  {
    LevelIsCalls(events, m, u);
    hide Run, ReadCall, DeliveredCall;
  }
}
