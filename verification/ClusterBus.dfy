/** The bus itself (`realtime/redis_cluster_bus.cpp`) and the bodies that travel on it: a message is
    a JSON object stamped with its origin; a receiver drops malformed messages and its own. */
module ClusterBus {
  import opened Options
  import opened Ids
  import opened Presence

  datatype Json =
    | Null
    | Bool(b: bool)
    | Int(n: int)
    | Str(s: string)
    | Arr(items: seq<Json>)
    | Obj(fields: map<string, Json>)

  const ORIGIN_KEY := "_node"
  const TRACE_KEY := "_traceparent"

  /** Envelope fields start with an underscore, payload fields do not. */
  predicate IsPayload(key: string) { key != "" && key[0] != '_' }

  // ----- Stamping and filtering -----

  /** `publish`: the origin, and the trace context when there is one. */
  function Stamp(body: map<string, Json>, node: Node, trace: Option<string>): (r: Json) {
    var stamped := body[ORIGIN_KEY := Str(node.id)];
    Obj(if trace.Some? then stamped[TRACE_KEY := Str(trace.value)] else stamped)
  }

  /** `deliver` up to the handler: `None` stands for text that does not parse. */
  function Accept(self: Node, message: Option<Json>): (r: Option<(Node, map<string, Json>)>) {
    if message.None? || !message.value.Obj? then None
    else
      var body := message.value.fields;
      var origin := if ORIGIN_KEY in body && body[ORIGIN_KEY].Str? then Node(body[ORIGIN_KEY].s) else Node("");
      if origin == self then None else Some((origin, body))
  }

  // ----- Bodies -----

  function UserBody(event: string, users: seq<User>, data: Json): (b: map<string, Json>) {
    map["event" := Str(event),
        "user_ids" := Arr(seq(|users|, i requires 0 <= i < |users| => Int(users[i].id))),
        "data" := data]
  }

  function RoomBody(event: string, room: Room, data: Json): (b: map<string, Json>) {
    map["event" := Str(event), "conversation_id" := Int(room.id), "data" := data]
  }

  function DeltaBody(d: Delta, atMs: int): (b: map<string, Json>) {
    map["user_id" := Int(d.user.id), "online" := Bool(d.online), "at_ms" := Int(atMs)]
  }

  function DataOf(b: map<string, Json>): (d: Json) { if "data" in b then b["data"] else Obj(map[]) }

  /** The handler of the user channel: the recipients, the event and its data, or nothing. */
  function ReadUserBody(b: map<string, Json>): (r: Option<(seq<User>, string, Json)>) {
    if "event" !in b || !b["event"].Str? || "user_ids" !in b || !b["user_ids"].Arr? then None
    else
      var items := b["user_ids"].items;
      if exists i :: 0 <= i < |items| && !items[i].Int? then None
      else Some((seq(|items|, i requires 0 <= i < |items| => User(items[i].n)), b["event"].s, DataOf(b)))
  }

  function ReadRoomBody(b: map<string, Json>): (r: Option<(Room, string, Json)>) {
    if "event" !in b || !b["event"].Str? || "conversation_id" !in b || !b["conversation_id"].Int? then None
    else Some((Room(b["conversation_id"].n), b["event"].s, DataOf(b)))
  }

  /** `PresenceDelta::from_json`: a field that is missing or of the wrong kind keeps its default. */
  function ReadDeltaBody(b: map<string, Json>): (d: Delta) {
    Delta(User(if "user_id" in b && b["user_id"].Int? then b["user_id"].n else 0),
          if "online" in b && b["online"].Bool? then b["online"].b else false)
  }

  // ----- What arrives is what was sent -----

  /** A node never hears its own messages, whatever they carry. */
  lemma OwnMessagesAreDropped(self: Node, body: map<string, Json>, trace: Option<string>)
    ensures Accept(self, Some(Stamp(body, self, trace))) == None
  {
    assert ORIGIN_KEY != TRACE_KEY;
  }

  /** Another node's message arrives under that node's name with every payload field as sent. */
  lemma OthersMessagesArrive(self: Node, from: Node, body: map<string, Json>, trace: Option<string>)
    requires self != from
    ensures var r := Accept(self, Some(Stamp(body, from, trace)));
            && r.Some? && r.value.0 == from
            && (forall k :: k in body && IsPayload(k) ==> k in r.value.1 && r.value.1[k] == body[k])
            && (trace.Some? ==> TRACE_KEY in r.value.1 && r.value.1[TRACE_KEY] == Str(trace.value))
  {
    assert ORIGIN_KEY != TRACE_KEY;
  }

  /** On every other node the handlers decode exactly what the publisher encoded. */
  lemma BodiesSurviveTheBus(self: Node, from: Node, trace: Option<string>, event: string, users: seq<User>, room: Room,
                            data: Json, d: Delta, atMs: int)
    requires self != from
    ensures var r := Accept(self, Some(Stamp(UserBody(event, users, data), from, trace)));
            r.Some? && ReadUserBody(r.value.1) == Some((users, event, data))
    ensures var r := Accept(self, Some(Stamp(RoomBody(event, room, data), from, trace)));
            r.Some? && ReadRoomBody(r.value.1) == Some((room, event, data))
    ensures var r := Accept(self, Some(Stamp(DeltaBody(d, atMs), from, trace)));
            && r.Some? && r.value.0 == from && ReadDeltaBody(r.value.1) == d
            && "at_ms" in r.value.1 && r.value.1["at_ms"] == Int(atMs)
  {
    hide Stamp, Accept, UserBody, RoomBody, DeltaBody, ReadUserBody, ReadRoomBody, ReadDeltaBody;
    UserBodyReads(self, from, trace, event, users, data);
    RoomBodyReads(self, from, trace, event, room, data);
    DeltaBodyReads(self, from, trace, d, atMs);
  }

  lemma RoomBodyReads(self: Node, from: Node, trace: Option<string>, event: string, room: Room, data: Json)
    requires self != from
    ensures var r := Accept(self, Some(Stamp(RoomBody(event, room, data), from, trace)));
            r.Some? && ReadRoomBody(r.value.1) == Some((room, event, data))
  {
    hide Stamp, Accept;
    OthersMessagesArrive(self, from, RoomBody(event, room, data), trace);
    var body := RoomBody(event, room, data);
    assert "event" in body && "conversation_id" in body && "data" in body;
  }

  lemma DeltaBodyReads(self: Node, from: Node, trace: Option<string>, d: Delta, atMs: int)
    requires self != from
    ensures var r := Accept(self, Some(Stamp(DeltaBody(d, atMs), from, trace)));
            && r.Some? && r.value.0 == from && ReadDeltaBody(r.value.1) == d
            && "at_ms" in r.value.1 && r.value.1["at_ms"] == Int(atMs)
  {
    hide Stamp, Accept;
    OthersMessagesArrive(self, from, DeltaBody(d, atMs), trace);
    var body := DeltaBody(d, atMs);
    assert "user_id" in body && "online" in body && "at_ms" in body;
  }

  lemma UserBodyReads(self: Node, from: Node, trace: Option<string>, event: string, users: seq<User>, data: Json)
    requires self != from
    ensures var r := Accept(self, Some(Stamp(UserBody(event, users, data), from, trace)));
            r.Some? && ReadUserBody(r.value.1) == Some((users, event, data))
  {
    OthersMessagesArrive(self, from, UserBody(event, users, data), trace);
    var b := Accept(self, Some(Stamp(UserBody(event, users, data), from, trace))).value.1;
    hide Stamp, Accept;
    var body := UserBody(event, users, data);
    assert "event" in body && "user_ids" in body && "data" in body;
    var items := b["user_ids"].items;
    assert |items| == |users| && forall i :: 0 <= i < |items| ==> items[i] == Int(users[i].id);
    assert ReadUserBody(b).value.0 == users;
  }

  /** A message that does not parse or is no object reaches no handler; an object does, whoever it is from,
      unless it names this node as its origin. */
  lemma AcceptIff(self: Node, message: Option<Json>)
    ensures Accept(self, message).Some? <==>
            && message.Some? && message.value.Obj?
            && (if ORIGIN_KEY in message.value.fields && message.value.fields[ORIGIN_KEY].Str?
                then message.value.fields[ORIGIN_KEY].s != self.id else self.id != "")
    ensures Accept(self, message).Some? ==> Accept(self, message).value.1 == message.value.fields
  {}

  /** A body is delivered exactly when its event is text and its recipients are integers, or its conversation
      is one; data that is missing is an empty object. A presence body is always read: as offline unless it
      says online, and as user 0 unless it names one. */
  lemma BodiesAreReadIff(b: map<string, Json>)
    ensures ReadUserBody(b).Some? <==>
            && "event" in b && b["event"].Str? && "user_ids" in b && b["user_ids"].Arr?
            && forall i :: 0 <= i < |b["user_ids"].items| ==> b["user_ids"].items[i].Int?
    ensures ReadRoomBody(b).Some? <==>
            "event" in b && b["event"].Str? && "conversation_id" in b && b["conversation_id"].Int?
    ensures ReadRoomBody(b).Some? && "data" !in b ==> ReadRoomBody(b).value.2 == Obj(map[])
    ensures ReadUserBody(b).Some? && "data" !in b ==> ReadUserBody(b).value.2 == Obj(map[])
    ensures ReadDeltaBody(b).online <==> "online" in b && b["online"] == Bool(true)
    ensures "user_id" !in b || !b["user_id"].Int? ==> ReadDeltaBody(b).user == User(0)
  {}
}
