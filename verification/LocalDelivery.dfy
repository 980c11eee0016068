/** The hub of one node (`realtime/connection_manager.cpp`): the loops that send a frame to each
    session of each recipient, encoded for the protocol version that session negotiated. */
module LocalDelivery {
  import opened Options
  import opened Ids
  import opened Registries
  import opened FanOut
  import opened ClusterBus

  datatype Payload = Payload(event: string, data: Json)

  /** A payload encoded for one protocol version. */
  datatype Frame = Frame(version: Version, payload: Payload)

  /** Encodes a payload at most once per protocol version, on first use. */
  class FrameCache {
    const payload: Payload
    var v1: Option<Frame>
    var v2: Option<Frame>
    var encodings: nat

    ghost predicate Valid()
      reads this
    {
      && (v1.Some? ==> v1.value == Frame(V1, payload))
      && (v2.Some? ==> v2.value == Frame(V2, payload))
      && encodings == (if v1.Some? then 1 else 0) + (if v2.Some? then 1 else 0)
    }

    constructor (payload: Payload)
      ensures Valid() && this.payload == payload && encodings == 0
    {
      this.payload := payload;
      v1, v2, encodings := None, None, 0;
    }

    method ForVersion(version: Version) returns (f: Frame)
      requires Valid()
      modifies this
      ensures Valid() && f == Frame(version, payload)
    {
      if version == V2 {
        if v2.None? {
          v2 := Some(Frame(V2, payload));
          encodings := encodings + 1;
        }
        return v2.value;
      }
      if v1.None? {
        v1 := Some(Frame(V1, payload));
        encodings := encodings + 1;
      }
      return v1.value;
    }
  }

  function Copies<T>(x: T, k: nat): (s: seq<T>)
    ensures |s| == k && forall i :: 0 <= i < k ==> s[i] == x
  {
    seq(k, _ => x)
  }

  /** What a connection is sent for a payload: its own protocol version of it. */
  function FrameFor(g: Registry, c: Conn, p: Payload): (f: Frame) {
    Frame(if c in g.byConn then g.byConn[c].version else V1, p)
  }

  lemma {:induction false} SendsToOneMore(g: Registry, users: seq<User>, u: User)
    ensures SendsToUsers(g, users + [u]) == SendsToUsers(g, users) + multiset(ConnsOf(g, u))
  {
    if users == [] {
      assert users + [u] == [u];
      assert SendsToUsers(g, [u][1..]) == multiset{};
    } else {
      assert (users + [u])[1..] == users[1..] + [u];
      SendsToOneMore(g, users[1..], u);
    }
  }

  type Streams = map<Conn, seq<Frame>>

  function Out(sent: Streams, c: Conn): (s: seq<Frame>) { if c in sent then sent[c] else [] }

  /** From `before` to `after`, every connection was sent its version of `p` `frames[c]` times. */
  ghost predicate SentMore(before: Streams, after: Streams, g: Registry, frames: multiset<Conn>, p: Payload) {
    forall c :: Out(after, c) == Out(before, c) + Copies(FrameFor(g, c, p), frames[c])
  }

  lemma SentNothing(sent: Streams, g: Registry, p: Payload)
    ensures SentMore(sent, sent, g, multiset{}, p)
  {}

  lemma CopiesInTurn<T>(s: seq<T>, x: T, n: nat, m: nat)
    ensures (s + Copies(x, n)) + Copies(x, m) == s + Copies(x, n + m)
  {}

  lemma SentInTurn(a: Streams, b: Streams, c: Streams, g: Registry, x: multiset<Conn>, y: multiset<Conn>, p: Payload)
    requires SentMore(a, b, g, x, p) && SentMore(b, c, g, y, p)
    ensures SentMore(a, c, g, x + y, p)
  {
    hide Out, FrameFor, Copies;
    forall d
      ensures Out(c, d) == Out(a, d) + Copies(FrameFor(g, d, p), (x + y)[d])
    {
      CopiesInTurn(Out(a, d), FrameFor(g, d, p), x[d], y[d]);
    }
  }

  /** The frames a connection is sent when a payload goes to the listed sessions, one after the other. */
  function FramesTo(list: seq<(Conn, Session)>, p: Payload, exclude: Option<Conn>, c: Conn): (fs: seq<Frame>) {
    if list == [] then []
    else
      var last := list[|list| - 1];
      FramesTo(list[..|list| - 1], p, exclude, c) +
      if last.0 == c && exclude != Some(c) then [Frame(last.1.version, p)] else []
  }

  ghost predicate AllSent(before: Streams, after: Streams, list: seq<(Conn, Session)>, p: Payload,
                          exclude: Option<Conn>) {
    forall c :: Out(after, c) == Out(before, c) + FramesTo(list, p, exclude, c)
  }

  lemma NoneSent(sent: Streams, p: Payload, exclude: Option<Conn>)
    ensures AllSent(sent, sent, [], p, exclude)
  {}

  lemma OneMoreSent(a: Streams, b: Streams, c: Streams, list: seq<(Conn, Session)>, k: nat, p: Payload,
                    exclude: Option<Conn>)
    requires k < |list| && AllSent(a, b, list[..k], p, exclude)
    requires exclude == Some(list[k].0) ==> c == b
    requires exclude != Some(list[k].0) ==>
               forall d :: Out(c, d) == if d == list[k].0 then Out(b, d) + [Frame(list[k].1.version, p)] else Out(b, d)
    ensures AllSent(a, c, list[..k + 1], p, exclude)
  {
    hide Out, FramesTo;
    forall d
      ensures Out(c, d) == Out(a, d) + FramesTo(list[..k + 1], p, exclude, d)
    {
      FramesToOneMore(list, k, p, exclude, d);
      assert Out(b, d) == Out(a, d) + FramesTo(list[..k], p, exclude, d);
    }
  }

  lemma FramesToOneMore(list: seq<(Conn, Session)>, k: nat, p: Payload, exclude: Option<Conn>, d: Conn)
    requires k < |list|
    ensures FramesTo(list[..k + 1], p, exclude, d) ==
            FramesTo(list[..k], p, exclude, d) +
            if list[k].0 == d && exclude != Some(d) then [Frame(list[k].1.version, p)] else []
  {
    assert list[..k + 1][..k] == list[..k];
  }

  lemma {:induction false} FramesToAbsent(list: seq<(Conn, Session)>, p: Payload, exclude: Option<Conn>, c: Conn)
    requires exclude == Some(c) || forall q :: q in list ==> q.0 != c
    ensures FramesTo(list, p, exclude, c) == []
  {
    if list == [] {
    } else {
      assert list == list[..|list| - 1] + [list[|list| - 1]];
      FramesToAbsent(list[..|list| - 1], p, exclude, c);
    }
  }

  /** On a list that names no connection twice, each listed one gets one frame of its own version. */
  lemma {:induction false} FramesToListed(list: seq<(Conn, Session)>, p: Payload, exclude: Option<Conn>,
                                          q: (Conn, Session))
    requires q in list && exclude != Some(q.0) && forall i, j :: 0 <= i < j < |list| ==> list[i].0 != list[j].0
    ensures FramesTo(list, p, exclude, q.0) == [Frame(q.1.version, p)]
  {
    var init, last := list[..|list| - 1], list[|list| - 1];
    assert list == init + [last];
    if q == last {
      FramesToAbsent(init, p, exclude, q.0);
    } else {
      FramesToListed(init, p, exclude, q);
    }
  }

  /** A list of exactly the sessions of some connections serves each of them once, but the excluded one. */
  lemma ListIsServed(before: Streams, after: Streams, g: Registry, list: seq<(Conn, Session)>, conns: set<Conn>,
                     p: Payload, exclude: Option<Conn>)
    requires AllSent(before, after, list, p, exclude) && conns <= g.byConn.Keys
    requires forall i, j :: 0 <= i < j < |list| ==> list[i].0 != list[j].0
    requires forall q :: q in list <==> q.0 in conns && g.byConn[q.0] == q.1
    ensures SentMore(before, after, g, multiset(conns - if exclude.Some? then {exclude.value} else {}), p)
  {
    hide Out, FramesTo;
    forall c
      ensures Out(after, c) == Out(before, c) +
                Copies(FrameFor(g, c, p), multiset(conns - if exclude.Some? then {exclude.value} else {})[c])
    {
      if c in conns && exclude != Some(c) {
        FramesToListed(list, p, exclude, (c, g.byConn[c]));
      } else {
        FramesToAbsent(list, p, exclude, c);
      }
    }
  }

  class ConnectionManager {
    const sessions: SessionManager
    const rooms: RoomManager
    /** Every frame sent so far, per connection and in order. */
    var sent: Streams
    /** Bodies handed to the bus so far; none without a bus. */
    var forwarded: seq<map<string, Json>>
    var clustered: bool

    ghost function Registry(): (g: FanOut.Registry)
      reads this, sessions, rooms
    {
      FanOut.Registry(sessions.byConn, sessions.byUser, rooms.rooms, rooms.membership)
    }

    constructor (clustered: bool)
      ensures sessions.Valid() && rooms.Valid() && fresh(sessions) && fresh(rooms)
      ensures sent == map[] && forwarded == [] && this.clustered == clustered
    {
      sessions := new SessionManager();
      rooms := new RoomManager();
      sent, forwarded := map[], [];
      this.clustered := clustered;
    }

    method SendRaw(c: Conn, f: Frame)
      modifies this`sent
      ensures forall d :: Out(sent, d) == if d == c then Out(old(sent), c) + [f] else Out(old(sent), d)
    {
      sent := sent[c := (if c in sent then sent[c] else []) + [f]];
    }

    /** One frame for each listed session but those of the excluded connection. */
    method SendToSessions(list: seq<(Conn, Session)>, p: Payload, exclude: Option<Conn>)
      modifies this`sent
      ensures AllSent(old(sent), sent, list, p, exclude)
    {
      var frames := new FrameCache(p);
      NoneSent(sent, p, exclude);
      hide AllSent;
      for k := 0 to |list|
        invariant frames.Valid() && fresh(frames) && frames.payload == p
        invariant AllSent(old(sent), sent, list[..k], p, exclude)
      {
        ghost var before := sent;
        if exclude != Some(list[k].0) {
          var f := frames.ForVersion(list[k].1.version);
          SendRaw(list[k].0, f);
        }
        OneMoreSent(old(sent), before, sent, list, k, p, exclude);
      }
      assert list[..|list|] == list;
    }

    method DeliverToUser(u: User, p: Payload)
      modifies this`sent
      ensures SentMore(old(sent), sent, Registry(), multiset(ConnsOf(Registry(), u)), p)
    {
      ghost var g := Registry();
      var list := sessions.SessionsForUser(u);
      SendToSessions(list, p, None);
      ListIsServed(old(sent), sent, g, list, ConnsOf(g, u), p, None);
      assert ConnsOf(g, u) - {} == ConnsOf(g, u);
    }

    /** Every connection is sent its version of the payload as many times as the registry says. */
    method DeliverLocal(users: seq<User>, p: Payload)
      modifies this`sent
      ensures SentMore(old(sent), sent, Registry(), Sends(Registry(), ToUsers(users), None), p)
    {
      hide SentMore, ConnsOf;
      ghost var g := Registry();
      SentNothing(sent, g, p);
      for k := 0 to |users|
        invariant SentMore(old(sent), sent, g, SendsToUsers(g, users[..k]), p)
      {
        ghost var now := sent;
        DeliverToUser(users[k], p);
        assert users[..k + 1] == users[..k] + [users[k]];
        SendsToOneMore(g, users[..k], users[k]);
        SentInTurn(old(sent), now, sent, g, SendsToUsers(g, users[..k]), multiset(ConnsOf(g, users[k])), p);
      }
      assert users[..|users|] == users;
    }

    method DeliverLocalToRoom(r: Room, p: Payload, exclude: Option<Conn>)
      modifies this`sent
      ensures SentMore(old(sent), sent, Registry(), Sends(Registry(), ToRoom(r), exclude), p)
    {
      ghost var g := Registry();
      var members := rooms.ConnectionsInRoom(r);
      var list := sessions.SessionsFor(members);
      SessionsAmongAre(g.byConn, members);
      SendToSessions(list, p, exclude);
      ListIsServed(old(sent), sent, g, list, ConnsIn(g, r), p, exclude);
    }

    /** Deliver here, then hand one body to the bus; the body decodes to the same recipients. */
    method Publish(users: seq<User>, p: Payload)
      modifies this`sent, this`forwarded
      ensures SentMore(old(sent), sent, Registry(), Sends(Registry(), ToUsers(users), None), p)
      ensures forwarded == if clustered then old(forwarded) + [UserBody(p.event, users, p.data)] else old(forwarded)
    {
      DeliverLocal(users, p);
      if clustered {
        forwarded := forwarded + [UserBody(p.event, users, p.data)];
      }
    }

    method BroadcastToRoom(r: Room, p: Payload, exclude: Option<Conn>)
      modifies this`sent, this`forwarded
      ensures SentMore(old(sent), sent, Registry(), Sends(Registry(), ToRoom(r), exclude), p)
      ensures forwarded == if clustered then old(forwarded) + [RoomBody(p.event, r, p.data)] else old(forwarded)
    {
      DeliverLocalToRoom(r, p, exclude);
      if clustered {
        forwarded := forwarded + [RoomBody(p.event, r, p.data)];
      }
    }

    /** The subscriber of the user channel: a well-formed body is delivered here only, anything else
        is ignored, and nothing goes back to the bus. */
    method OnUserMessage(b: map<string, Json>)
      modifies this`sent
      ensures forwarded == old(forwarded)
      ensures match ReadUserBody(b)
              case None => sent == old(sent)
              case Some((users, event, data)) =>
                SentMore(old(sent), sent, Registry(), Sends(Registry(), ToUsers(users), None), Payload(event, data))
    {
      match ReadUserBody(b)
      case None =>
      case Some((users, event, data)) => DeliverLocal(users, Payload(event, data));
    }

    /** The subscriber of the room channel; nobody is excluded, since only the origin's own connection
        can be, and nothing goes back to the bus. */
    method OnRoomMessage(b: map<string, Json>)
      modifies this`sent
      ensures forwarded == old(forwarded)
      ensures match ReadRoomBody(b)
              case None => sent == old(sent)
              case Some((room, event, data)) =>
                SentMore(old(sent), sent, Registry(), Sends(Registry(), ToRoom(room), None), Payload(event, data))
    {
      match ReadRoomBody(b)
      case None =>
      case Some((room, event, data)) => DeliverLocalToRoom(room, Payload(event, data), None);
    }

    /** Out of every room first, then out of the session indexes: afterwards the connection appears
        in no index, and no other connection's entries have changed. */
    method UnregisterSession(c: Conn) returns (s: Option<Session>)
      requires sessions.Valid() && rooms.Valid()
      modifies sessions, rooms
      ensures sessions.Valid() && rooms.Valid()
      ensures s == (if c in old(sessions.byConn) then Some(old(sessions.byConn)[c]) else None)
      ensures sessions.byConn == old(sessions.byConn) - {c} && rooms.membership == old(rooms.membership) - {c}
      ensures forall u :: At(sessions.byUser, u) == At(old(sessions.byUser), u) - {c}
      ensures forall r :: At(rooms.rooms, r) == At(old(rooms.rooms), r) - {c}
    {
      rooms.LeaveAll(c);
      s := sessions.Remove(c);
      forall u
        ensures At(sessions.byUser, u) == At(old(sessions.byUser), u) - {c}
      {
        assert c in At(old(sessions.byUser), u) <==> c in old(sessions.byConn) && old(sessions.byConn)[c].user == u;
      }
    }
  }
}
