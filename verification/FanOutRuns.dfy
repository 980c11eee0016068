/** Fan-out read off the events alone: who is registered and who is in which room after a run, and so who
    gets a message. */
module FanOutRuns {
  import opened Options
  import opened Ids
  import opened Registries
  import opened FanOut

  // ----- Who is registered and who has joined, by the events -----

  /** The session of a connection on a node: the one it was registered with while absent, until it is
      unregistered. */
  function SessionFrom(x: Option<Session>, events: seq<Event>, n: Node, c: Conn): (r: Option<Session>)
    decreases events
  {
    if events == [] then x
    else
      match events[0]
      case Registers(m, d, s) => SessionFrom(if m == n && d == c && x.None? then Some(s) else x, events[1..], n, c)
      case Unregisters(m, d) => SessionFrom(if m == n && d == c then None else x, events[1..], n, c)
      case _ => SessionFrom(x, events[1..], n, c)
  }

  /** Whether a connection is in a room of a node: from when it joins, alone or among many, until it leaves
      or is unregistered. */
  function JoinedFrom(b: bool, events: seq<Event>, n: Node, r: Room, c: Conn): (joined: bool)
    decreases events
  {
    if events == [] then b
    else
      match events[0]
      case Joins(m, q, d) => JoinedFrom(b || (m == n && q == r && d == c), events[1..], n, r, c)
      case JoinsMany(m, ids, d) => JoinedFrom(b || (m == n && r in ids && d == c), events[1..], n, r, c)
      case Leaves(m, q, d) => JoinedFrom(b && !(m == n && q == r && d == c), events[1..], n, r, c)
      case Unregisters(m, d) => JoinedFrom(b && !(m == n && d == c), events[1..], n, r, c)
      case _ => JoinedFrom(b, events[1..], n, r, c)
  }

  function SessionOf(events: seq<Event>, n: Node, c: Conn): (r: Option<Session>) { SessionFrom(None, events, n, c) }

  predicate Joined(events: seq<Event>, n: Node, r: Room, c: Conn) { JoinedFrom(false, events, n, r, c) }

  // ----- What each event does to a registry -----

  function Lookup(g: Registry, c: Conn): (r: Option<Session>) { if c in g.byConn then Some(g.byConn[c]) else None }

  predicate IsMember(g: Registry, r: Room, c: Conn) { r in At(g.membership, c) }

  /** Registering, joining, leaving and unregistering change the session and the rooms of their connection
      as the events say, and of no other. */
  lemma RegistryEffect(g: Registry, e: Event, c: Conn, r: Room)
    requires RegistryEvent(e)
    ensures Lookup(RegistryStep(g, e), c) == SessionFrom(Lookup(g, c), [e], e.n, c)
    ensures IsMember(RegistryStep(g, e), r, c) == JoinedFrom(IsMember(g, r, c), [e], e.n, r, c)
  {
    hide Insert, Erase, JoinAll;
    assert [e][1..] == [];
  }

  lemma EffectStep(s: Cluster, e: Event, n: Node, c: Conn, r: Room)
    requires Shaped(s) && n in s.nodes
    ensures Lookup(Step(s, e).nodes[n], c) == SessionFrom(Lookup(s.nodes[n], c), [e], n, c)
    ensures IsMember(Step(s, e).nodes[n], r, c) == JoinedFrom(IsMember(s.nodes[n], r, c), [e], n, r, c)
  {
    hide RegistryStep, Sends, Lookup, IsMember;
    assert [e][1..] == [];
    if RegistryEvent(e) && e.n == n {
      RegistryEffect(s.nodes[n], e, c, r);
    }
  }

  lemma EventsCons(x: Option<Session>, b: bool, e: Event, rest: seq<Event>, n: Node, r: Room, c: Conn)
    ensures SessionFrom(x, [e] + rest, n, c) == SessionFrom(SessionFrom(x, [e], n, c), rest, n, c)
    ensures JoinedFrom(b, [e] + rest, n, r, c) == JoinedFrom(JoinedFrom(b, [e], n, r, c), rest, n, r, c)
  {
    assert ([e] + rest)[1..] == rest && [e][1..] == [];
  }

  lemma {:induction false} EffectRun(s: Cluster, events: seq<Event>, n: Node, c: Conn, r: Room)
    requires Shaped(s) && n in s.nodes
    ensures Lookup(Run(s, events).nodes[n], c) == SessionFrom(Lookup(s.nodes[n], c), events, n, c)
    ensures IsMember(Run(s, events).nodes[n], r, c) == JoinedFrom(IsMember(s.nodes[n], r, c), events, n, r, c)
    decreases events
  {
    if events == [] {
    } else {
      hide Step, Lookup, IsMember;
      EffectStep(s, events[0], n, c, r);
      EffectRun(Step(s, events[0]), events[1..], n, c, r);
      assert events == [events[0]] + events[1..];
      hide SessionFrom, JoinedFrom;
      EventsCons(Lookup(s.nodes[n], c), IsMember(s.nodes[n], r, c), events[0], events[1..], n, r, c);
    }
  }

  /** In every run a node's indexes hold exactly the sessions and memberships that the events leave. */
  lemma RegistryIsEvents(ids: set<Node>, events: seq<Event>, n: Node, c: Conn, r: Room)
    requires n in ids
    ensures Lookup(Run(Start(ids), events).nodes[n], c) == SessionOf(events, n, c)
    ensures IsMember(Run(Start(ids), events).nodes[n], r, c) == Joined(events, n, r, c)
  {
    assert Lookup(Start(ids).nodes[n], c) == None && !IsMember(Start(ids).nodes[n], r, c);
    hide Start, SessionFrom, JoinedFrom, Lookup, IsMember;
    EffectRun(Start(ids), events, n, c, r);
  }

  // ----- Who gets a message -----

  /** What a connection is due, by its session and rooms. */
  lemma DueIs(g: Registry, u: User, r: Room, c: Conn)
    ensures Due(g, ToUsers([u]), c) == if Lookup(g, c).Some? && Lookup(g, c).value.user == u then 1 else 0
    ensures Due(g, ToRoom(r), c) == if Lookup(g, c).Some? && IsMember(g, r, c) then 1 else 0
  {}

  /** The connection stays registered, keeps the room, and nothing is lost on the way from `o` to `i`. */
  predicate Stays(events: seq<Event>, o: Node, i: Node, c: Conn) {
    forall j :: 0 <= j < |events| ==>
      events[j] != Unregisters(i, c) && !(events[j].Loses? && events[j].origin == o && events[j].to == i)
  }

  predicate KeepsRoom(events: seq<Event>, i: Node, r: Room, c: Conn) {
    forall j :: 0 <= j < |events| ==> events[j] != Leaves(i, r, c)
  }

  /** A message to `u`, or to `r`, that the connection is due. */
  predicate Wanted(t: Target, x: Option<Session>, joined: bool, u: User, r: Room) {
    x.Some? && ((t == ToUsers([u]) && x.value.user == u) || (t == ToRoom(r) && joined))
  }

  lemma {:induction false} StaysAttended(s: Cluster, events: seq<Event>, m: nat, i: Node, c: Conn, u: User, r: Room)
    requires Inv(s) && i in s.nodes && m < |s.published|
    requires Wanted(s.published[m].target, Lookup(s.nodes[i], c), IsMember(s.nodes[i], r, c), u, r)
    requires Stays(events, s.published[m].origin, i, c)
    requires s.published[m].target.ToRoom? ==> KeepsRoom(events, i, r, c)
    ensures Attended(s, events, m, i, c, 1)
    decreases events
  {
    hide Inv, Step, LosesIt, Due, Lookup, IsMember;
    DueIs(s.nodes[i], u, r, c);
    assert Shaped(s) by { InvIsShaped(s); }
    if events == [] {
    } else {
      var e, rest := events[0], events[1..];
      NotLost(s, e, m, i);
      assert Stays(rest, s.published[m].origin, i, c);
      assert s.published[m].target.ToRoom? ==> KeepsRoom(rest, i, r, c);
      hide Stays, KeepsRoom, Wanted;
      StillWanted(s, e, m, i, c, u, r);
      StepKeepsInv(s, e);
      StaysAttended(Step(s, e), rest, m, i, c, u, r);
    }
  }

  lemma InvIsShaped(s: Cluster)
    requires Inv(s)
    ensures Shaped(s)
  {}

  lemma NotLost(s: Cluster, e: Event, m: nat, i: Node)
    requires Inv(s) && i in s.nodes && m < |s.published|
    requires !(e.Loses? && e.origin == s.published[m].origin && e.to == i)
    ensures !LosesIt(s, e, m, i)
  {
    hide Consistent, LogOk;
    if e.Loses? && (e.origin, e.to) in s.wire {
      assert WireOk(s, e.origin, e.to, s.wire[(e.origin, e.to)]);
    }
  }

  lemma StillWanted(s: Cluster, e: Event, m: nat, i: Node, c: Conn, u: User, r: Room)
    requires Shaped(s) && i in s.nodes && m < |s.published|
    requires Wanted(s.published[m].target, Lookup(s.nodes[i], c), IsMember(s.nodes[i], r, c), u, r)
    requires e != Unregisters(i, c) && (s.published[m].target.ToRoom? ==> e != Leaves(i, r, c))
    ensures var z := Step(s, e);
            && m < |z.published| && z.published[m] == s.published[m]
            && Wanted(z.published[m].target, Lookup(z.nodes[i], c), IsMember(z.nodes[i], r, c), u, r)
  {
    EffectStep(s, e, i, c, r);
    assert [e][1..] == [];
    hide RegistryStep, Sends, Lookup, IsMember;
  }

  /** A connection that was registered for a user and not unregistered gets exactly one frame of a message
      to that user published on any node, once it is off the wire and if it was not lost there. */
  lemma RegisteredGetsOne(ids: set<Node>, before: seq<Event>, n: Node, u: User, exclude: Option<Conn>,
                          after: seq<Event>, i: Node, c: Conn)
    requires n in ids && i in ids && SessionOf(before, i, c).Some? && SessionOf(before, i, c).value.user == u
    requires Stays(after, n, i, c)
    ensures var s := Run(Start(ids), before);
            var f := Run(Step(s, Publishes(n, ToUsers([u]), exclude)), after);
            i == n || |s.published| !in f.wire[(n, i)] ==> Received(f.log, |s.published|, i, c) == 1
  {
    WantedGetsOne(ids, before, n, ToUsers([u]), exclude, after, i, c, u, Room(0));
  }

  /** So does one that joined a room and has not left it, of a message to that room, but for the excluded
      connection of the publishing node, which gets none. */
  lemma MemberGetsOne(ids: set<Node>, before: seq<Event>, n: Node, r: Room, exclude: Option<Conn>,
                      after: seq<Event>, i: Node, c: Conn)
    requires n in ids && i in ids && SessionOf(before, i, c).Some? && Joined(before, i, r, c)
    requires Stays(after, n, i, c) && KeepsRoom(after, i, r, c)
    ensures var s := Run(Start(ids), before);
            var f := Run(Step(s, Publishes(n, ToRoom(r), exclude)), after);
            i == n || |s.published| !in f.wire[(n, i)] ==>
              Received(f.log, |s.published|, i, c) == if i == n && exclude == Some(c) then 0 else 1
  {
    WantedGetsOne(ids, before, n, ToRoom(r), exclude, after, i, c, User(0), r);
  }

  lemma WantedGetsOne(ids: set<Node>, before: seq<Event>, n: Node, t: Target, exclude: Option<Conn>,
                      after: seq<Event>, i: Node, c: Conn, u: User, r: Room)
    requires n in ids && i in ids && Stays(after, n, i, c) && (t.ToRoom? ==> KeepsRoom(after, i, r, c))
    requires Wanted(t, SessionOf(before, i, c), Joined(before, i, r, c), u, r)
    ensures var s := Run(Start(ids), before);
            var f := Run(Step(s, Publishes(n, t, exclude)), after);
            i == n || |s.published| !in f.wire[(n, i)] ==>
              Received(f.log, |s.published|, i, c) == if i == n && t.ToRoom? && exclude == Some(c) then 0 else 1
  {
    var s := Run(Start(ids), before);
    RegistryIsEvents(ids, before, i, c, r);
    hide Start, Run, Received, SessionOf, Joined, Lookup, IsMember;
    DueIs(s.nodes[i], u, r, c);
    StartHasInv(ids);
    RunKeepsInv(Start(ids), before);
    if i != n {
      AttendedFromPublish(s, n, t, exclude, after, i, c, u, r);
    }
    hide Step, Inv, Attended, Due, Wanted, Stays, KeepsRoom;
    ExactlyOnce(ids, before, n, t, exclude, after, i, c, 1);
  }

  lemma AttendedFromPublish(s: Cluster, n: Node, t: Target, exclude: Option<Conn>, after: seq<Event>, i: Node, c: Conn,
                            u: User, r: Room)
    requires Inv(s) && n in s.nodes && i in s.nodes
    requires Wanted(t, Lookup(s.nodes[i], c), IsMember(s.nodes[i], r, c), u, r)
    requires Stays(after, n, i, c) && (t.ToRoom? ==> KeepsRoom(after, i, r, c))
    ensures Attended(Step(s, Publishes(n, t, exclude)), after, |s.published|, i, c, 1)
  {
    var z := Step(s, Publishes(n, t, exclude));
    StepKeepsInv(s, Publishes(n, t, exclude));
    assert z.published[|s.published|] == Message(n, t) && z.nodes == s.nodes;
    hide Inv, Step, Wanted, Stays, KeepsRoom, Lookup, IsMember;
    StaysAttended(z, after, |s.published|, i, c, u, r);
  }
}
