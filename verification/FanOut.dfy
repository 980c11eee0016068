/** Cluster-wide delivery (`realtime/connection_manager.cpp`, `realtime/redis_cluster_bus.cpp`): a
    publish delivers to this node's own connections and puts one message on the bus; every node the
    message reaches delivers it to its own connections, except the node it came from. The bus may
    lose messages. */
module FanOut {
  import opened Options
  import opened Ids
  import opened Registries
  import opened Sequences

  datatype Registry = Registry(byConn: ByConn, byUser: ByUser, rooms: Rooms, membership: Membership)

  ghost predicate Consistent(g: Registry) {
    Grouped(g.byConn, g.byUser) && Converse(g.rooms, g.membership)
  }

  datatype Target = ToUsers(users: seq<User>) | ToRoom(room: Room)

  // ----- Who gets a frame on one node -----

  /** The connections `sessions_for_user` and `sessions_for` find. */
  function ConnsOf(g: Registry, u: User): (s: set<Conn>) { set c | c in At(g.byUser, u) && c in g.byConn }

  function ConnsIn(g: Registry, r: Room): (s: set<Conn>) { set c | c in At(g.rooms, r) && c in g.byConn }

  /** `deliver_local`: one frame per session of each listed user, user after user. */
  function SendsToUsers(g: Registry, users: seq<User>): (m: multiset<Conn>) {
    if users == [] then multiset{} else multiset(ConnsOf(g, users[0])) + SendsToUsers(g, users[1..])
  }

  /** The frames one local delivery sends; only the originating node excludes a connection. */
  function Sends(g: Registry, t: Target, exclude: Option<Conn>): (m: multiset<Conn>) {
    match t
    case ToUsers(users) => SendsToUsers(g, users)
    case ToRoom(r) => multiset(ConnsIn(g, r) - (if exclude.Some? then {exclude.value} else {}))
  }

  /** How many frames a connection is due, read off its own session. */
  function Due(g: Registry, t: Target, c: Conn): (k: nat) {
    if c !in g.byConn then 0
    else match t
      case ToUsers(users) => multiset(users)[g.byConn[c].user]
      case ToRoom(r) => if r in At(g.membership, c) then 1 else 0
  }

  lemma {:induction false} SendsToUsersCount(g: Registry, users: seq<User>, c: Conn)
    requires Grouped(g.byConn, g.byUser)
    ensures SendsToUsers(g, users)[c] == Due(g, ToUsers(users), c)
  {
    if users == [] {
    } else {
      SendsToUsersCount(g, users[1..], c);
      assert users == [users[0]] + users[1..];
      assert c in At(g.byUser, users[0]) <==> c in g.byConn && g.byConn[c].user == users[0];
    }
  }

  /** The two-way indexes make the loop over users or room members count exactly by session. */
  lemma SendsAreDue(g: Registry, t: Target, exclude: Option<Conn>, c: Conn)
    requires Consistent(g)
    ensures Sends(g, t, exclude)[c] == if t.ToRoom? && exclude == Some(c) then 0 else Due(g, t, c)
  {
    match t
    case ToUsers(users) => SendsToUsersCount(g, users, c);
    case ToRoom(r) => assert c in At(g.rooms, r) <==> r in At(g.membership, c);
  }

  // ----- The cluster -----

  /** A message that was published: where, and for whom. */
  datatype Message = Message(origin: Node, target: Target)

  /** Frames one node sent for one message. */
  datatype Delivery = Delivery(m: nat, node: Node, frames: multiset<Conn>)

  /** `published` numbers every message, `wire` holds the numbers under way from one node to another,
      `log` every local delivery made so far. */
  datatype Cluster = Cluster(nodes: map<Node, Registry>, published: seq<Message>, wire: map<(Node, Node), seq<nat>>,
                             log: seq<Delivery>)

  datatype Event =
    | Registers(n: Node, c: Conn, s: Session)
    | Unregisters(n: Node, c: Conn)
    | Joins(n: Node, r: Room, c: Conn)
    | JoinsMany(n: Node, ids: seq<Room>, c: Conn)
    | Leaves(n: Node, r: Room, c: Conn)
    | Publishes(n: Node, t: Target, exclude: Option<Conn>)
    | Delivers(origin: Node, to: Node)
    | Loses(origin: Node, to: Node, k: nat)

  ghost predicate Shaped(s: Cluster) {
    forall a, b :: (a, b) in s.wire <==> a in s.nodes && b in s.nodes
  }

  function RegistryStep(g: Registry, e: Event): (r: Registry) {
    match e
    case Registers(_, c, s) =>
      if c in g.byConn then g
      else g.(byConn := g.byConn[c := s], byUser := Insert(g.byUser, s.user, c))
    case Unregisters(_, c) =>
      g.(rooms := (map r | r in g.rooms && g.rooms[r] != {c} :: g.rooms[r] - {c}),
         membership := g.membership - {c},
         byUser := if c in g.byConn then Erase(g.byUser, g.byConn[c].user, c) else g.byUser,
         byConn := g.byConn - {c})
    case Joins(_, r, c) => g.(rooms := Insert(g.rooms, r, c), membership := Insert(g.membership, c, r))
    case JoinsMany(_, ids, c) =>
      g.(rooms := JoinAll(g.rooms, ids, c),
         membership := g.membership[c := At(g.membership, c) + Elements(ids)])
    case Leaves(_, r, c) => g.(rooms := Erase(g.rooms, r, c), membership := Erase(g.membership, c, r))
    case _ => g
  }

  /** One event; an event that is not enabled changes nothing. */
  function Step(s: Cluster, e: Event): (r: Cluster)
    requires Shaped(s)
    ensures Shaped(r) && r.nodes.Keys == s.nodes.Keys
  {
    match e
    case Publishes(n, t, exclude) =>
      if n !in s.nodes then s
      else
        var m := |s.published|;
        s.(published := s.published + [Message(n, t)],
           wire := map w | w in s.wire :: if w.0 == n then s.wire[w] + [m] else s.wire[w],
           log := s.log + [Delivery(m, n, Sends(s.nodes[n], t, exclude))])
    case Delivers(origin, to) =>
      if (origin, to) !in s.wire || s.wire[(origin, to)] == [] then s
      else
        var m := s.wire[(origin, to)][0];
        var popped := s.(wire := s.wire[(origin, to) := s.wire[(origin, to)][1..]]);
        if origin == to || m >= |s.published| then popped  // its own broadcast: dropped by the bus
        else popped.(log := s.log + [Delivery(m, to, Sends(s.nodes[to], s.published[m].target, None))])
    case Loses(origin, to, k) =>
      if (origin, to) !in s.wire || k >= |s.wire[(origin, to)]| then s
      else s.(wire := s.wire[(origin, to) := Without(s.wire[(origin, to)], k)])
    case Registers(n, _, _) => if n !in s.nodes then s else s.(nodes := s.nodes[n := RegistryStep(s.nodes[n], e)])
    case Unregisters(n, _) => if n !in s.nodes then s else s.(nodes := s.nodes[n := RegistryStep(s.nodes[n], e)])
    case Joins(n, _, _) => if n !in s.nodes then s else s.(nodes := s.nodes[n := RegistryStep(s.nodes[n], e)])
    case JoinsMany(n, _, _) => if n !in s.nodes then s else s.(nodes := s.nodes[n := RegistryStep(s.nodes[n], e)])
    case Leaves(n, _, _) => if n !in s.nodes then s else s.(nodes := s.nodes[n := RegistryStep(s.nodes[n], e)])
  }

  function Run(s: Cluster, events: seq<Event>): (r: Cluster)
    requires Shaped(s)
    ensures Shaped(r) && r.nodes.Keys == s.nodes.Keys
    decreases events
  {
    if events == [] then s else Run(Step(s, events[0]), events[1..])
  }

  /** Frames of message `m` that a connection of a node has been sent. */
  function Received(log: seq<Delivery>, m: nat, n: Node, c: Conn): (k: nat) {
    if log == [] then 0
    else Received(log[..|log| - 1], m, n, c) +
         (var d := log[|log| - 1]; if d.m == m && d.node == n then d.frames[c] else 0)
  }

  ghost predicate Delivered(log: seq<Delivery>, m: nat, n: Node) {
    exists i :: 0 <= i < |log| && log[i].m == m && log[i].node == n
  }

  // ----- The invariant -----

  /** No number twice. */
  ghost predicate Distinct(w: seq<nat>) { forall i, j :: 0 <= i < j < |w| ==> w[i] != w[j] }

  /** On the wire from `a` to `b`: only messages of `a`, each once, none already delivered at `b`. */
  ghost predicate WireOk(s: Cluster, a: Node, b: Node, w: seq<nat>) {
    && Distinct(w)
    && (forall m :: m in w ==> m < |s.published| && s.published[m].origin == a)
    && (a != b ==> forall m :: m in w ==> !Delivered(s.log, m, b))
  }

  /** Each message is delivered at most once on each node, to sessions that were due. */
  ghost predicate LogOk(s: Cluster) {
    && (forall i :: 0 <= i < |s.log| ==> s.log[i].m < |s.published|)
    && (forall i, j :: 0 <= i < j < |s.log| ==> s.log[i].m != s.log[j].m || s.log[i].node != s.log[j].node)
    && (forall i, c :: 0 <= i < |s.log| && Single(s.published[s.log[i].m].target) ==> s.log[i].frames[c] <= 1)
  }

  /** Targets that name nobody twice. */
  ghost predicate Single(t: Target) {
    t.ToUsers? ==> forall u :: multiset(t.users)[u] <= 1
  }

  ghost predicate Inv(s: Cluster) {
    && Shaped(s)
    && (forall n :: n in s.nodes ==> Consistent(s.nodes[n]))
    && LogOk(s)
    && (forall a, b :: (a, b) in s.wire ==> WireOk(s, a, b, s.wire[(a, b)]))
  }

  // ----- Every event keeps the invariant -----

  lemma RegistryStepKeepsConsistent(g: Registry, e: Event)
    requires Consistent(g)
    ensures Consistent(RegistryStep(g, e))
  {
    hide Erase, Insert, Grouped, Converse, JoinAll;
    match e
    case Registers(_, c, s) =>
      AddKeepsGroupingIff(g.byConn, g.byUser, c, s);
    case Unregisters(_, c) =>
      if c in g.byConn {
        RemoveKeepsGrouping(g.byConn, g.byUser, c);
      } else {
        assert g.byConn - {c} == g.byConn;
      }
      UnregisterLeavesRooms(g, c);
    case Joins(_, r, c) => JoinKeepsConverse(g.rooms, g.membership, r, c);
    case JoinsMany(_, ids, c) => JoinsManyKeepsConverse(g, ids, c);
    case Leaves(_, r, c) => LeaveKeepsConverse(g.rooms, g.membership, r, c);
    case _ =>
  }

  lemma JoinsManyKeepsConverse(g: Registry, ids: seq<Room>, c: Conn)
    requires Converse(g.rooms, g.membership)
    ensures Converse(JoinAll(g.rooms, ids, c), g.membership[c := At(g.membership, c) + Elements(ids)])
  {
    JoinAllJoins(g.rooms, ids, c);
    hide JoinAll;
    JoinManyKeepsConverse(g.rooms, g.membership, JoinAll(g.rooms, ids, c), ids, c);
  }

  lemma UnregisterLeavesRooms(g: Registry, c: Conn)
    requires Converse(g.rooms, g.membership)
    ensures Converse((map r | r in g.rooms && g.rooms[r] != {c} :: g.rooms[r] - {c}), g.membership - {c})
  {
    var after := map r | r in g.rooms && g.rooms[r] != {c} :: g.rooms[r] - {c};
    forall r | r in after
      ensures after[r] != {}
    {
      assert g.rooms[r] != {} && g.rooms[r] != {c};
    }
    LeaveAllKeepsConverse(g.rooms, g.membership, after, c);
  }

  predicate RegistryEvent(e: Event) { e.Registers? || e.Unregisters? || e.Joins? || e.JoinsMany? || e.Leaves? }

  lemma RegistryEventKeepsInv(s: Cluster, e: Event)
    requires Inv(s) && RegistryEvent(e)
    ensures Inv(Step(s, e))
    ensures Step(s, e).log == s.log && Step(s, e).wire == s.wire && Step(s, e).published == s.published
  {
    hide Consistent, RegistryStep;
    if e.n in s.nodes {
      RegistryStepKeepsConsistent(s.nodes[e.n], e);
    }
    var r := Step(s, e);
    forall a, b | (a, b) in r.wire
      ensures WireOk(r, a, b, r.wire[(a, b)])
    {
      assert WireOk(s, a, b, s.wire[(a, b)]);
    }
  }

  lemma SinglesGetOne(g: Registry, t: Target, exclude: Option<Conn>, c: Conn)
    requires Consistent(g) && Single(t)
    ensures Sends(g, t, exclude)[c] <= 1
  {
    SendsAreDue(g, t, exclude, c);
  }

  /** Logging a delivery that was not made before. */
  lemma LogGrows(s: Cluster, r: Cluster, d: Delivery)
    requires LogOk(s) && s.published <= r.published && r.log == s.log + [d]
    requires d.m < |r.published| && !Delivered(s.log, d.m, d.node)
    requires Single(r.published[d.m].target) ==> forall c :: d.frames[c] <= 1
    ensures LogOk(r)
  {}

  lemma WireSurvives(s: Cluster, r: Cluster, d: Delivery, a: Node, b: Node, w: seq<nat>)
    requires WireOk(s, a, b, w) && s.published <= r.published && r.log == s.log + [d]
    requires a != b && b == d.node ==> d.m !in w
    ensures WireOk(r, a, b, w)
  {
    forall m | m in w && a != b
      ensures !Delivered(r.log, m, b)
    {
      DeliveredAfter(s.log, d, m, b);
    }
  }

  lemma DeliveredAfter(log: seq<Delivery>, d: Delivery, m: nat, b: Node)
    ensures Delivered(log + [d], m, b) <==> Delivered(log, m, b) || (d.m == m && d.node == b)
  {
    var after := log + [d];
    if Delivered(log, m, b) {
      var i :| 0 <= i < |log| && log[i].m == m && log[i].node == b;
      assert after[i] == log[i];
    }
    assert after[|log|] == d;
  }

  lemma WireGrows(s: Cluster, a: Node, b: Node, w: seq<nat>, m: nat)
    requires WireOk(s, a, b, w) && m < |s.published| && s.published[m].origin == a && m !in w
    requires a != b ==> !Delivered(s.log, m, b)
    ensures WireOk(s, a, b, w + [m])
  {}

  lemma WireShrinks(s: Cluster, a: Node, b: Node, w: seq<nat>, k: nat)
    requires WireOk(s, a, b, w) && k < |w|
    ensures WireOk(s, a, b, Without(w, k)) && w[k] !in Without(w, k)
  {
    var v := Without(w, k);
    forall i | 0 <= i < |v|
      ensures v[i] in w && v[i] != w[k]
    {
      assert v[i] == if i < k then w[i] else w[i + 1];
    }
  }

  lemma PublishKeepsInv(s: Cluster, n: Node, t: Target, exclude: Option<Conn>)
    requires Inv(s) && n in s.nodes
    ensures Inv(Step(s, Publishes(n, t, exclude)))
  {
    var r := Step(s, Publishes(n, t, exclude));
    var m, d := |s.published|, r.log[|s.log|];
    hide Consistent, WireOk, Sends, Single;
    NewMessageIsUndelivered(s, m);
    forall c | Single(t)
      ensures d.frames[c] <= 1
    {
      SinglesGetOne(s.nodes[n], t, exclude, c);
    }
    LogGrows(s, r, d);
    forall a, b | (a, b) in r.wire
      ensures WireOk(r, a, b, r.wire[(a, b)])
    {
      assert WireOk(s, a, b, s.wire[(a, b)]);
      NewMessageIsNotOnWire(s, a, b, s.wire[(a, b)]);
      WireSurvives(s, r, d, a, b, s.wire[(a, b)]);
      if a == n {
        DeliveredAfter(s.log, d, m, b);
        WireGrows(r, a, b, s.wire[(a, b)], m);
      }
    }
  }

  lemma NewMessageIsUndelivered(s: Cluster, m: nat)
    requires LogOk(s) && m >= |s.published|
    ensures forall b :: !Delivered(s.log, m, b)
  {}

  lemma NewMessageIsNotOnWire(s: Cluster, a: Node, b: Node, w: seq<nat>)
    requires WireOk(s, a, b, w)
    ensures |s.published| !in w
  {}

  lemma DeliverKeepsInv(s: Cluster, origin: Node, to: Node)
    requires Inv(s) && (origin, to) in s.wire && s.wire[(origin, to)] != []
    ensures Inv(Step(s, Delivers(origin, to)))
  {
    var r := Step(s, Delivers(origin, to));
    var w := s.wire[(origin, to)];
    var m := w[0];
    assert WireOk(s, origin, to, w);
    assert m in w;
    WireShrinks(s, origin, to, w, 0);
    assert Without(w, 0) == w[1..];
    if origin == to {
      forall a, b | (a, b) in r.wire
        ensures WireOk(r, a, b, r.wire[(a, b)])
      {
        assert WireOk(s, a, b, s.wire[(a, b)]);
      }
    } else {
      var d := Delivery(m, to, Sends(s.nodes[to], s.published[m].target, None));
      hide Consistent, Sends, Single;
      forall c | Single(s.published[m].target)
        ensures d.frames[c] <= 1
      {
        SinglesGetOne(s.nodes[to], s.published[m].target, None, c);
      }
      LogGrows(s, r, d);
      forall a, b | (a, b) in r.wire
        ensures WireOk(r, a, b, r.wire[(a, b)])
      {
        assert WireOk(s, a, b, s.wire[(a, b)]);
        WireSurvives(s, r, d, a, b, r.wire[(a, b)]);
      }
    }
  }

  lemma LoseKeepsInv(s: Cluster, origin: Node, to: Node, k: nat)
    requires Inv(s) && (origin, to) in s.wire && k < |s.wire[(origin, to)]|
    ensures Inv(Step(s, Loses(origin, to, k)))
  {
    var r := Step(s, Loses(origin, to, k));
    hide Consistent;
    WireShrinks(s, origin, to, s.wire[(origin, to)], k);
    forall a, b | (a, b) in r.wire
      ensures WireOk(r, a, b, r.wire[(a, b)])
    {
      assert WireOk(s, a, b, s.wire[(a, b)]);
    }
  }

  lemma StepKeepsInv(s: Cluster, e: Event)
    requires Inv(s)
    ensures Inv(Step(s, e))
  {
    match e
    case Publishes(n, t, exclude) =>
      if n in s.nodes {
        PublishKeepsInv(s, n, t, exclude);
      }
    case Delivers(origin, to) =>
      if (origin, to) in s.wire && s.wire[(origin, to)] != [] {
        DeliverKeepsInv(s, origin, to);
      }
    case Loses(origin, to, k) =>
      if (origin, to) in s.wire && k < |s.wire[(origin, to)]| {
        LoseKeepsInv(s, origin, to, k);
      }
    case _ => RegistryEventKeepsInv(s, e);
  }

  lemma {:induction false} RunKeepsInv(s: Cluster, events: seq<Event>)
    requires Inv(s)
    ensures Inv(Run(s, events))
    decreases events
  {
    if events == [] {
    } else {
      hide Inv, Step;
      StepKeepsInv(s, events[0]);
      RunKeepsInv(Step(s, events[0]), events[1..]);
    }
  }

  function Start(ids: set<Node>): (s: Cluster)
    ensures Shaped(s) && s.nodes.Keys == ids
  {
    Cluster(map n | n in ids :: Registry(map[], map[], map[], map[]), [],
            map a, b | a in ids && b in ids :: (a, b) := [], [])
  }

  lemma StartHasInv(ids: set<Node>)
    ensures Inv(Start(ids))
  {}

  // ----- Delivery theorems -----

  lemma ReceivedAfter(log: seq<Delivery>, d: Delivery, m: nat, n: Node, c: Conn)
    ensures Received(log + [d], m, n, c) == Received(log, m, n, c) + if d.m == m && d.node == n then d.frames[c] else 0
  {
    assert (log + [d])[..|log|] == log;
  }

  lemma {:induction false} UndeliveredReceivesNothing(log: seq<Delivery>, m: nat, n: Node, c: Conn)
    requires !Delivered(log, m, n)
    ensures Received(log, m, n, c) == 0
  {
    if log == [] {
    } else {
      var init, d := log[..|log| - 1], log[|log| - 1];
      assert log == init + [d];
      DeliveredAfter(init, d, m, n);
      UndeliveredReceivesNothing(init, m, n, c);
    }
  }

  lemma {:induction false} ReceivedIsOneDelivery(log: seq<Delivery>, m: nat, n: Node, c: Conn, bound: nat)
    requires forall i, j :: 0 <= i < j < |log| ==> log[i].m != log[j].m || log[i].node != log[j].node
    requires forall i :: 0 <= i < |log| && log[i].m == m && log[i].node == n ==> log[i].frames[c] <= bound
    ensures Received(log, m, n, c) <= bound
  {
    if log == [] {
    } else {
      var init, d := log[..|log| - 1], log[|log| - 1];
      if d.m == m && d.node == n {
        UndeliveredReceivesNothing(init, m, n, c);
      } else {
        ReceivedIsOneDelivery(init, m, n, c, bound);
      }
    }
  }

  /** In every run, with any messages lost, no connection is sent a message twice, as long as the
      message names no user twice. */
  lemma AtMostOnce(ids: set<Node>, events: seq<Event>, m: nat, n: Node, c: Conn)
    requires var s := Run(Start(ids), events); m < |s.published| && Single(s.published[m].target)
    ensures Received(Run(Start(ids), events).log, m, n, c) <= 1
  {
    hide Start, Step, Run, Received, Single;
    StartHasInv(ids);
    RunKeepsInv(Start(ids), events);
    ReceivedIsOneDelivery(Run(Start(ids), events).log, m, n, c, 1);
  }

  /** Receiving a message publishes nothing: the wires only lose an entry and no message is added. */
  lemma DeliveryIsNotForwarded(s: Cluster, origin: Node, to: Node)
    requires Shaped(s)
    ensures var r := Step(s, Delivers(origin, to));
            && r.published == s.published && r.nodes == s.nodes
            && (forall a, b :: (a, b) in s.wire ==>
                  r.wire[(a, b)] ==
                  if (a, b) == (origin, to) && s.wire[(a, b)] != [] then s.wire[(a, b)][1..] else s.wire[(a, b)])
  {}

  /** What a step adds to the log was not there before, so a delivered message stays as it is. */
  lemma DeliveredIsFinalStep(s: Cluster, e: Event, m: nat, n: Node, c: Conn)
    requires Inv(s) && Delivered(s.log, m, n) && m < |s.published|
    ensures var r := Step(s, e);
            Delivered(r.log, m, n) && Received(r.log, m, n, c) == Received(s.log, m, n, c) && s.published <= r.published
  {
    hide Sends, Consistent, Received, RegistryStep;
    var r := Step(s, e);
    if |r.log| > |s.log| {
      var d := r.log[|s.log|];
      assert r.log == s.log + [d];
      ReceivedAfter(s.log, d, m, n, c);
      DeliveredAfter(s.log, d, m, n);
      if e.Delivers? {
        assert WireOk(s, e.origin, e.to, s.wire[(e.origin, e.to)]);
        assert d.m in s.wire[(e.origin, e.to)];
      }
    }
  }

  lemma {:induction false} DeliveredIsFinal(s: Cluster, events: seq<Event>, m: nat, n: Node, c: Conn)
    requires Inv(s) && Delivered(s.log, m, n) && m < |s.published|
    ensures Received(Run(s, events).log, m, n, c) == Received(s.log, m, n, c)
    decreases events
  {
    if events == [] {
    } else {
      hide Inv, Step, Received, Delivered;
      DeliveredIsFinalStep(s, events[0], m, n, c);
      StepKeepsInv(s, events[0]);
      DeliveredIsFinal(Step(s, events[0]), events[1..], m, n, c);
    }
  }

  /** The bus loses message `m` on its way to `i`. */
  predicate LosesIt(s: Cluster, e: Event, m: nat, i: Node) {
    && e.Loses? && e.to == i && (e.origin, e.to) in s.wire
    && e.k < |s.wire[(e.origin, e.to)]| && s.wire[(e.origin, e.to)][e.k] == m
  }

  /** Throughout the run the connection is due `k` frames of `m` on node `i`, and `m` is not lost
      on its way there. */
  ghost predicate Attended(s: Cluster, events: seq<Event>, m: nat, i: Node, c: Conn, k: nat)
    requires Shaped(s)
    decreases events
  {
    && i in s.nodes && m < |s.published|
    && Due(s.nodes[i], s.published[m].target, c) == k
    && (events != [] ==> !LosesIt(s, events[0], m, i) && Attended(Step(s, events[0]), events[1..], m, i, c, k))
  }

  /** On its way, or delivered with all the frames that were due. */
  ghost predicate UnderWayOrDone(s: Cluster, m: nat, i: Node, c: Conn, k: nat)
    requires Shaped(s) && m < |s.published| && i in s.nodes
  {
    var o := s.published[m].origin;
    o in s.nodes && o != i &&
    if m in s.wire[(o, i)] then !Delivered(s.log, m, i) else Delivered(s.log, m, i) && Received(s.log, m, i, c) == k
  }

  lemma UnderWayStep(s: Cluster, e: Event, m: nat, i: Node, c: Conn, k: nat)
    requires Inv(s) && i in s.nodes && m < |s.published| && UnderWayOrDone(s, m, i, c, k)
    requires Due(s.nodes[i], s.published[m].target, c) == k && !LosesIt(s, e, m, i)
    ensures var r := Step(s, e); m < |r.published| && UnderWayOrDone(r, m, i, c, k)
  {
    hide Sends, Consistent, Received, RegistryStep, Due;
    var o, r := s.published[m].origin, Step(s, e);
    var w := s.wire[(o, i)];
    assert WireOk(s, o, i, w);
    if Delivered(s.log, m, i) {
      DeliveredIsFinalStep(s, e, m, i, c);
      assert m !in r.wire[(o, i)];
    } else if e == Delivers(o, i) && w[0] == m {
      var d := Delivery(m, i, Sends(s.nodes[i], s.published[m].target, None));
      assert r.log == s.log + [d];
      SendsAreDue(s.nodes[i], s.published[m].target, None, c);
      UndeliveredReceivesNothing(s.log, m, i, c);
      ReceivedAfter(s.log, d, m, i, c);
      DeliveredAfter(s.log, d, m, i);
    } else {
      StillOnWire(s, e, m, i);
      StillUndelivered(s, e, m, i);
    }
  }

  lemma StillOnWire(s: Cluster, e: Event, m: nat, i: Node)
    requires Shaped(s) && i in s.nodes && m < |s.published| && s.published[m].origin in s.nodes
    requires m in s.wire[(s.published[m].origin, i)] && !LosesIt(s, e, m, i)
    requires e == Delivers(s.published[m].origin, i) ==> s.wire[(s.published[m].origin, i)][0] != m
    ensures m in Step(s, e).wire[(s.published[m].origin, i)]
  {
    var w := s.wire[(s.published[m].origin, i)];
    var j :| 0 <= j < |w| && w[j] == m;
    var v := Step(s, e).wire[(s.published[m].origin, i)];
    if e == Delivers(s.published[m].origin, i) {
      assert v[j - 1] == m;
    } else if e.Loses? && e.origin == s.published[m].origin && e.to == i && e.k < |w| {
      assert v[if j < e.k then j else j - 1] == m;
    } else {
      assert v[j] == m;
    }
  }

  lemma StillUndelivered(s: Cluster, e: Event, m: nat, i: Node)
    requires Inv(s) && i in s.nodes && m < |s.published| && s.published[m].origin in s.nodes && !Delivered(s.log, m, i)
    requires e == Delivers(s.published[m].origin, i) ==>
               s.wire[(s.published[m].origin, i)] == [] || s.wire[(s.published[m].origin, i)][0] != m
    ensures !Delivered(Step(s, e).log, m, i)
  {
    hide Sends, Consistent, RegistryStep;
    var r := Step(s, e);
    if |r.log| > |s.log| {
      var d := r.log[|s.log|];
      assert r.log == s.log + [d];
      DeliveredAfter(s.log, d, m, i);
      if e.Delivers? {
        assert WireOk(s, e.origin, e.to, s.wire[(e.origin, e.to)]);
        assert d.m in s.wire[(e.origin, e.to)];
      }
    }
  }

  lemma {:induction false} AttendedIsServed(s: Cluster, events: seq<Event>, m: nat, i: Node, c: Conn, k: nat)
    requires Inv(s) && Attended(s, events, m, i, c, k) && UnderWayOrDone(s, m, i, c, k)
    ensures var f := Run(s, events); m < |f.published| && UnderWayOrDone(f, m, i, c, k)
    decreases events
  {
    if events == [] {
    } else {
      hide Inv, Step, UnderWayOrDone, Due, LosesIt;
      UnderWayStep(s, events[0], m, i, c, k);
      StepKeepsInv(s, events[0]);
      AttendedIsServed(Step(s, events[0]), events[1..], m, i, c, k);
    }
  }

  lemma PublishStarts(s: Cluster, n: Node, t: Target, exclude: Option<Conn>, i: Node, c: Conn, k: nat)
    requires Inv(s) && n in s.nodes && i in s.nodes
    ensures var m, r := |s.published|, Step(s, Publishes(n, t, exclude));
            && m < |r.published| && Delivered(r.log, m, n)
            && Received(r.log, m, n, c) == Sends(s.nodes[n], t, exclude)[c]
            && (i != n ==> UnderWayOrDone(r, m, i, c, k))
  {
    hide Sends, Consistent, Received;
    var m, r := |s.published|, Step(s, Publishes(n, t, exclude));
    var d := r.log[|s.log|];
    NewMessageIsUndelivered(s, m);
    UndeliveredReceivesNothing(s.log, m, n, c);
    ReceivedAfter(s.log, d, m, n, c);
    DeliveredAfter(s.log, d, m, n);
    DeliveredAfter(s.log, d, m, i);
    var w := r.wire[(n, i)];
    assert w[|w| - 1] == m;
  }

  /** In every run a publish from node `n` gives each of n's own connections exactly the frames it was due
      at that moment, none to the excluded one, and never another, whatever becomes of the connection. */
  lemma OriginServesItsOwn(ids: set<Node>, before: seq<Event>, n: Node, t: Target, exclude: Option<Conn>,
                           after: seq<Event>, c: Conn)
    requires n in ids
    ensures var s := Run(Start(ids), before);
            var f := Run(Step(s, Publishes(n, t, exclude)), after);
            Received(f.log, |s.published|, n, c) ==
            if t.ToRoom? && exclude == Some(c) then 0 else Due(s.nodes[n], t, c)
  {
    hide Start, Run, Step, Inv, Received, Sends, Due, Delivered;
    var s := Run(Start(ids), before);
    StartHasInv(ids);
    RunKeepsInv(Start(ids), before);
    PublishStarts(s, n, t, exclude, n, c, 0);
    StepKeepsInv(s, Publishes(n, t, exclude));
    DeliveredIsFinal(Step(s, Publishes(n, t, exclude)), after, |s.published|, n, c);
    NodeIsConsistent(s, n);
    SendsAreDue(s.nodes[n], t, exclude, c);
  }

  /** Exactly once: in every run, whatever else happens, a publish from node `n` gives
      - each of n's own connections exactly the frames it was due at that moment, none to the
        excluded one, and never another;
      - each connection of another node that is due `k` frames throughout, with the message not
        lost on its way, exactly `k` frames once the message is off the wire. For a listed user
        named once, or a room member, `k` is 1. */
  lemma ExactlyOnce(ids: set<Node>, before: seq<Event>, n: Node, t: Target, exclude: Option<Conn>,
                    after: seq<Event>, i: Node, c: Conn, k: nat)
    requires n in ids && i in ids
    requires var s := Run(Start(ids), before);
             i != n ==> Attended(Step(s, Publishes(n, t, exclude)), after, |s.published|, i, c, k)
    ensures var s := Run(Start(ids), before);
            var m, f := |s.published|, Run(Step(s, Publishes(n, t, exclude)), after);
            && (i == n ==>
                Received(f.log, m, n, c) == if t.ToRoom? && exclude == Some(c) then 0 else Due(s.nodes[n], t, c))
            && (i != n && m !in f.wire[(n, i)] ==> Received(f.log, m, i, c) == k)
  {
    hide Start, Run, Step, Inv, Attended, Received, Sends, Due, Delivered;
    if i == n {
      OriginServesItsOwn(ids, before, n, t, exclude, after, c);
    } else {
      var s := Run(Start(ids), before);
      StartHasInv(ids);
      RunKeepsInv(Start(ids), before);
      var m, r := |s.published|, Step(s, Publishes(n, t, exclude));
      PublishStarts(s, n, t, exclude, i, c, k);
      StepKeepsInv(s, Publishes(n, t, exclude));
      AttendedIsServed(r, after, m, i, c, k);
      PublishedStays(s, Publishes(n, t, exclude), after, m, n, t);
    }
  }

  lemma NodeIsConsistent(s: Cluster, n: Node)
    requires Inv(s) && n in s.nodes
    ensures Consistent(s.nodes[n])
  {}

  lemma PublishedStays(s: Cluster, e: Event, after: seq<Event>, m: nat, n: Node, t: Target)
    requires Shaped(s) && n in s.nodes && e.Publishes? && e.n == n && e.t == t && m == |s.published|
    ensures var f := Run(Step(s, e), after); m < |f.published| && f.published[m].origin == n
  {
    PublishedOnlyGrows(Step(s, e), after);
  }

  lemma {:induction false} PublishedOnlyGrows(s: Cluster, events: seq<Event>)
    requires Shaped(s)
    ensures s.published <= Run(s, events).published
    decreases events
  {
    if events == [] {
    } else {
      PublishedOnlyGrows(Step(s, events[0]), events[1..]);
      assert s.published <= Step(s, events[0]).published;
    }
  }
}
