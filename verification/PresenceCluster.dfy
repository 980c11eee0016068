/** Presence across replicas: every node runs the presence service, announces its own first and
    last sessions over the bus, and applies what it hears from the others
    (`services/presence_service.cpp`, `realtime/cluster_presence.hpp`).

    A notice is published after the service's mutex is released, so notices decided on one node
    wait in an outbox until their thread gets to publish; which one goes next is the scheduler's
    choice. A published notice goes to every subscriber, the publisher included, and each
    (origin, receiver) pair is a first-in first-out wire. */
module PresenceCluster {
  import opened Options
  import opened Ids
  import opened Presence
  import opened Sequences

  datatype Cluster = Cluster(nodes: map<Node, State>, outbox: map<Node, seq<Delta>>,
                             wire: map<(Node, Node), seq<Delta>>)

  datatype Event =
    | Connects(n: Node, u: User)
    | Disconnects(n: Node, u: User, now: Time)
    | Publishes(n: Node, k: nat)
    | Delivers(origin: Node, to: Node, now: Time)

  ghost predicate Shaped(c: Cluster) {
    && c.outbox.Keys == c.nodes.Keys
    && (forall a, b :: (a, b) in c.wire <==> a in c.nodes && b in c.nodes)
  }

  function Start(ids: set<Node>): (c: Cluster)
    ensures Shaped(c)
  {
    Cluster(map n | n in ids :: State(map[], map[], map[]),
            map n | n in ids :: [],
            map n, m | n in ids && m in ids :: (n, m) := [])
  }

  function Queue(out: seq<Delta>, notice: Option<Delta>): (r: seq<Delta>) {
    if notice.Some? then out + [notice.value] else out
  }

  /** One event; an event that is not enabled changes nothing. */
  function Step(c: Cluster, e: Event): (r: Cluster)
    requires Shaped(c)
    ensures Shaped(r) && r.nodes.Keys == c.nodes.Keys
  {
    match e
    case Connects(n, u) =>
      if n !in c.nodes then c
      else c.(nodes := c.nodes[n := Connect(c.nodes[n], u)],
              outbox := c.outbox[n := Queue(c.outbox[n], ConnectNotice(c.nodes[n], u))])
    case Disconnects(n, u, now) =>
      if n !in c.nodes then c
      else c.(nodes := c.nodes[n := Disconnect(c.nodes[n], u, now)],
              outbox := c.outbox[n := Queue(c.outbox[n], DisconnectNotice(c.nodes[n], u))])
    case Publishes(n, k) =>
      if n !in c.nodes || k >= |c.outbox[n]| then c
      else c.(outbox := c.outbox[n := Without(c.outbox[n], k)],
              wire := map w | w in c.wire :: if w.0 == n then c.wire[w] + [c.outbox[n][k]] else c.wire[w])
    case Delivers(origin, to, now) =>
      if (origin, to) !in c.wire || c.wire[(origin, to)] == [] then c
      else
        var d := c.wire[(origin, to)][0];
        var popped := c.(wire := c.wire[(origin, to) := c.wire[(origin, to)][1..]]);
        if origin == to then popped  // its own notice: the bus drops it
        else popped.(nodes := c.nodes[to := ApplyRemote(c.nodes[to], origin, d, now)])
  }

  function Run(c: Cluster, events: seq<Event>): (r: Cluster)
    requires Shaped(c)
    ensures Shaped(r) && r.nodes.Keys == c.nodes.Keys
    decreases events
  {
    if events == [] then c else Run(Step(c, events[0]), events[1..])
  }

  // ----- Deltas as a history of one node's local online set -----

  function Apply(users: set<User>, d: Delta): (r: set<User>) {
    if d.online then users + {d.user} else users - {d.user}
  }

  function ApplyAll(users: set<User>, ds: seq<Delta>): (r: set<User>)
    decreases ds
  {
    if ds == [] then users else ApplyAll(Apply(users, ds[0]), ds[1..])
  }

  /** The last thing a sequence of deltas says about a user. */
  function LastWord(ds: seq<Delta>, u: User): (w: Option<bool>) {
    if ds == [] then None
    else if LastWord(ds[1..], u).Some? then LastWord(ds[1..], u)
    else if ds[0].user == u then Some(ds[0].online) else None
  }

  lemma {:induction false} LastWordDecides(users: set<User>, ds: seq<Delta>, u: User)
    ensures u in ApplyAll(users, ds) <==> if LastWord(ds, u).Some? then LastWord(ds, u).value else u in users
    decreases ds
  {
    if ds == [] {
    } else {
      LastWordDecides(Apply(users, ds[0]), ds[1..], u);
    }
  }

  lemma {:induction false} LastWordOfConcat(a: seq<Delta>, b: seq<Delta>, u: User)
    ensures LastWord(a + b, u) == if LastWord(b, u).Some? then LastWord(b, u) else LastWord(a, u)
  {
    if a == [] {
      assert a + b == b;
    } else {
      assert (a + b)[1..] == a[1..] + b;
      LastWordOfConcat(a[1..], b, u);
    }
  }

  lemma LastWordOfOne(d: Delta, u: User)
    ensures LastWord([d], u) == if d.user == u then Some(d.online) else None
  {
    assert LastWord([d][1..], u) == None;
  }

  lemma {:induction false} ApplyAllOfConcat(users: set<User>, a: seq<Delta>, b: seq<Delta>)
    ensures ApplyAll(users, a + b) == ApplyAll(ApplyAll(users, a), b)
    decreases a
  {
    if a == [] {
      assert a + b == b;
    } else {
      assert (a + b)[1..] == a[1..] + b;
      ApplyAllOfConcat(Apply(users, a[0]), a[1..], b);
    }
  }

  // ----- The invariant -----

  /** What `to` will believe of `origin` once everything under way between them has arrived. */
  function Arriving(c: Cluster, origin: Node, to: Node): (r: set<User>)
    requires Shaped(c) && origin in c.nodes && to in c.nodes
  {
    ApplyAll(Reported(c.nodes[to], origin), c.wire[(origin, to)] + c.outbox[origin])
  }

  /** A node keeps reports of other nodes only, and no empty ones. */
  ghost predicate NodeOk(c: Cluster, n: Node)
    requires n in c.nodes
  {
    Wf(c.nodes[n]) && c.nodes[n].remote.Keys <= c.nodes.Keys - {n}
  }

  ghost predicate Inv(c: Cluster) {
    && Shaped(c)
    && (forall n :: n in c.nodes ==> NodeOk(c, n))
    && (forall n, m :: n in c.nodes && m in c.nodes && n != m ==> Arriving(c, n, m) == LocalUsers(c.nodes[n]))
  }

  /** Publishing notice `k` next is harmless when what stays in the outbox says nothing more about
      its user, or still ends on the same word. */
  predicate Harmless(out: seq<Delta>, k: nat)
    requires k < |out|
  {
    var rest := LastWord(Without(out, k), out[k].user);
    rest == None || rest == LastWord(out, out[k].user)
  }

  /** Each thread's notices about one user going out in the order they were decided is enough. */
  lemma InOrderIsHarmless(out: seq<Delta>, k: nat)
    requires k < |out|
    requires forall j :: 0 <= j < k ==> out[j].user != out[k].user
    ensures Harmless(out, k)
  {
    var u := out[k].user;
    NoWordOf(out[..k], u);
    SplitAt(out, k, u);
    LastWordOfConcat(out[..k], out[k + 1..], u);
  }

  lemma {:induction false} NoWordOf(ds: seq<Delta>, u: User)
    requires forall j :: 0 <= j < |ds| ==> ds[j].user != u
    ensures LastWord(ds, u) == None
  {
    if ds == [] {
    } else {
      NoWordOf(ds[1..], u);
    }
  }

  lemma SplitAt(ds: seq<Delta>, k: nat, u: User)
    requires k < |ds|
    ensures LastWord(ds, u) ==
            if LastWord(ds[k + 1..], u).Some? then LastWord(ds[k + 1..], u)
            else if ds[k].user == u then Some(ds[k].online) else LastWord(ds[..k], u)
  {
    assert ds == ds[..k] + ([ds[k]] + ds[k + 1..]);
    LastWordOfConcat(ds[..k], [ds[k]] + ds[k + 1..], u);
    LastWordOfConcat([ds[k]], ds[k + 1..], u);
    LastWordOfOne(ds[k], u);
  }

  /** Moving notice `k` of the outbox to the end of the wire, user by user. */
  lemma PublishWords(w: seq<Delta>, out: seq<Delta>, k: nat, u: User)
    requires k < |out|
    ensures LastWord(w + [out[k]] + Without(out, k), u) ==
            if u == out[k].user
            then (if LastWord(Without(out, k), u).Some? then LastWord(Without(out, k), u) else Some(out[k].online))
            else LastWord(w + out, u)
    ensures u == out[k].user ==> LastWord(w + out, u) == LastWord(out, u) && LastWord(out, u).Some?
  {
    var rest := Without(out, k);
    LastWordOfConcat(w + [out[k]], rest, u);
    LastWordOfConcat(w, [out[k]], u);
    LastWordOfOne(out[k], u);
    LastWordOfConcat(w, out, u);
    SplitAt(out, k, u);
    LastWordOfConcat(out[..k], out[k + 1..], u);
  }

  /** Publishing notice `k` keeps every peer heading for the right view exactly when it is harmless. */
  lemma PublishKeepsViewsIff(users: set<User>, w: seq<Delta>, out: seq<Delta>, k: nat)
    requires k < |out|
    ensures ApplyAll(users, w + [out[k]] + Without(out, k)) == ApplyAll(users, w + out) <==> Harmless(out, k)
  {
    var after, before := w + [out[k]] + Without(out, k), w + out;
    var u := out[k].user;
    PublishWords(w, out, k, u);
    LastWordDecides(users, after, u);
    LastWordDecides(users, before, u);
    if LastWord(Without(out, k), u) == None {
      LoneWord(out, k);
    }
    if Harmless(out, k) {
      forall x
        ensures x in ApplyAll(users, after) <==> x in ApplyAll(users, before)
      {
        PublishWords(w, out, k, x);
        LastWordDecides(users, after, x);
        LastWordDecides(users, before, x);
      }
    }
  }

  lemma LoneWord(out: seq<Delta>, k: nat)
    requires k < |out| && LastWord(Without(out, k), out[k].user) == None
    ensures LastWord(out, out[k].user) == Some(out[k].online)
  {
    SplitAt(out, k, out[k].user);
    LastWordOfConcat(out[..k], out[k + 1..], out[k].user);
  }

  // ----- Every event keeps the invariant -----

  /** A notice appended to the outbox accounts for the change of the local online set. */
  lemma QueueAccounts(users: set<User>, w: seq<Delta>, out: seq<Delta>, notice: Option<Delta>)
    ensures ApplyAll(users, w + Queue(out, notice)) ==
            if notice.Some? then Apply(ApplyAll(users, w + out), notice.value) else ApplyAll(users, w + out)
  {
    if notice.Some? {
      assert w + Queue(out, notice) == (w + out) + [notice.value];
      ApplyAllOfConcat(users, w + out, [notice.value]);
      assert ApplyAll(ApplyAll(users, w + out), [notice.value]) == Apply(ApplyAll(users, w + out), notice.value);
    }
  }

  lemma SessionsAccount(p: State, u: User, now: Time)
    requires Wf(p)
    ensures Wf(Connect(p, u)) && Wf(Disconnect(p, u, now))
    ensures Connect(p, u).remote == p.remote == Disconnect(p, u, now).remote
    ensures LocalUsers(Connect(p, u)) ==
            if ConnectNotice(p, u).Some? then Apply(LocalUsers(p), ConnectNotice(p, u).value) else LocalUsers(p)
    ensures LocalUsers(Disconnect(p, u, now)) ==
            if DisconnectNotice(p, u).Some? then Apply(LocalUsers(p), DisconnectNotice(p, u).value) else LocalUsers(p)
  {}

  function Announced(c: Cluster, n: Node, p: State, notice: Option<Delta>): (r: Cluster)
    requires Shaped(c) && n in c.nodes
    ensures Shaped(r) && r.nodes.Keys == c.nodes.Keys
  {
    c.(nodes := c.nodes[n := p], outbox := c.outbox[n := Queue(c.outbox[n], notice)])
  }

  lemma AnnouncedPair(c: Cluster, n: Node, p: State, notice: Option<Delta>, a: Node, b: Node)
    requires Shaped(c) && n in c.nodes && p.remote == c.nodes[n].remote
    requires LocalUsers(p) ==
             if notice.Some? then Apply(LocalUsers(c.nodes[n]), notice.value) else LocalUsers(c.nodes[n])
    requires a in c.nodes && b in c.nodes && a != b && Arriving(c, a, b) == LocalUsers(c.nodes[a])
    ensures Arriving(Announced(c, n, p, notice), a, b) == LocalUsers(Announced(c, n, p, notice).nodes[a])
  {
    hide LocalUsers, Queue, ApplyAll, Apply;
    assert Reported(Announced(c, n, p, notice).nodes[b], a) == Reported(c.nodes[b], a);
    QueueAccounts(Reported(c.nodes[b], a), c.wire[(a, b)], c.outbox[a], notice);
  }

  /** A node may change its sessions as long as its outbox says so. */
  lemma AnnouncedChangeKeepsInv(c: Cluster, n: Node, p: State, notice: Option<Delta>)
    requires Inv(c) && n in c.nodes && Wf(p) && p.remote == c.nodes[n].remote
    requires LocalUsers(p) ==
             if notice.Some? then Apply(LocalUsers(c.nodes[n]), notice.value) else LocalUsers(c.nodes[n])
    ensures Inv(Announced(c, n, p, notice))
  {
    hide LocalUsers, Wf, Arriving, Apply, Queue;
    var r := Announced(c, n, p, notice);
    forall a, b | a in r.nodes && b in r.nodes && a != b
      ensures Arriving(r, a, b) == LocalUsers(r.nodes[a])
    {
      AnnouncedPair(c, n, p, notice, a, b);
    }
  }

  lemma SessionEventKeepsInv(c: Cluster, e: Event)
    requires Inv(c) && (e.Connects? || e.Disconnects?)
    ensures Inv(Step(c, e))
  {
    hide Connect, Disconnect, ConnectNotice, DisconnectNotice, LocalUsers, Queue, Arriving, Wf;
    if e.n in c.nodes {
      SessionsAccount(c.nodes[e.n], e.u, if e.Disconnects? then e.now else 0);
      var p := if e.Connects? then Connect(c.nodes[e.n], e.u) else Disconnect(c.nodes[e.n], e.u, e.now);
      var notice := if e.Connects? then ConnectNotice(c.nodes[e.n], e.u) else DisconnectNotice(c.nodes[e.n], e.u);
      AnnouncedChangeKeepsInv(c, e.n, p, notice);
    }
  }

  lemma PublishEffect(c: Cluster, n: Node, k: nat, a: Node, b: Node)
    requires Shaped(c) && n in c.nodes && k < |c.outbox[n]| && a in c.nodes && b in c.nodes
    ensures var r := Step(c, Publishes(n, k));
            && r.nodes == c.nodes
            && Arriving(r, a, b) ==
               if a == n
               then ApplyAll(Reported(c.nodes[b], n), c.wire[(n, b)] + [c.outbox[n][k]] + Without(c.outbox[n], k))
               else Arriving(c, a, b)
  {}

  /** With at least one peer, publishing notice `k` keeps the invariant if and only if it is harmless. */
  lemma PublishKeepsInvIff(c: Cluster, n: Node, k: nat, peer: Node)
    requires Inv(c) && n in c.nodes && k < |c.outbox[n]| && peer in c.nodes && peer != n
    ensures Inv(Step(c, Publishes(n, k))) <==> Harmless(c.outbox[n], k)
  {
    hide ApplyAll, Harmless, Reported, LocalUsers, Wf, Without;
    var r := Step(c, Publishes(n, k));
    forall a, b | a in c.nodes && b in c.nodes && a != b
      ensures Arriving(r, a, b) == LocalUsers(r.nodes[a]) <==> a != n || Harmless(c.outbox[n], k)
    {
      assert Arriving(c, a, b) == LocalUsers(c.nodes[a]);
      PublishEffect(c, n, k, a, b);
      if a == n {
        PublishKeepsViewsIff(Reported(c.nodes[b], n), c.wire[(n, b)], c.outbox[n], k);
      }
    }
    assert Arriving(r, n, peer) == LocalUsers(r.nodes[n]) <==> Harmless(c.outbox[n], k);
    PublishEffect(c, n, k, n, n);
  }

  lemma PublishKeepsInv(c: Cluster, n: Node, k: nat)
    requires Inv(c) && n in c.nodes && k < |c.outbox[n]| && Harmless(c.outbox[n], k)
    ensures Inv(Step(c, Publishes(n, k)))
  {
    if peer :| peer in c.nodes && peer != n {
      PublishKeepsInvIff(c, n, k, peer);
    } else {
      PublishEffect(c, n, k, n, n);
    }
  }

  lemma ApplyAllHead(users: set<User>, w: seq<Delta>, out: seq<Delta>)
    requires w != []
    ensures ApplyAll(users, w + out) == ApplyAll(Apply(users, w[0]), w[1..] + out)
  {
    assert (w + out)[1..] == w[1..] + out;
  }

  lemma DeliverPair(c: Cluster, origin: Node, to: Node, now: Time, a: Node, b: Node)
    requires Shaped(c) && (origin, to) in c.wire && c.wire[(origin, to)] != []
    requires a in c.nodes && b in c.nodes && a != b && Arriving(c, a, b) == LocalUsers(c.nodes[a])
    ensures var r := Step(c, Delivers(origin, to, now)); Arriving(r, a, b) == LocalUsers(r.nodes[a])
  {
    hide LocalUsers, ApplyRemote, Reported, ApplyAll;
    var d := c.wire[(origin, to)][0];
    ApplyRemoteEffect(c.nodes[to], origin, d, now);
    ApplyRemoteKeepsLocal(c.nodes[to], origin, d, now);
    if a == origin && b == to {
      ApplyAllHead(Reported(c.nodes[b], a), c.wire[(a, b)], c.outbox[a]);
    }
  }

  lemma DeliverNode(c: Cluster, origin: Node, to: Node, now: Time, n: Node)
    requires Shaped(c) && (origin, to) in c.wire && c.wire[(origin, to)] != [] && n in c.nodes && NodeOk(c, n)
    ensures NodeOk(Step(c, Delivers(origin, to, now)), n)
  {
    hide ApplyRemote, Wf, Reported;
    ApplyRemoteEffect(c.nodes[to], origin, c.wire[(origin, to)][0], now);
  }

  lemma NothingToDeliver(c: Cluster, origin: Node, to: Node, now: Time)
    requires Shaped(c) && ((origin, to) !in c.wire || c.wire[(origin, to)] == [])
    ensures Step(c, Delivers(origin, to, now)) == c
  {}

  lemma DeliverKeepsInv(c: Cluster, origin: Node, to: Node, now: Time)
    requires Inv(c)
    ensures Inv(Step(c, Delivers(origin, to, now)))
  {
    hide Step, LocalUsers, NodeOk, Arriving;
    var r := Step(c, Delivers(origin, to, now));
    if (origin, to) in c.wire && c.wire[(origin, to)] != [] {
      forall n | n in r.nodes
        ensures NodeOk(r, n)
      {
        DeliverNode(c, origin, to, now, n);
      }
      forall a, b | a in r.nodes && b in r.nodes && a != b
        ensures Arriving(r, a, b) == LocalUsers(r.nodes[a])
      {
        DeliverPair(c, origin, to, now, a, b);
      }
    } else {
      NothingToDeliver(c, origin, to, now);
    }
  }

  lemma ApplyRemoteKeepsLocal(p: State, n: Node, d: Delta, now: Time)
    ensures LocalUsers(ApplyRemote(p, n, d, now)) == LocalUsers(p)
  {}

  // ----- Whole runs -----

  /** Every publication of the run picks a harmless notice. */
  ghost predicate HarmlessRun(c: Cluster, events: seq<Event>)
    requires Shaped(c)
    decreases events
  {
    events == [] ||
    (var e := events[0];
     && (e.Publishes? && e.n in c.nodes && e.k < |c.outbox[e.n]| ==> Harmless(c.outbox[e.n], e.k))
     && HarmlessRun(Step(c, e), events[1..]))
  }

  lemma StartFacts(ids: set<Node>, n: Node, m: Node)
    requires n in ids && m in ids
    ensures var c := Start(ids);
            n in c.nodes && c.nodes[n] == State(map[], map[], map[]) && c.outbox[n] == [] && c.wire[(n, m)] == []
  {}

  lemma StartHasInv(ids: set<Node>)
    ensures Inv(Start(ids))
  {
    var c := Start(ids);
    assert c.nodes.Keys == ids;
    forall n | n in c.nodes
      ensures Wf(c.nodes[n]) && c.nodes[n].remote.Keys <= c.nodes.Keys - {n}
    {
      StartFacts(ids, n, n);
    }
    hide Start;
    forall n, m | n in c.nodes && m in c.nodes
      ensures Arriving(c, n, m) == LocalUsers(c.nodes[n])
    {
      StartFacts(ids, n, m);
      StartFacts(ids, m, n);
      assert c.wire[(n, m)] + c.outbox[n] == [];
    }
  }

  lemma {:induction false} RunKeepsInv(c: Cluster, events: seq<Event>)
    requires Inv(c) && HarmlessRun(c, events)
    ensures Inv(Run(c, events))
    decreases events
  {
    if events == [] {
    } else {
      hide Inv, Step;
      var e := events[0];
      StepKeepsInv(c, e);
      RunKeepsInv(Step(c, e), events[1..]);
    }
  }

  lemma StepKeepsInv(c: Cluster, e: Event)
    requires Inv(c)
    requires e.Publishes? && e.n in c.nodes && e.k < |c.outbox[e.n]| ==> Harmless(c.outbox[e.n], e.k)
    ensures Inv(Step(c, e))
  {
    match e
    case Connects(_, _) => SessionEventKeepsInv(c, e);
    case Disconnects(_, _, _) => SessionEventKeepsInv(c, e);
    case Publishes(n, k) =>
      if n in c.nodes && k < |c.outbox[n]| {
        PublishKeepsInv(c, n, k);
      }
    case Delivers(origin, to, now) => DeliverKeepsInv(c, origin, to, now);
  }

  /** In every reachable state, what is under way from `n` to `m` turns m's view of `n` into n's
      local online set. */
  lemma ReachableHasInv(ids: set<Node>, events: seq<Event>)
    requires HarmlessRun(Start(ids), events)
    ensures Inv(Run(Start(ids), events))
  {
    StartHasInv(ids);
    RunKeepsInv(Start(ids), events);
  }

  // ----- What a drained cluster believes -----

  /** The users some node holds a session of. */
  function Everyone(c: Cluster): (s: set<User>) {
    set n, u | n in c.nodes && u in LocalUsers(c.nodes[n]) :: u
  }

  /** Nothing waits to be published and nothing is on a wire between two nodes. */
  ghost predicate Drained(c: Cluster) {
    && Shaped(c)
    && (forall n :: n in c.nodes ==> c.outbox[n] == [])
    && (forall n, m :: n in c.nodes && m in c.nodes && n != m ==> c.wire[(n, m)] == [])
  }

  lemma DrainedReports(c: Cluster, n: Node, m: Node)
    requires Inv(c) && Drained(c) && n in c.nodes && m in c.nodes && n != m
    ensures Reported(c.nodes[m], n) == LocalUsers(c.nodes[n])
  {
    assert c.wire[(n, m)] + c.outbox[n] == [];
    assert Arriving(c, n, m) == LocalUsers(c.nodes[n]);
  }

  lemma DrainedViewIsTruth(c: Cluster, i: Node)
    requires Inv(c) && Drained(c) && i in c.nodes
    ensures OnlineUsers(c.nodes[i]) == Everyone(c)
  {
    hide LocalUsers, Arriving;
    var p := c.nodes[i];
    forall u | u in OnlineUsers(p)
      ensures u in Everyone(c)
    {
      if u !in LocalUsers(p) {
        var n :| n in p.remote && u in p.remote[n];
        DrainedReports(c, n, i);
      }
    }
    forall u | u in Everyone(c)
      ensures u in OnlineUsers(p)
    {
      var n :| n in c.nodes && u in LocalUsers(c.nodes[n]);
      if n != i {
        DrainedReports(c, n, i);
      }
    }
  }

  // ----- Sessions read off the events alone -----

  /** How many sessions of a user a node has open after the events, if it had `k` before: one more for
      each connect, one less for each disconnect, but never less than none. */
  function OpenFrom(k: nat, events: seq<Event>, n: Node, u: User): (open: nat)
    decreases events
  {
    if events == [] then k
    else
      match events[0]
      case Connects(m, v) => OpenFrom(if m == n && v == u then k + 1 else k, events[1..], n, u)
      case Disconnects(m, v, _) => OpenFrom(if m == n && v == u && k > 0 then k - 1 else k, events[1..], n, u)
      case _ => OpenFrom(k, events[1..], n, u)
  }

  function Open(events: seq<Event>, n: Node, u: User): (open: nat) { OpenFrom(0, events, n, u) }

  ghost predicate AllWf(c: Cluster) { forall n :: n in c.nodes ==> Wf(c.nodes[n]) }

  lemma StepKeepsWf(c: Cluster, e: Event)
    requires Shaped(c) && AllWf(c)
    ensures AllWf(Step(c, e))
  {
    hide Connect, Disconnect, ApplyRemote, Wf, Queue;
    match e
    case Connects(n, u) =>
      if n in c.nodes {
        SessionsAccount(c.nodes[n], u, 0);
      }
    case Disconnects(n, u, now) =>
      if n in c.nodes {
        SessionsAccount(c.nodes[n], u, now);
      }
    case Publishes(_, _) =>
    case Delivers(origin, to, now) =>
      if (origin, to) in c.wire && c.wire[(origin, to)] != [] {
        ApplyRemoteEffect(c.nodes[to], origin, c.wire[(origin, to)][0], now);
      }
  }

  lemma SessionsCount(p: State, u: User, v: User, now: Time)
    requires Wf(p)
    ensures Count(p, u) >= 0
    ensures Count(Connect(p, v), u) == Count(p, u) + if v == u then 1 else 0
    ensures Count(Disconnect(p, v, now), u) == Count(p, u) - if v == u && Count(p, u) > 0 then 1 else 0
  {}

  lemma CountStep(c: Cluster, e: Event, n: Node, u: User)
    requires Shaped(c) && AllWf(c) && n in c.nodes && Count(c.nodes[n], u) >= 0
    ensures Count(Step(c, e).nodes[n], u) == OpenFrom(Count(c.nodes[n], u), [e], n, u)
  {
    hide Connect, Disconnect, ApplyRemote, Count, Wf, Queue, ConnectNotice, DisconnectNotice;
    assert [e][1..] == [];
    match e
    case Connects(_, v) => SessionsCount(c.nodes[n], u, v, 0);
    case Disconnects(_, v, now) => SessionsCount(c.nodes[n], u, v, now);
    case Publishes(_, _) =>
    case Delivers(origin, to, now) =>
      if (origin, to) in c.wire && c.wire[(origin, to)] != [] {
        ApplyRemoteEffect(c.nodes[to], origin, c.wire[(origin, to)][0], now);
        SameSessionsSameCount(c.nodes[to], ApplyRemote(c.nodes[to], origin, c.wire[(origin, to)][0], now), u);
      }
  }

  lemma SameSessionsSameCount(p: State, q: State, u: User)
    requires p.sessions == q.sessions
    ensures Count(p, u) == Count(q, u)
  {}

  lemma OpenCons(k: nat, e: Event, rest: seq<Event>, n: Node, u: User)
    ensures OpenFrom(k, [e] + rest, n, u) == OpenFrom(OpenFrom(k, [e], n, u), rest, n, u)
  {
    assert ([e] + rest)[1..] == rest && [e][1..] == [];
  }

  lemma {:induction false} CountRun(c: Cluster, events: seq<Event>, n: Node, u: User)
    requires Shaped(c) && AllWf(c) && n in c.nodes && Count(c.nodes[n], u) >= 0
    ensures Count(Run(c, events).nodes[n], u) == OpenFrom(Count(c.nodes[n], u), events, n, u)
    decreases events
  {
    if events == [] {
    } else {
      StepKeepsWf(c, events[0]);
      CountStep(c, events[0], n, u);
      assert events == [events[0]] + events[1..];
      hide Step, Count, AllWf, OpenFrom;
      OpenCons(Count(c.nodes[n], u), events[0], events[1..], n, u);
      CountRun(Step(c, events[0]), events[1..], n, u);
    }
  }

  lemma StartIsWf(ids: set<Node>)
    ensures Start(ids).nodes.Keys == ids && AllWf(Start(ids))
    ensures forall n, u :: n in ids ==> Count(Start(ids).nodes[n], u) == 0
  {}

  /** In every run, whatever is published and delivered, a node counts exactly the sessions that its
      connects and disconnects leave open. */
  lemma SessionsAreCounted(ids: set<Node>, events: seq<Event>, n: Node, u: User)
    requires n in ids
    ensures n in Run(Start(ids), events).nodes
    ensures Count(Run(Start(ids), events).nodes[n], u) == Open(events, n, u)
    ensures u in LocalUsers(Run(Start(ids), events).nodes[n]) <==> Open(events, n, u) > 0
  {
    StartIsWf(ids);
    hide Start, OpenFrom, AllWf;
    CountRun(Start(ids), events, n, u);
    hide Run;
  }

  /** The users who have a session open somewhere. */
  function OpenUsers(ids: set<Node>, events: seq<Event>): (s: set<User>) {
    set n, i | n in ids && 0 <= i < |events| && events[i].Connects? && Open(events, n, events[i].u) > 0 :: events[i].u
  }

  lemma {:induction false} OpenWasConnected(k: nat, events: seq<Event>, n: Node, u: User)
    requires OpenFrom(k, events, n, u) > k
    ensures exists i :: 0 <= i < |events| && events[i].Connects? && events[i].u == u
    decreases events
  {
    var e, rest := events[0], events[1..];
    if e.Connects? && e.n == n && e.u == u {
    } else {
      var k' := if e.Disconnects? && e.n == n && e.u == u && k > 0 then k - 1 else k;
      OpenWasConnected(k', rest, n, u);
      var i :| 0 <= i < |rest| && rest[i].Connects? && rest[i].u == u;
      assert events[i + 1] == rest[i];
    }
  }

  lemma OpenUsersAre(ids: set<Node>, events: seq<Event>, u: User)
    ensures u in OpenUsers(ids, events) <==> exists n :: n in ids && Open(events, n, u) > 0
  {
    if n :| n in ids && Open(events, n, u) > 0 {
      OpenWasConnected(0, events, n, u);
    }
  }

  lemma EveryoneIsOpen(ids: set<Node>, events: seq<Event>)
    ensures Everyone(Run(Start(ids), events)) == OpenUsers(ids, events)
  {
    var c := Run(Start(ids), events);
    StartIsWf(ids);
    hide Start, Run, Open, OpenUsers, LocalUsers;
    forall u
      ensures u in Everyone(c) <==> u in OpenUsers(ids, events)
    {
      OpenUsersAre(ids, events, u);
      forall n | n in ids
        ensures u in LocalUsers(c.nodes[n]) <==> Open(events, n, u) > 0
      {
        SessionsAreCounted(ids, events, n, u);
      }
    }
  }

  /** Once the channels drain, every node's `is_online(u)` holds exactly when the connects and disconnects
      of some node leave a session of `u` open, and every `online_count` is the number of such users. */
  lemma ClusterConverges(ids: set<Node>, events: seq<Event>, i: Node)
    requires HarmlessRun(Start(ids), events)
    requires var c := Run(Start(ids), events); Drained(c) && i in c.nodes
    ensures var c := Run(Start(ids), events);
            && (forall u :: u in OnlineUsers(c.nodes[i]) <==> exists n :: n in ids && Open(events, n, u) > 0)
            && |OnlineUsers(c.nodes[i])| == |OpenUsers(ids, events)|
  {
    hide Start, Run, HarmlessRun, OnlineUsers, Inv, Drained, LocalUsers, Open, OpenUsers, Everyone;
    ReachableHasInv(ids, events);
    DrainedViewIsTruth(Run(Start(ids), events), i);
    EveryoneIsOpen(ids, events);
    forall u
      ensures u in OpenUsers(ids, events) <==> exists n :: n in ids && Open(events, n, u) > 0
    {
      OpenUsersAre(ids, events, u);
    }
  }

  /** Every publication of the run takes the earliest waiting notice about its user. */
  ghost predicate InOrderRun(c: Cluster, events: seq<Event>)
    requires Shaped(c)
    decreases events
  {
    events == [] ||
    (var e := events[0];
     && (e.Publishes? && e.n in c.nodes && e.k < |c.outbox[e.n]| ==>
           forall j :: 0 <= j < e.k ==> c.outbox[e.n][j].user != c.outbox[e.n][e.k].user)
     && InOrderRun(Step(c, e), events[1..]))
  }

  lemma {:induction false} InOrderRunIsHarmless(c: Cluster, events: seq<Event>)
    requires Shaped(c) && InOrderRun(c, events)
    ensures HarmlessRun(c, events)
    decreases events
  {
    if events == [] {
    } else {
      hide Step, Harmless;
      var e := events[0];
      if e.Publishes? && e.n in c.nodes && e.k < |c.outbox[e.n]| {
        InOrderIsHarmless(c.outbox[e.n], e.k);
      }
      InOrderRunIsHarmless(Step(c, e), events[1..]);
    }
  }

  /** When each node publishes its notices about each user in the order they were decided, a drained
      cluster agrees on who is online. */
  lemma InOrderClusterConverges(ids: set<Node>, events: seq<Event>, i: Node)
    requires InOrderRun(Start(ids), events)
    requires var c := Run(Start(ids), events); Drained(c) && i in c.nodes
    ensures var c := Run(Start(ids), events);
            && (forall u :: u in OnlineUsers(c.nodes[i]) <==> exists n :: n in ids && Open(events, n, u) > 0)
            && |OnlineUsers(c.nodes[i])| == |OpenUsers(ids, events)|
  {
    hide Start, Run, OnlineUsers, Drained, Open, OpenUsers, InOrderRun, HarmlessRun;
    InOrderRunIsHarmless(Start(ids), events);
    ClusterConverges(ids, events, i);
  }

  /** From a drained state, the transitions a node reports to its clients are the cluster's own:
      "became online" when nobody held the user, "became offline" when nobody does any more. */
  lemma DrainedTransitionsAreGlobal(c: Cluster, i: Node, u: User, now: Time)
    requires Inv(c) && Drained(c) && i in c.nodes
    ensures u !in OnlineUsers(c.nodes[i]) <==> u !in Everyone(c)
    ensures u in LocalUsers(c.nodes[i]) ==>
              (u !in OnlineUsers(Disconnect(c.nodes[i], u, now)) <==> u !in Everyone(Step(c, Disconnects(i, u, now))))
  {
    hide Arriving, OnlineUsers, Everyone, Step, LocalUsers, Inv, Drained;
    DrainedViewIsTruth(c, i);
    if u in LocalUsers(c.nodes[i]) {
      DisconnectSeenByOthers(c, i, u, now);
    }
  }

  lemma DisconnectSeenByOthers(c: Cluster, i: Node, u: User, now: Time)
    requires Inv(c) && Drained(c) && i in c.nodes
    ensures u in OnlineUsers(Disconnect(c.nodes[i], u, now)) <==> u in Everyone(Step(c, Disconnects(i, u, now)))
  {
    hide Arriving, LocalUsers, Disconnect, DisconnectNotice, Wf;
    var p, r := c.nodes[i], Step(c, Disconnects(i, u, now));
    var q := r.nodes[i];
    SessionsAccount(p, u, now);
    assert forall n :: n in c.nodes && n != i ==> r.nodes[n] == c.nodes[n];
    hide Step;
    if u in RemoteUsers(q) {
      var n :| n in q.remote && u in q.remote[n];
      DrainedReports(c, n, i);
      assert n in r.nodes && u in LocalUsers(r.nodes[n]);
    }
    if u in Everyone(r) && u !in LocalUsers(q) {
      var n :| n in r.nodes && u in LocalUsers(r.nodes[n]);
      DrainedReports(c, n, i);
      assert n in q.remote && u in q.remote[n];
    }
  }

  // ----- Why the order of publication matters -----

  /** Two nodes: `a` has `count` sessions of `u` and outbox `out`, `w` is on its way to `b`, which
      has no sessions of its own and believes `rep` of `a`. */
  ghost predicate Scene(c: Cluster, a: Node, b: Node, u: User, count: nat, out: seq<Delta>, w: seq<Delta>,
                        rep: set<User>) {
    && Shaped(c) && c.nodes.Keys == {a, b} && a != b
    && c.nodes[a].sessions == (if count == 0 then map[] else map[u := count])
    && c.nodes[b].sessions == map[] && Reported(c.nodes[b], a) == rep
    && c.outbox[a] == out && c.outbox[b] == [] && c.wire[(a, b)] == w && c.wire[(b, a)] == []
  }

  lemma SceneSessions(c: Cluster, a: Node, b: Node, u: User)
    requires Scene(c, a, b, u, 0, [], [], {})
    ensures Scene(Step(Step(c, Connects(a, u)), Disconnects(a, u, 0)), a, b, u, 0,
                  [Delta(u, true), Delta(u, false)], [], {})
  {
    var r := Step(c, Connects(a, u));
    assert Scene(r, a, b, u, 1, [Delta(u, true)], [], {});
    assert map[u := 1] - {u} == map[];
  }

  lemma ScenePublish(c: Cluster, a: Node, b: Node, u: User, out: seq<Delta>, w: seq<Delta>, k: nat)
    requires Scene(c, a, b, u, 0, out, w, {}) && k < |out|
    ensures Scene(Step(c, Publishes(a, k)), a, b, u, 0, Without(out, k), w + [out[k]], {})
  {}

  lemma SceneDeliver(c: Cluster, a: Node, b: Node, u: User, w: seq<Delta>, rep: set<User>)
    requires Scene(c, a, b, u, 0, [], w, rep) && w != []
    ensures Scene(Step(c, Delivers(a, b, 0)), a, b, u, 0, [], w[1..], Apply(rep, w[0]))
  {
    hide ApplyRemote, Reported;
    ApplyRemoteEffect(c.nodes[b], a, w[0], 0);
  }

  lemma RunCons(c: Cluster, e: Event, rest: seq<Event>)
    requires Shaped(c)
    ensures Run(c, [e] + rest) == Run(Step(c, e), rest)
  {
    assert ([e] + rest)[1..] == rest;
  }

  /** A wrong order: both notices of a connect and a disconnect, the later one first. */
  function WrongOrder(a: Node, b: Node, u: User): (events: seq<Event>) {
    [Connects(a, u)] + ([Disconnects(a, u, 0)] + ([Publishes(a, 1)] + ([Publishes(a, 0)] +
    ([Delivers(a, b, 0)] + ([Delivers(a, b, 0)] + [])))))
  }

  lemma WrongOrderRuns(a: Node, b: Node, u: User, c: Cluster)
    requires Shaped(c)
    ensures Run(c, WrongOrder(a, b, u)) ==
            Step(Step(Step(Step(Step(Step(c, Connects(a, u)), Disconnects(a, u, 0)), Publishes(a, 1)), Publishes(a, 0)),
                 Delivers(a, b, 0)), Delivers(a, b, 0))
  {
    hide Step, Run;
    var last := [Delivers(a, b, 0)] + [];
    var rest3 := [Delivers(a, b, 0)] + last;
    var rest2 := [Publishes(a, 0)] + rest3;
    var rest1 := [Publishes(a, 1)] + rest2;
    var c1 := Step(c, Connects(a, u));
    var c2 := Step(c1, Disconnects(a, u, 0));
    var c3 := Step(c2, Publishes(a, 1));
    var c4 := Step(c3, Publishes(a, 0));
    var c5 := Step(c4, Delivers(a, b, 0));
    RunCons(c, Connects(a, u), [Disconnects(a, u, 0)] + rest1);
    RunCons(c1, Disconnects(a, u, 0), rest1);
    RunCons(c2, Publishes(a, 1), rest2);
    RunCons(c3, Publishes(a, 0), rest3);
    RunCons(c4, Delivers(a, b, 0), last);
    RunCons(c5, Delivers(a, b, 0), []);
    RunNothing(Step(c5, Delivers(a, b, 0)));
  }

  lemma WrongOrderPublished(a: Node, b: Node, u: User, c: Cluster)
    requires Scene(c, a, b, u, 0, [Delta(u, true), Delta(u, false)], [], {})
    ensures Scene(Step(Step(c, Publishes(a, 1)), Publishes(a, 0)), a, b, u, 0,
                  [], [Delta(u, false), Delta(u, true)], {})
  {
    var on, off := Delta(u, true), Delta(u, false);
    var none: seq<Delta> := [];
    assert Without([on, off], 1) == [on] && Without([on], 0) == none;
    assert none + [off] == [off] && [off] + [on] == [off, on];
    hide Step, Scene, Without;
    ScenePublish(c, a, b, u, [on, off], none, 1);
    ScenePublish(Step(c, Publishes(a, 1)), a, b, u, [on], [off], 0);
  }

  lemma WrongOrderDelivered(a: Node, b: Node, u: User, c: Cluster)
    requires Scene(c, a, b, u, 0, [], [Delta(u, false), Delta(u, true)], {})
    ensures Scene(Step(Step(c, Delivers(a, b, 0)), Delivers(a, b, 0)), a, b, u, 0, [], [], {u})
  {
    var on, off := Delta(u, true), Delta(u, false);
    assert [off, on][1..] == [on] && [on][1..] == [];
    hide Step, Scene;
    SceneDeliver(c, a, b, u, [off, on], {});
    SceneDeliver(Step(c, Delivers(a, b, 0)), a, b, u, [on], {});
  }

  lemma WrongOrderScene(a: Node, b: Node, u: User, c: Cluster)
    requires Scene(c, a, b, u, 0, [], [], {})
    ensures Scene(Run(c, WrongOrder(a, b, u)), a, b, u, 0, [], [], {u})
  {
    assert Shaped(c);
    WrongOrderRuns(a, b, u, c);
    hide Step, Run, Scene, WrongOrder;
    SceneSessions(c, a, b, u);
    var c2 := Step(Step(c, Connects(a, u)), Disconnects(a, u, 0));
    WrongOrderPublished(a, b, u, c2);
    WrongOrderDelivered(a, b, u, Step(Step(c2, Publishes(a, 1)), Publishes(a, 0)));
  }

  /** Publishing a node's two notices about a user in the wrong order leaves a drained cluster in
      which the peer reports a user online whom nobody holds. */
  lemma ReorderedNoticesDiverge(a: Node, b: Node, u: User)
    requires a != b
    ensures var c := Run(Start({a, b}), WrongOrder(a, b, u));
            Drained(c) && b in c.nodes && u in OnlineUsers(c.nodes[b]) && Everyone(c) == {}
  {
    StartScene(a, b, u);
    WrongOrderScene(a, b, u, Start({a, b}));
    SceneEnds(Run(Start({a, b}), WrongOrder(a, b, u)), a, b, u);
  }

  lemma StartScene(a: Node, b: Node, u: User)
    requires a != b
    ensures Scene(Start({a, b}), a, b, u, 0, [], [], {})
  {}

  lemma RunNothing(c: Cluster)
    requires Shaped(c)
    ensures Run(c, []) == c
  {}

  lemma SceneEnds(c: Cluster, a: Node, b: Node, u: User)
    requires Scene(c, a, b, u, 0, [], [], {u})
    ensures Drained(c) && u in OnlineUsers(c.nodes[b]) && Everyone(c) == {}
  {
    assert a in c.nodes[b].remote && u in c.nodes[b].remote[a];
  }
}
