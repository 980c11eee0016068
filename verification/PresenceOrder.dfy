/** Exactly which publication orders leave the replicas agreeing: for every run, whatever order each
    node's notices go out in. */
module PresenceOrder {
  import opened Options
  import opened Ids
  import opened Presence
  import opened PresenceCluster

  /** The notices an event makes a node decide on. */
  function Decided(c: Cluster, e: Event, n: Node): (ds: seq<Delta>)
    requires Shaped(c) && n in c.nodes
  {
    match e
    case Connects(m, u) => if m == n then Queue([], ConnectNotice(c.nodes[n], u)) else []
    case Disconnects(m, u, _) => if m == n then Queue([], DisconnectNotice(c.nodes[n], u)) else []
    case _ => []
  }

  /** The notices an event makes a node publish. */
  function Published(c: Cluster, e: Event, n: Node): (ds: seq<Delta>)
    requires Shaped(c) && n in c.nodes
  {
    if e.Publishes? && e.n == n && e.k < |c.outbox[n]| then [c.outbox[n][e.k]] else []
  }

  /** In the order a node's sessions changed. */
  function DecidedIn(c: Cluster, events: seq<Event>, n: Node): (ds: seq<Delta>)
    requires Shaped(c) && n in c.nodes
    decreases events
  {
    if events == [] then [] else Decided(c, events[0], n) + DecidedIn(Step(c, events[0]), events[1..], n)
  }

  /** In the order its notices went onto the bus. */
  function PublishedIn(c: Cluster, events: seq<Event>, n: Node): (ds: seq<Delta>)
    requires Shaped(c) && n in c.nodes
    decreases events
  {
    if events == [] then [] else Published(c, events[0], n) + PublishedIn(Step(c, events[0]), events[1..], n)
  }

  lemma ApplyQueued(users: set<User>, notice: Option<Delta>)
    ensures ApplyAll(users, Queue([], notice)) == if notice.Some? then Apply(users, notice.value) else users
  {
    if notice.Some? {
      assert Queue([], notice) == [notice.value];
      assert ApplyAll(Apply(users, notice.value), [notice.value][1..]) == Apply(users, notice.value);
    }
  }

  lemma DecidedSession(c: Cluster, e: Event, n: Node)
    requires Shaped(c) && n in c.nodes && Wf(c.nodes[n]) && (e.Connects? || e.Disconnects?) && e.n == n
    ensures LocalUsers(Step(c, e).nodes[n]) == ApplyAll(LocalUsers(c.nodes[n]), Decided(c, e, n))
  {
    var p := c.nodes[n];
    hide ApplyAll, Queue, Connect, Disconnect, LocalUsers, ConnectNotice, DisconnectNotice;
    match e
    case Connects(_, u) =>
      SessionsAccount(p, u, 0);
      ApplyQueued(LocalUsers(p), ConnectNotice(p, u));
    case Disconnects(_, u, now) =>
      SessionsAccount(p, u, now);
      ApplyQueued(LocalUsers(p), DisconnectNotice(p, u));
  }

  lemma OtherEventsKeepLocal(c: Cluster, e: Event, n: Node)
    requires Shaped(c) && n in c.nodes && ((e.Connects? || e.Disconnects?) ==> e.n != n)
    ensures LocalUsers(Step(c, e).nodes[n]) == LocalUsers(c.nodes[n]) && Decided(c, e, n) == []
  {
    hide ApplyRemote, LocalUsers, Connect, Disconnect, Queue;
    if e.Delivers? && (e.origin, e.to) in c.wire && c.wire[(e.origin, e.to)] != [] {
      ApplyRemoteKeepsLocal(c.nodes[e.to], e.origin, c.wire[(e.origin, e.to)][0], e.now);
    }
  }

  lemma DecidedStep(c: Cluster, e: Event, n: Node)
    requires Shaped(c) && AllWf(c) && n in c.nodes
    ensures LocalUsers(Step(c, e).nodes[n]) == ApplyAll(LocalUsers(c.nodes[n]), Decided(c, e, n))
  {
    hide Step, LocalUsers, Decided, ApplyAll, Wf;
    if (e.Connects? || e.Disconnects?) && e.n == n {
      DecidedSession(c, e, n);
    } else {
      OtherEventsKeepLocal(c, e, n);
      ApplyNothing(LocalUsers(c.nodes[n]));
    }
  }

  lemma ApplyNothing(users: set<User>)
    ensures ApplyAll(users, []) == users
  {}

  lemma {:induction false} DecidedRun(c: Cluster, events: seq<Event>, n: Node)
    requires Shaped(c) && AllWf(c) && n in c.nodes
    ensures LocalUsers(Run(c, events).nodes[n]) == ApplyAll(LocalUsers(c.nodes[n]), DecidedIn(c, events, n))
    decreases events
  {
    if events == [] {
    } else {
      StepKeepsWf(c, events[0]);
      hide Step, LocalUsers, Decided, AllWf, ApplyAll;
      DecidedStep(c, events[0], n);
      DecidedRun(Step(c, events[0]), events[1..], n);
      ApplyAllOfConcat(LocalUsers(c.nodes[n]), Decided(c, events[0], n), DecidedIn(Step(c, events[0]), events[1..], n));
    }
  }

  /** What `to` will believe of `origin` once the wire between them is empty. */
  function Heard(c: Cluster, origin: Node, to: Node): (r: set<User>)
    requires Shaped(c) && origin in c.nodes && to in c.nodes
  {
    ApplyAll(Reported(c.nodes[to], origin), c.wire[(origin, to)])
  }

  lemma PublishedStep(c: Cluster, e: Event, origin: Node, to: Node)
    requires Shaped(c) && origin in c.nodes && to in c.nodes && origin != to
    ensures Heard(Step(c, e), origin, to) == ApplyAll(Heard(c, origin, to), Published(c, e, origin))
  {
    hide ApplyAll, ApplyRemote, Reported, Connect, Disconnect, Queue;
    ApplyNothing(Heard(c, origin, to));
    match e
    case Publishes(n, k) =>
      if n == origin && k < |c.outbox[n]| {
        ApplyAllOfConcat(Reported(c.nodes[to], origin), c.wire[(origin, to)], [c.outbox[n][k]]);
      }
    case Delivers(a, b, now) =>
      if (a, b) in c.wire && c.wire[(a, b)] != [] {
        ApplyRemoteEffect(c.nodes[b], a, c.wire[(a, b)][0], now);
        if a == origin && b == to {
          HeadFirst(Reported(c.nodes[to], origin), c.wire[(origin, to)]);
        }
      }
    case Connects(n, u) =>
      if n in c.nodes {
        SessionsKeepReports(c.nodes[n], u, 0, origin);
      }
    case Disconnects(n, u, now) =>
      if n in c.nodes {
        SessionsKeepReports(c.nodes[n], u, now, origin);
      }
  }

  lemma HeadFirst(users: set<User>, w: seq<Delta>)
    requires w != []
    ensures ApplyAll(users, w) == ApplyAll(Apply(users, w[0]), w[1..])
  {}

  lemma SessionsKeepReports(p: State, u: User, now: Time, n: Node)
    ensures Reported(Connect(p, u), n) == Reported(p, n) == Reported(Disconnect(p, u, now), n)
  {}

  lemma {:induction false} PublishedRun(c: Cluster, events: seq<Event>, origin: Node, to: Node)
    requires Shaped(c) && origin in c.nodes && to in c.nodes && origin != to
    ensures Heard(Run(c, events), origin, to) == ApplyAll(Heard(c, origin, to), PublishedIn(c, events, origin))
    decreases events
  {
    if events != [] {
      hide Step, Heard, Published, ApplyAll;
      PublishedStep(c, events[0], origin, to);
      PublishedRun(Step(c, events[0]), events[1..], origin, to);
      ApplyAllOfConcat(Heard(c, origin, to), Published(c, events[0], origin),
                       PublishedIn(Step(c, events[0]), events[1..], origin));
    } else {
      ApplyNothing(Heard(c, origin, to));
    }
  }

  lemma StartHeard(ids: set<Node>, n: Node, m: Node)
    requires n in ids && m in ids
    ensures var c := Start(ids);
            n in c.nodes && m in c.nodes && AllWf(c) && LocalUsers(c.nodes[n]) == {} && Heard(c, n, m) == {}
  {
    StartFacts(ids, m, n);
    StartFacts(ids, n, m);
    forall x | x in Start(ids).nodes
      ensures Wf(Start(ids).nodes[x])
    {
      StartFacts(ids, x, x);
    }
  }

  /** The two histories leave the same users online: the last notice published about a user says "online"
      exactly when the last one decided does. Ending on "offline" and saying nothing at all count alike. */
  ghost predicate SameLastWords(published: seq<Delta>, decided: seq<Delta>) {
    forall u :: LastWord(published, u) == Some(true) <==> LastWord(decided, u) == Some(true)
  }

  lemma SameSetIffSameWords(a: seq<Delta>, b: seq<Delta>)
    ensures ApplyAll({}, a) == ApplyAll({}, b) <==> SameLastWords(a, b)
  {
    forall u
      ensures (u in ApplyAll({}, a) <==> LastWord(a, u) == Some(true)) &&
                (u in ApplyAll({}, b) <==> LastWord(b, u) == Some(true))
    {
      LastWordDecides({}, a, u);
      LastWordDecides({}, b, u);
    }
    hide ApplyAll, LastWord;
  }

  /** In every run that ends drained, a node's view of another is right if and only if that node's
      last published word about every user is its last decided one. */
  lemma ViewIsRightIff(ids: set<Node>, events: seq<Event>, n: Node, m: Node)
    requires n in ids && m in ids && n != m
    requires Drained(Run(Start(ids), events))
    ensures var c := Run(Start(ids), events);
            && n in Start(ids).nodes && n in c.nodes && m in c.nodes
            && (Reported(c.nodes[m], n) == LocalUsers(c.nodes[n]) <==>
                SameLastWords(PublishedIn(Start(ids), events, n), DecidedIn(Start(ids), events, n)))
  {
    var s := Start(ids);
    StartHeard(ids, n, m);
    hide Start;
    DecidedRun(s, events, n);
    PublishedRun(s, events, n, m);
    var c := Run(s, events);
    hide Run, SameLastWords, LocalUsers, DecidedIn, PublishedIn, AllWf;
    assert c.wire[(n, m)] == [];
    ApplyNothing(Reported(c.nodes[m], n));
    SameSetIffSameWords(PublishedIn(s, events, n), DecidedIn(s, events, n));
  }
}
