/** One replica's presence state (`services/presence_service.cpp`): live sessions counted per
    user on this node, and for every other node the users it has reported online. */
module Presence {
  import opened Options
  import opened Ids

  type Time = int

  /** "This node now has / no longer has a live session of the user." */
  datatype Delta = Delta(user: User, online: bool)

  datatype State = State(sessions: map<User, int>, remote: map<Node, set<User>>, lastSeen: map<User, Time>)

  // ----- What the state means -----

  /** Only positive counts and only non-empty reports are kept. */
  predicate Wf(p: State) {
    && (forall u :: u in p.sessions ==> p.sessions[u] > 0)
    && (forall n :: n in p.remote ==> p.remote[n] != {})
  }

  function Count(p: State, u: User): (c: int) { if u in p.sessions then p.sessions[u] else 0 }

  function LocalUsers(p: State): (s: set<User>) { set u | u in p.sessions && p.sessions[u] > 0 }

  function Reported(p: State, n: Node): (s: set<User>) { if n in p.remote then p.remote[n] else {} }

  function RemoteUsers(p: State): (s: set<User>) {
    UsersOf(p.remote, p.remote.Keys)
  }

  function UsersOf(remote: map<Node, set<User>>, nodes: set<Node>): (s: set<User>)
    requires nodes <= remote.Keys
  {
    set n, u | n in nodes && u in remote[n] :: u
  }

  lemma UsersOfOneMore(remote: map<Node, set<User>>, nodes: set<Node>, n: Node)
    requires nodes <= remote.Keys && n in remote
    ensures UsersOf(remote, nodes + {n}) == UsersOf(remote, nodes) + remote[n]
  {
    forall u | u in remote[n]
      ensures u in UsersOf(remote, nodes + {n})
    {
      assert n in nodes + {n} && u in remote[n];
    }
  }

  lemma UsersOfNone(remote: map<Node, set<User>>)
    ensures UsersOf(remote, {}) == {}
  {}

  /** The distinct users this node believes online somewhere. */
  function OnlineUsers(p: State): (s: set<User>) { LocalUsers(p) + RemoteUsers(p) }

  // ----- What each operation does to the state -----

  function Connect(p: State, u: User): (q: State) {
    p.(sessions := p.sessions[u := Count(p, u) + 1])
  }

  function Disconnect(p: State, u: User, now: Time): (q: State) {
    if Count(p, u) == 0 then p
    else if Count(p, u) > 1 then p.(sessions := p.sessions[u := Count(p, u) - 1])
    else p.(sessions := p.sessions - {u},
            lastSeen := if u in RemoteUsers(p) then p.lastSeen else p.lastSeen[u := now])
  }

  /** Peers are told of this node's first and last session of a user, and of nothing else. */
  function ConnectNotice(p: State, u: User): (d: Option<Delta>) {
    if Count(p, u) == 0 then Some(Delta(u, true)) else None
  }

  function DisconnectNotice(p: State, u: User): (d: Option<Delta>) {
    if Count(p, u) == 1 then Some(Delta(u, false)) else None
  }

  function WithReport(remote: map<Node, set<User>>, n: Node, users: set<User>): (r: map<Node, set<User>>) {
    if users == {} then remote - {n} else remote[n := users]
  }

  function ApplyRemote(p: State, n: Node, d: Delta, now: Time): (q: State) {
    if d.online then p.(remote := WithReport(p.remote, n, Reported(p, n) + {d.user}))
    else if n !in p.remote then p
    else
      var q := p.(remote := WithReport(p.remote, n, Reported(p, n) - {d.user}));
      if d.user in OnlineUsers(q) then q else q.(lastSeen := q.lastSeen[d.user := now])
  }

  /** A delta moves exactly one user of exactly one report, whatever was in the map before. */
  lemma ApplyRemoteEffect(p: State, n: Node, d: Delta, now: Time)
    ensures var q := ApplyRemote(p, n, d, now);
            && Reported(q, n) == (if d.online then Reported(p, n) + {d.user} else Reported(p, n) - {d.user})
            && (forall m :: m != n ==> Reported(q, m) == Reported(p, m))
            && q.sessions == p.sessions
            && q.remote.Keys <= p.remote.Keys + {n}
            && (Wf(p) ==> Wf(q))
  {}

  /** Nobody but `n` is known to hold the user. */
  ghost predicate NowhereBut(p: State, n: Node, u: User) {
    u !in LocalUsers(p) && forall m :: m in p.remote && m != n ==> u !in p.remote[m]
  }

  /** A delta stamps last-seen, with its own time and for its own user, exactly when it is an offline
      delta from a node with a report and nobody but that node was known to hold the user. */
  lemma ApplyRemoteStamps(p: State, n: Node, d: Delta, now: Time)
    ensures ApplyRemote(p, n, d, now).lastSeen ==
            if !d.online && n in p.remote && NowhereBut(p, n, d.user) then p.lastSeen[d.user := now] else p.lastSeen
  {
    if !d.online && n in p.remote {
      OfflineDelta(p, n, d.user, now);
    }
  }

  lemma OfflineDelta(p: State, n: Node, u: User, now: Time)
    ensures u in OnlineUsers(ApplyRemote(p, n, Delta(u, false), now)) <==> !NowhereBut(p, n, u)
  {
    var q := ApplyRemote(p, n, Delta(u, false), now);
    ApplyRemoteEffect(p, n, Delta(u, false), now);
    assert LocalUsers(q) == LocalUsers(p);
    hide ApplyRemote, LocalUsers;
    forall m
      ensures m in q.remote && u in q.remote[m] <==> m != n && m in p.remote && u in p.remote[m]
    {
      assert m != n ==> Reported(q, m) == Reported(p, m);
      assert u !in Reported(q, n);
    }
  }

  /** The stamp says that the user's last known session ended, except for exactly one kind of delta: an
      offline delta for a user the node had not reported, while it reported somebody else. */
  lemma StampEndsSessionIff(p: State, n: Node, d: Delta, now: Time)
    ensures var q := ApplyRemote(p, n, d, now);
            var stamped := !d.online && n in p.remote && NowhereBut(p, n, d.user);
            (stamped <==> d.user in OnlineUsers(p) && d.user !in OnlineUsers(q)) <==>
            !(stamped && d.user !in p.remote[n])
  {
    var q := ApplyRemote(p, n, d, now);
    if d.online {
      assert n in q.remote && d.user in q.remote[n];
    } else {
      OfflineDelta(p, n, d.user, now);
      assert n !in p.remote ==> q == p;
    }
  }

  /** Such a delta: the user was online nowhere, and is stamped all the same. */
  lemma RedundantDeltaStamps(n: Node, u: User, v: User, now: Time)
    requires u != v
    ensures var p := State(map[], map[n := {v}], map[]);
            u !in OnlineUsers(p) && ApplyRemote(p, n, Delta(u, false), now).lastSeen == map[u := now]
  {
    var p := State(map[], map[n := {v}], map[]);
    assert NowhereBut(p, n, u);
    ApplyRemoteStamps(p, n, Delta(u, false), now);
  }

  /** A disconnect stamps last-seen exactly when it closes this node's last session of the user and no
      other node has reported them. */
  lemma DisconnectStamps(p: State, u: User, now: Time)
    requires Wf(p)
    ensures Disconnect(p, u, now).lastSeen ==
            if Count(p, u) == 1 && (forall n :: n in p.remote ==> u !in p.remote[n]) then p.lastSeen[u := now]
            else p.lastSeen
  {
    assert u in RemoteUsers(p) <==> exists n :: n in p.remote && u in p.remote[n];
  }

  // ----- The service -----

  class PresenceService {
    var sessions: map<User, int>
    var remote: map<Node, set<User>>
    var lastSeen: map<User, Time>

    ghost function View(): (p: State)
      reads this
    {
      State(sessions, remote, lastSeen)
    }

    constructor ()
      ensures View() == State(map[], map[], map[]) && Wf(View())
    {
      sessions, remote, lastSeen := map[], map[], map[];
    }

    method OnlineRemotely(u: User) returns (r: bool)
      ensures r <==> u in RemoteUsers(View())
    {
      var nodes := remote.Keys;
      while nodes != {}
        invariant nodes <= remote.Keys
        invariant forall n :: n in remote && u in remote[n] ==> n in nodes
        decreases |nodes|
      {
        var n :| n in nodes;
        if u in remote[n] {
          return true;
        }
        nodes := nodes - {n};
      }
      return false;
    }

    method IsOnline(u: User) returns (r: bool)
      ensures r <==> u in OnlineUsers(View())
    {
      if u in sessions && sessions[u] > 0 {
        return true;
      }
      r := OnlineRemotely(u);
    }

    method OnConnect(u: User) returns (becameOnline: bool, notice: Option<Delta>)
      requires Wf(View())
      modifies this
      ensures View() == Connect(old(View()), u) && Wf(View())
      ensures becameOnline <==> u !in old(OnlineUsers(View()))
      ensures notice == ConnectNotice(old(View()), u)
    {
      var wasOnline := IsOnline(u);
      var previous := if u in sessions then sessions[u] else 0;
      sessions := sessions[u := previous + 1];
      becameOnline := !wasOnline;
      notice := if previous == 0 then Some(Delta(u, true)) else None;
    }

    method OnDisconnect(u: User, now: Time) returns (becameOffline: bool, notice: Option<Delta>)
      requires Wf(View())
      modifies this
      ensures View() == Disconnect(old(View()), u, now) && Wf(View())
      ensures becameOffline <==> u in old(LocalUsers(View())) && u !in OnlineUsers(View())
      ensures notice == DisconnectNotice(old(View()), u)
    {
      if u !in sessions || sessions[u] == 0 {
        return false, None;
      }
      sessions := sessions[u := sessions[u] - 1];
      if sessions[u] > 0 {
        assert u in LocalUsers(View());
        return false, None;
      }
      sessions := sessions - {u};
      var elsewhere := OnlineRemotely(u);
      becameOffline := !elsewhere;
      if becameOffline {
        lastSeen := lastSeen[u := now];
      }
      notice := Some(Delta(u, false));
      assert sessions == old(sessions) - {u};
    }

    method OnDelta(n: Node, d: Delta, now: Time)
      requires Wf(View())
      modifies this
      ensures View() == ApplyRemote(old(View()), n, d, now) && Wf(View())
    {
      if d.online {
        remote := remote[n := (if n in remote then remote[n] else {}) + {d.user}];
        return;
      }
      if n !in remote {
        return;
      }
      remote := remote[n := remote[n] - {d.user}];
      if remote[n] == {} {
        remote := remote - {n};
      }
      assert remote == WithReport(old(remote), n, Reported(old(View()), n) - {d.user});
      var online := IsOnline(d.user);
      if !online {
        lastSeen := lastSeen[d.user := now];
      }
    }

    method CollectLocal() returns (distinct: set<User>)
      ensures distinct == LocalUsers(View())
    {
      distinct := {};
      var users := sessions.Keys;
      while users != {}
        invariant users <= sessions.Keys
        invariant distinct == LocalUsers(View()) - users
        decreases |users|
      {
        var u :| u in users;
        users := users - {u};
        if sessions[u] > 0 {
          distinct := distinct + {u};
        }
      }
    }

    method CollectReported(start: set<User>) returns (distinct: set<User>)
      ensures distinct == start + RemoteUsers(View())
    {
      hide UsersOf;
      distinct := start;
      var nodes := remote.Keys;
      while nodes != {}
        invariant nodes <= remote.Keys
        invariant distinct + UsersOf(remote, nodes) == start + RemoteUsers(View())
        decreases |nodes|
      {
        var n :| n in nodes;
        UsersOfOneMore(remote, nodes - {n}, n);
        assert nodes - {n} + {n} == nodes;
        nodes := nodes - {n};
        distinct := distinct + remote[n];
      }
      UsersOfNone(remote);
    }

    /** The shortcut for a node that knows no peers and the counting loops agree: each user once. */
    method OnlineCount() returns (count: nat)
      requires Wf(View())
      ensures count == |OnlineUsers(View())|
    {
      if remote == map[] {
        UsersOfNone(remote);
        assert remote.Keys == {};
        assert LocalUsers(View()) == sessions.Keys;
        return |sessions|;
      }
      var distinct := CollectLocal();
      distinct := CollectReported(distinct);
      return |distinct|;
    }
  }
}
