/** The two-way indexes under real-time delivery: connections by user (`realtime/session_manager.cpp`)
    and connections by room (`realtime/room_manager.cpp`). */
module Registries {
  import opened Options
  import opened Ids

  datatype Version = V1 | V2

  datatype Session = Session(user: User, version: Version)

  type ByConn = map<Conn, Session>
  type ByUser = map<User, set<Conn>>
  type Rooms = map<Room, set<Conn>>
  type Membership = map<Conn, set<Room>>

  // ----- What the indexes must agree on -----

  /** `byUser` is exactly the grouping of `byConn` by user. */
  ghost predicate Grouped(byConn: ByConn, byUser: ByUser) {
    && (forall u :: u in byUser ==> byUser[u] != {})
    && (forall u, c :: c in At(byUser, u) <==> c in byConn && byConn[c].user == u)
  }

  /** Rooms and memberships are converse relations and no empty room is kept. */
  ghost predicate Converse(rooms: Rooms, membership: Membership) {
    && (forall r :: r in rooms ==> rooms[r] != {})
    && (forall r, c :: c in At(rooms, r) <==> r in At(membership, c))
  }

  /** The set stored under a key, or no elements. */
  function At<K, V>(m: map<K, set<V>>, k: K): (s: set<V>) { if k in m then m[k] else {} }

  function Elements<V>(s: seq<V>): (r: set<V>) { set v | v in s }

  function Insert<K(!new), V>(m: map<K, set<V>>, k: K, v: V): (r: map<K, set<V>>)
    ensures forall j :: At(r, j) == if j == k then At(m, k) + {v} else At(m, j)
    ensures forall j :: j in r ==> j == k || (j in m && r[j] == m[j])
  {
    m[k := At(m, k) + {v}]
  }

  /** Erase a value, and the key with it when nothing is left. */
  function Erase<K(!new), V>(m: map<K, set<V>>, k: K, v: V): (r: map<K, set<V>>)
    ensures forall j :: At(r, j) == if j == k then At(m, k) - {v} else At(m, j)
    ensures forall j :: j in r ==> j in m && (m[j] != {} ==> r[j] != {})
  {
    if k !in m then m
    else if m[k] - {v} == {} then m - {k}
    else m[k := m[k] - {v}]
  }

  // ----- Connections by user -----

  /** Registering keeps the grouping exactly when the connection is new or stays with its user. */
  lemma AddKeepsGroupingIff(byConn: ByConn, byUser: ByUser, c: Conn, s: Session)
    requires Grouped(byConn, byUser)
    ensures Grouped(byConn[c := s], Insert(byUser, s.user, c)) <==> c !in byConn || byConn[c].user == s.user
  {
    var r := Insert(byUser, s.user, c);
    assert forall u :: u in r ==> r[u] == At(r, u);
    if c in byConn && byConn[c].user != s.user {
      var u := byConn[c].user;
      assert c in At(byUser, u);
      assert c in At(r, u) && byConn[c := s][c].user != u;
    }
  }

  /** A connection registered for one user and then for another is still listed under the first. */
  lemma ReregisteringLeavesStaleEntry(c: Conn, u: User, v: User, version: Version)
    requires u != v
    ensures var byConn, byUser := map[c := Session(u, version)], Insert(map[], u, c);
            var again, users := byConn[c := Session(v, version)], Insert(byUser, v, c);
            && Grouped(byConn, byUser)
            && c in At(users, u) && again[c].user == v && !Grouped(again, users)
  {
    AddKeepsGroupingIff(map[], map[], c, Session(u, version));
    var byConn, byUser := map[c := Session(u, version)], Insert(map[], u, c);
    assert map[][c := Session(u, version)] == byConn;
    AddKeepsGroupingIff(byConn, byUser, c, Session(v, version));
  }

  lemma RemoveKeepsGrouping(byConn: ByConn, byUser: ByUser, c: Conn)
    requires Grouped(byConn, byUser) && c in byConn
    ensures Grouped(byConn - {c}, Erase(byUser, byConn[c].user, c))
  {
    var r := Erase(byUser, byConn[c].user, c);
    forall u, d
      ensures d in At(r, u) <==> d in byConn - {c} && (byConn - {c})[d].user == u
    {
      assert d in At(byUser, u) <==> d in byConn && byConn[d].user == u;
    }
  }

  class SessionManager {
    var byConn: ByConn
    var byUser: ByUser

    ghost predicate Valid()
      reads this
    {
      Grouped(byConn, byUser)
    }

    constructor ()
      ensures Valid() && byConn == map[] && byUser == map[]
    {
      byConn, byUser := map[], map[];
    }

    method Add(c: Conn, s: Session)
      modifies this
      ensures byConn == old(byConn)[c := s] && byUser == Insert(old(byUser), s.user, c)
      ensures old(Valid()) ==> (Valid() <==> c !in old(byConn) || old(byConn)[c].user == s.user)
    {
      if Grouped(byConn, byUser) {
        AddKeepsGroupingIff(byConn, byUser, c, s);
      }
      byConn := byConn[c := s];
      byUser := byUser[s.user := (if s.user in byUser then byUser[s.user] else {}) + {c}];
    }

    method Remove(c: Conn) returns (s: Option<Session>)
      modifies this
      ensures byConn == old(byConn) - {c}
      ensures byUser == if c in old(byConn) then Erase(old(byUser), old(byConn)[c].user, c) else old(byUser)
      ensures s == (if c in old(byConn) then Some(old(byConn)[c]) else None)
      ensures old(Valid()) ==> Valid() && forall u :: c !in At(byUser, u)
    {
      if c !in byConn {
        assert byConn == old(byConn) - {c};
        return None;
      }
      s := Some(byConn[c]);
      var u := byConn[c].user;
      if Grouped(byConn, byUser) {
        RemoveKeepsGrouping(byConn, byUser, c);
      }
      byConn := byConn - {c};
      if u in byUser {
        byUser := byUser[u := byUser[u] - {c}];
        if byUser[u] == {} {
          byUser := byUser - {u};
        }
      }
      assert byUser == Erase(old(byUser), u, c);
    }

    /** Each session found under the user once, in no particular order. */
    method SessionsForUser(u: User) returns (out: seq<(Conn, Session)>)
      ensures forall i, j :: 0 <= i < j < |out| ==> out[i].0 != out[j].0
      ensures forall p :: p in out <==> p.0 in At(byUser, u) && p.0 in byConn && byConn[p.0] == p.1
    {
      out := [];
      if u !in byUser {
        return;
      }
      var rest := byUser[u];
      while rest != {}
        invariant rest <= byUser[u]
        invariant forall i, j :: 0 <= i < j < |out| ==> out[i].0 != out[j].0
        invariant forall p :: p in out <==> p.0 in byUser[u] - rest && p.0 in byConn && byConn[p.0] == p.1
        decreases |rest|
      {
        var c :| c in rest;
        rest := rest - {c};
        if c in byConn {
          ghost var before := out;
          out := out + [(c, byConn[c])];
          assert forall p :: p in out <==> p in before || p == (c, byConn[c]);
        }
      }
    }

    /** The live sessions among the given connections, in their order. */
    method SessionsFor(connections: seq<Conn>) returns (out: seq<(Conn, Session)>)
      ensures out == SessionsAmong(byConn, connections)
    {
      out := [];
      for k := 0 to |connections|
        invariant out == SessionsAmong(byConn, connections[..k])
      {
        var c := connections[k];
        assert connections[..k + 1][..k] == connections[..k];
        if c in byConn {
          out := out + [(c, byConn[c])];
        }
      }
      assert connections[..|connections|] == connections;
    }
  }

  function SessionsAmong(byConn: ByConn, connections: seq<Conn>): (out: seq<(Conn, Session)>) {
    if connections == [] then []
    else
      var n := |connections| - 1;
      SessionsAmong(byConn, connections[..n]) +
      if connections[n] in byConn then [(connections[n], byConn[connections[n]])] else []
  }

  /** Exactly the registered ones among the connections, and each once when the connections are distinct. */
  lemma {:induction false} SessionsAmongAre(byConn: ByConn, connections: seq<Conn>)
    ensures forall p :: p in SessionsAmong(byConn, connections) <==>
              p.0 in connections && p.0 in byConn && byConn[p.0] == p.1
    ensures (forall i, j :: 0 <= i < j < |connections| ==> connections[i] != connections[j]) ==>
              forall i, j :: 0 <= i < j < |SessionsAmong(byConn, connections)| ==>
                SessionsAmong(byConn, connections)[i].0 != SessionsAmong(byConn, connections)[j].0
  {
    if connections == [] {
    } else {
      var n := |connections| - 1;
      SessionsAmongAre(byConn, connections[..n]);
      assert connections == connections[..n] + [connections[n]];
      var init := SessionsAmong(byConn, connections[..n]);
      forall i | 0 <= i < |init|
        ensures init[i].0 in connections[..n]
      {
        assert init[i] in init;
      }
    }
  }

  // ----- Connections by room -----

  lemma JoinKeepsConverse(rooms: Rooms, membership: Membership, r: Room, c: Conn)
    requires Converse(rooms, membership)
    ensures Converse(Insert(rooms, r, c), Insert(membership, c, r))
  {}

  lemma LeaveKeepsConverse(rooms: Rooms, membership: Membership, r: Room, c: Conn)
    requires Converse(rooms, membership)
    ensures Converse(Erase(rooms, r, c), Erase(membership, c, r))
  {}

  /** The rooms after joining those in `ids` one after the other. */
  function JoinAll(rooms: Rooms, ids: seq<Room>, c: Conn): (r: Rooms) {
    if ids == [] then rooms else Insert(JoinAll(rooms, ids[..|ids| - 1], c), ids[|ids| - 1], c)
  }

  lemma {:induction false} JoinAllJoins(rooms: Rooms, ids: seq<Room>, c: Conn)
    requires forall r :: r in rooms ==> rooms[r] != {}
    ensures JoinedTo(rooms, JoinAll(rooms, ids, c), ids, c)
  {
    if ids == [] {
    } else {
      var n := |ids| - 1;
      JoinAllJoins(rooms, ids[..n], c);
      assert ids == ids[..n] + [ids[n]];
      hide Insert, JoinedTo;
      JoinedOneMore(rooms, JoinAll(rooms, ids[..n], c), ids[..n], ids[n], c);
    }
  }

  lemma JoinManyKeepsConverse(rooms: Rooms, membership: Membership, after: Rooms, ids: seq<Room>, c: Conn)
    requires Converse(rooms, membership) && JoinedTo(rooms, after, ids, c)
    ensures Converse(after, membership[c := At(membership, c) + Elements(ids)])
  {
    var m := membership[c := At(membership, c) + Elements(ids)];
    forall r, d
      ensures d in At(after, r) <==> r in At(m, d)
    {
      assert d in At(rooms, r) <==> r in At(membership, d);
    }
  }

  /** Taking a connection out of every room it is a member of takes it out of every room. */
  lemma LeaveAllKeepsConverse(rooms: Rooms, membership: Membership, after: Rooms, c: Conn)
    requires Converse(rooms, membership)
    requires forall r :: r in after ==> after[r] != {}
    requires forall r :: At(after, r) == At(rooms, r) - {c}
    ensures Converse(after, membership - {c}) && forall r :: c !in At(after, r)
  {
    forall r, d
      ensures d in At(after, r) <==> r in At(membership - {c}, d)
    {
      assert d in At(rooms, r) <==> r in At(membership, d);
    }
  }

  /** The rooms with `c` erased from those in `ids`, and no empty room. */
  ghost predicate ErasedFrom(rooms: Rooms, after: Rooms, ids: set<Room>, c: Conn) {
    && (forall r :: r in after ==> after[r] != {})
    && forall r :: At(after, r) == if r in ids then At(rooms, r) - {c} else At(rooms, r)
  }

  lemma ErasedOneMore(rooms: Rooms, after: Rooms, r: Room, ids: set<Room>, c: Conn)
    requires ErasedFrom(rooms, after, ids, c)
    ensures ErasedFrom(rooms, Erase(after, r, c), ids + {r}, c)
  {
    hide Erase;
    assert forall q :: q in after ==> after[q] == At(after, q);
  }

  /** The rooms with `c` added to those in `ids`, and no empty room. */
  ghost predicate JoinedTo(rooms: Rooms, after: Rooms, ids: seq<Room>, c: Conn) {
    && (forall r :: r in after ==> after[r] != {})
    && forall r :: At(after, r) == if r in ids then At(rooms, r) + {c} else At(rooms, r)
  }

  lemma JoinedOneMore(rooms: Rooms, after: Rooms, ids: seq<Room>, r: Room, c: Conn)
    requires JoinedTo(rooms, after, ids, c)
    ensures JoinedTo(rooms, Insert(after, r, c), ids + [r], c)
  {
    var more := Insert(after, r, c);
    hide Insert;
    assert forall q :: q in more ==> more[q] == At(more, q);
  }

  class RoomManager {
    var rooms: Rooms
    var membership: Membership

    ghost predicate Valid()
      reads this
    {
      Converse(rooms, membership)
    }

    constructor ()
      ensures Valid() && rooms == map[] && membership == map[]
    {
      rooms, membership := map[], map[];
    }

    method Join(r: Room, c: Conn)
      requires Valid()
      modifies this
      ensures Valid() && rooms == Insert(old(rooms), r, c) && membership == Insert(old(membership), c, r)
    {
      JoinKeepsConverse(rooms, membership, r, c);
      rooms := rooms[r := (if r in rooms then rooms[r] else {}) + {c}];
      membership := membership[c := (if c in membership then membership[c] else {}) + {r}];
    }

    method AddToRoom(r: Room, c: Conn)
      modifies this`rooms
      ensures rooms == Insert(old(rooms), r, c)
    {
      rooms := rooms[r := (if r in rooms then rooms[r] else {}) + {c}];
    }

    /** Joins every room; with no rooms the connection is left with an empty membership entry. */
    method JoinMany(ids: seq<Room>, c: Conn)
      requires Valid()
      modifies this
      ensures Valid() && JoinedTo(old(rooms), rooms, ids, c)
      ensures membership == old(membership)[c := At(old(membership), c) + Elements(ids)]
    {
      var joined := if c in membership then membership[c] else {};
      assert JoinedTo(rooms, rooms, ids[..0], c);
      hide Insert, JoinedTo;
      for k := 0 to |ids|
        invariant membership == old(membership)
        invariant joined == At(membership, c) + Elements(ids[..k])
        invariant JoinedTo(old(rooms), rooms, ids[..k], c)
      {
        assert ids[..k + 1] == ids[..k] + [ids[k]];
        JoinedOneMore(old(rooms), rooms, ids[..k], ids[k], c);
        AddToRoom(ids[k], c);
        joined := joined + {ids[k]};
      }
      assert ids[..|ids|] == ids;
      JoinManyKeepsConverse(old(rooms), membership, rooms, ids, c);
      membership := membership[c := joined];
    }

    method EraseFromRoom(r: Room, c: Conn)
      modifies this`rooms
      ensures rooms == Erase(old(rooms), r, c)
    {
      if r in rooms {
        rooms := rooms[r := rooms[r] - {c}];
        if rooms[r] == {} {
          rooms := rooms - {r};
        }
      }
    }

    method Leave(r: Room, c: Conn)
      requires Valid()
      modifies this
      ensures Valid() && rooms == Erase(old(rooms), r, c) && membership == Erase(old(membership), c, r)
    {
      LeaveKeepsConverse(rooms, membership, r, c);
      EraseFromRoom(r, c);
      if c in membership {
        membership := membership[c := membership[c] - {r}];
        if membership[c] == {} {
          membership := membership - {c};
        }
      }
      assert membership == Erase(old(membership), c, r);
    }

    method LeaveAll(c: Conn)
      requires Valid()
      modifies this
      ensures Valid() && membership == old(membership) - {c}
      ensures forall r :: At(rooms, r) == At(old(rooms), r) - {c}
    {
      if c in membership {
        var mine := membership[c];
        EraseFromRooms(mine, c);
        membership := membership - {c};
      }
      forall r
        ensures At(rooms, r) == At(old(rooms), r) - {c}
      {
        assert c in At(old(rooms), r) <==> r in At(old(membership), c);
      }
      LeaveAllKeepsConverse(old(rooms), old(membership), rooms, c);
      assert membership == old(membership) - {c};
    }

    method EraseFromRooms(ids: set<Room>, c: Conn)
      requires forall r :: r in rooms ==> rooms[r] != {}
      modifies this`rooms
      ensures ErasedFrom(old(rooms), rooms, ids, c)
    {
      var rest := ids;
      ghost var first, cleared: set<Room> := rooms, {};
      assert ErasedFrom(first, rooms, cleared, c);
      hide ErasedFrom;
      while rest != {}
        invariant cleared + rest == ids
        invariant ErasedFrom(first, rooms, cleared, c)
        decreases |rest|
      {
        var r :| r in rest;
        EraseFromOneMore(r, c, first, cleared);
        cleared := cleared + {r};
        rest := rest - {r};
      }
      assert cleared == ids;
    }

    method EraseFromOneMore(r: Room, c: Conn, ghost first: Rooms, ghost cleared: set<Room>)
      requires ErasedFrom(first, rooms, cleared, c)
      modifies this`rooms
      ensures ErasedFrom(first, rooms, cleared + {r}, c)
    {
      hide ErasedFrom, Erase;
      ErasedOneMore(first, rooms, r, cleared, c);
      EraseFromRoom(r, c);
    }

    method ConnectionsInRoom(r: Room) returns (out: seq<Conn>)
      ensures forall i, j :: 0 <= i < j < |out| ==> out[i] != out[j]
      ensures forall c :: c in out <==> c in At(rooms, r)
    {
      out := [];
      if r in rooms {
        var rest := rooms[r];
        while rest != {}
          invariant rest <= rooms[r]
          invariant forall i, j :: 0 <= i < j < |out| ==> out[i] != out[j]
          invariant forall c :: c in out <==> c in rooms[r] - rest
          decreases |rest|
        {
          var c :| c in rest;
          rest := rest - {c};
          ghost var before := out;
          out := out + [c];
          assert forall d :: d in out <==> d in before || d == c;
        }
      }
    }
  }
}
