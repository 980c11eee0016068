/** Direct and group conversations (`services/conversation_service.cpp` over
    `repositories/pg_conversation_repository.cpp`). A service call is one atomic step on the tables:
    each conversation row is held together with the participant rows that cascade with it. */
module Conversations {
  import opened Options
  import opened Ids
  import opened Decimal

  datatype ConvId = ConvId(n: nat)
  datatype Key = Key(text: string)
  datatype Kind = Direct | Group
  datatype Role = Owner | Member

  datatype Participant = Participant(id: nat, user: User, role: Role, joinedAt: int)

  datatype Chat = Chat(kind: Kind, owner: Option<User>, key: Option<Key>, members: seq<Participant>)

  /** The tables; `keys` is the unique index on the direct key, and the two counters are the id
      sequences of conversations and of participants. */
  datatype State = State(users: set<User>, chats: map<ConvId, Chat>, keys: map<Key, ConvId>, nextConv: nat,
                         nextRow: nat)

  datatype Error = Validation | NotFound | Authorization | Conflict | Database

  datatype Outcome = Done(chat: ConvId) | Refused(error: Error)

  // ----- The key of a direct conversation -----

  /** Both ids in decimal, the smaller first. */
  function DirectKey(a: User, b: User): (k: Key) {
    if a.id <= b.id then Key(IntToString(a.id) + ":" + IntToString(b.id))
    else Key(IntToString(b.id) + ":" + IntToString(a.id))
  }

  lemma OrderedKeysDiffer(a: int, b: int, c: int, d: int)
    requires IntToString(a) + ":" + IntToString(b) == IntToString(c) + ":" + IntToString(d)
    ensures a == c && b == d
  {
    hide IntToString;
    IntToStringHasNoColon(a);
    IntToStringHasNoColon(c);
    ColonSplitsOnce(IntToString(a), IntToString(b), IntToString(c), IntToString(d));
    IntToStringIsInjective(a, c);
    IntToStringIsInjective(b, d);
  }

  /** Two pairs have the same key exactly when they are the same two users. */
  lemma DirectKeyIsInjective(a: User, b: User, c: User, d: User)
    ensures DirectKey(a, b) == DirectKey(c, d) <==> ((a == c && b == d) || (a == d && b == c))
  {
    if DirectKey(a, b) == DirectKey(c, d) {
      hide IntToString;
      var p, q := if a.id <= b.id then (a, b) else (b, a), if c.id <= d.id then (c, d) else (d, c);
      OrderedKeysDiffer(p.0.id, p.1.id, q.0.id, q.1.id);
    }
  }

  // ----- Participant lists -----

  predicate HasUser(m: seq<Participant>, u: User) { exists p :: p in m && p.user == u }

  /** INSERT ... ON CONFLICT (conversation, user) DO NOTHING. */
  function AddIfAbsent(m: seq<Participant>, p: Participant): (r: seq<Participant>) {
    if HasUser(m, p.user) then m else m + [p]
  }

  function Drop(m: seq<Participant>, u: User): (r: seq<Participant>) {
    if m == [] then [] else (if m[0].user == u then [] else [m[0]]) + Drop(m[1..], u)
  }

  function Promoted(p: Participant, w: User): (r: Participant) {
    if p.user == w then p.(role := Owner) else if p.role == Owner then p.(role := Member) else p
  }

  /** Demotes whoever is owner and promotes `w`. */
  function Transfer(m: seq<Participant>, w: User): (r: seq<Participant>)
    ensures |r| == |m| && forall i :: 0 <= i < |m| ==> r[i] == Promoted(m[i], w)
  {
    seq(|m|, i requires 0 <= i < |m| => Promoted(m[i], w))
  }

  /** UPDATE ... SET role = 'member' WHERE role = 'owner' AND user_id <> w. */
  function DemoteOthers(m: seq<Participant>, w: User): (r: seq<Participant>)
    ensures |r| == |m|
  {
    seq(|m|, i requires 0 <= i < |m| => if m[i].role == Owner && m[i].user != w then m[i].(role := Member) else m[i])
  }

  /** UPDATE ... SET role = 'owner' WHERE user_id = w. */
  function Promote(m: seq<Participant>, w: User): (r: seq<Participant>)
    ensures |r| == |m|
  {
    seq(|m|, i requires 0 <= i < |m| => if m[i].user == w then m[i].(role := Owner) else m[i])
  }

  /** The two updates in turn make `w` the owner and everyone else a member. */
  lemma DemoteThenPromote(m: seq<Participant>, w: User)
    ensures Promote(DemoteOthers(m, w), w) == Transfer(m, w)
    ensures forall i :: 0 <= i < |m| ==> (Transfer(m, w)[i].role == Owner <==> m[i].user == w)
  {}

  predicate JoinedBefore(p: Participant, q: Participant) {
    p.joinedAt < q.joinedAt || (p.joinedAt == q.joinedAt && p.id < q.id)
  }

  function InsertByJoin(p: Participant, m: seq<Participant>): (r: seq<Participant>)
    ensures |r| == |m| + 1
  {
    if m == [] then [p] else if JoinedBefore(p, m[0]) then [p] + m else [m[0]] + InsertByJoin(p, m[1..])
  }

  /** ORDER BY joined_at ASC, id ASC. */
  function ByJoin(m: seq<Participant>): (r: seq<Participant>)
    ensures |r| == |m|
  {
    if m == [] then [] else InsertByJoin(m[0], ByJoin(m[1..]))
  }

  function FirstOther(m: seq<Participant>, u: User): (r: Option<Participant>) {
    if m == [] then None else if m[0].user != u then Some(m[0]) else FirstOther(m[1..], u)
  }

  predicate Ordered(m: seq<Participant>) { forall i, j :: 0 <= i < j < |m| ==> !JoinedBefore(m[j], m[i]) }

  lemma {:induction false} InsertKeepsMembers(p: Participant, m: seq<Participant>)
    ensures forall q :: q in InsertByJoin(p, m) <==> q == p || q in m
  {
    if m != [] && !JoinedBefore(p, m[0]) {
      InsertKeepsMembers(p, m[1..]);
      assert m == [m[0]] + m[1..];
    }
  }

  lemma {:induction false} InsertKeepsOrder(p: Participant, m: seq<Participant>)
    requires Ordered(m)
    ensures Ordered(InsertByJoin(p, m))
  {
    if m != [] && !JoinedBefore(p, m[0]) {
      InsertKeepsOrder(p, m[1..]);
      InsertKeepsMembers(p, m[1..]);
      var rest := InsertByJoin(p, m[1..]);
      assert forall j :: 0 <= j < |rest| ==> rest[j] == p || rest[j] in m[1..];
      assert InsertByJoin(p, m) == [m[0]] + rest;
    }
  }

  /** The same participants, by joining time and then by row id. */
  lemma {:induction false} ByJoinSorts(m: seq<Participant>)
    ensures Ordered(ByJoin(m)) && forall q :: q in ByJoin(m) <==> q in m
    ensures forall i, j :: 0 <= i < j < |m| ==>
              var p, q := ByJoin(m)[i], ByJoin(m)[j];
              p.joinedAt < q.joinedAt || (p.joinedAt == q.joinedAt && p.id <= q.id)
  {
    if m == [] {
    } else {
      ByJoinSorts(m[1..]);
      InsertKeepsMembers(m[0], ByJoin(m[1..]));
      InsertKeepsOrder(m[0], ByJoin(m[1..]));
      assert m == [m[0]] + m[1..];
    }
  }

  lemma {:induction false} FirstOtherIsFirst(m: seq<Participant>, u: User)
    requires Ordered(m)
    ensures FirstOther(m, u).None? <==> forall q :: q in m ==> q.user == u
    ensures FirstOther(m, u).Some? ==>
              var p := FirstOther(m, u).value;
              p in m && p.user != u && forall q :: q in m && q.user != u ==> !JoinedBefore(q, p)
  {
    if m == [] {
    } else {
      FirstOtherIsFirst(m[1..], u);
      assert m == [m[0]] + m[1..];
      if m[0].user != u {
        forall q | q in m
          ensures !JoinedBefore(q, m[0])
        {
          var j :| 0 <= j < |m| && m[j] == q;
        }
      }
    }
  }

  lemma {:induction false} DropMembers(m: seq<Participant>, u: User)
    ensures forall q :: q in Drop(m, u) <==> q in m && q.user != u
  {
    if m == [] {
    } else {
      DropMembers(m[1..], u);
      assert m == [m[0]] + m[1..];
    }
  }

  /** No user and no row id occurs twice, and every row id has been handed out. */
  ghost predicate Rows(m: seq<Participant>, nextRow: nat) {
    && (forall i :: 0 <= i < |m| ==> m[i].id < nextRow)
    && (forall i, j :: 0 <= i < j < |m| ==> m[i].user != m[j].user && m[i].id != m[j].id)
  }

  lemma ConsRows(p: Participant, m: seq<Participant>, nextRow: nat)
    ensures Rows([p] + m, nextRow) <==>
            Rows(m, nextRow) && p.id < nextRow && forall q :: q in m ==> q.user != p.user && q.id != p.id
  {
    var all := [p] + m;
    if Rows(all, nextRow) {
      assert all[0] == p;
      forall i | 0 <= i < |m|
        ensures m[i].id < nextRow && m[i].user != p.user && m[i].id != p.id
      {
        assert all[i + 1] == m[i];
      }
      forall i, j | 0 <= i < j < |m|
        ensures m[i].user != m[j].user && m[i].id != m[j].id
      {
        assert all[i + 1] == m[i] && all[j + 1] == m[j];
      }
    }
  }

  lemma {:induction false} DropKeepsRows(m: seq<Participant>, u: User, nextRow: nat)
    requires Rows(m, nextRow)
    ensures Rows(Drop(m, u), nextRow)
  {
    if m == [] {
    } else {
      hide Rows;
      assert m == [m[0]] + m[1..];
      ConsRows(m[0], m[1..], nextRow);
      DropKeepsRows(m[1..], u, nextRow);
      DropMembers(m[1..], u);
      ConsRows(m[0], Drop(m[1..], u), nextRow);
    }
  }

  // ----- Groups: what every operation keeps -----

  /** The one participant with the owner role is the user `owner_id` names. */
  ghost predicate OneOwner(chat: Chat) {
    && chat.owner.Some?
    && (exists p :: p in chat.members && p.user == chat.owner.value && p.role == Owner)
    && (forall p :: p in chat.members && p.role == Owner ==> p.user == chat.owner.value)
  }

  /** Everyone in a direct conversation is one of the two users its key names. */
  ghost predicate PairOf(chat: Chat, a: User, b: User) {
    chat.key == Some(DirectKey(a, b)) && forall p :: p in chat.members ==> p.user == a || p.user == b
  }

  ghost predicate ChatOk(chat: Chat, nextRow: nat) {
    && Rows(chat.members, nextRow)
    && match chat.kind
       case Group => chat.key.None? && OneOwner(chat)
       case Direct => chat.owner.None? && exists a, b :: PairOf(chat, a, b)
  }

  ghost predicate IndexOk(s: State) {
    && (forall k :: k in s.keys ==> s.keys[k] in s.chats && s.chats[s.keys[k]].key == Some(k))
    && (forall c :: c in s.chats && s.chats[c].key.Some? ==>
        s.chats[c].key.value in s.keys && s.keys[s.chats[c].key.value] == c)
  }

  ghost predicate Inv(s: State) {
    && (forall c :: c in s.chats ==> c.n < s.nextConv && ChatOk(s.chats[c], s.nextRow))
    && IndexOk(s)
  }

  // ----- The operations -----

  function Put(s: State, c: ConvId, chat: Chat): (r: State) { s.(chats := s.chats[c := chat]) }

  /** Deletes a conversation, its participants and its index entry. */
  function Delete(s: State, c: ConvId): (r: State)
    requires c in s.chats
  {
    s.(chats := s.chats - {c}, keys := if s.chats[c].key.Some? then s.keys - {s.chats[c].key.value} else s.keys)
  }

  /** The row the upsert on a direct key returns. */
  function DirectRow(s: State, k: Key): (r: (ConvId, Chat)) {
    if k in s.keys && s.keys[k] in s.chats then (s.keys[k], s.chats[s.keys[k]])
    else (ConvId(s.nextConv), Chat(Direct, None, Some(k), []))
  }

  /** Both users are added, with consecutive row ids, where they are missing. */
  function WithBoth(m: seq<Participant>, a: User, b: User, row: nat, now: int): (r: seq<Participant>) {
    AddIfAbsent(AddIfAbsent(m, Participant(row, a, Member, now)), Participant(row + 1, b, Member, now))
  }

  function OpenDirect(s: State, a: User, b: User, now: int): (r: State) {
    var k := DirectKey(a, b);
    var (c, chat) := DirectRow(s, k);
    State(s.users, s.chats[c := chat.(members := WithBoth(chat.members, a, b, s.nextRow, now))], s.keys[k := c],
          s.nextConv + 1, s.nextRow + 2)
  }

  function CreateDirect(s: State, actor: User, listed: seq<User>, now: int): (r: (State, Outcome)) {
    if |listed| != 1 || listed[0] == actor then (s, Refused(Validation))
    else if listed[0] !in s.users then (s, Refused(NotFound))
    else if actor !in s.users then (s, Refused(Database))
    else (OpenDirect(s, actor, listed[0], now), Done(DirectRow(s, DirectKey(actor, listed[0])).0))
  }

  function InsertId(u: User, s: seq<User>): (r: seq<User>) {
    if s == [] then [u]
    else if u.id < s[0].id then [u] + s
    else if u.id == s[0].id then s
    else [s[0]] + InsertId(u, s[1..])
  }

  /** The listed users in ascending id order, each once, without the actor. */
  function Invited(listed: seq<User>, actor: User): (r: seq<User>) {
    if listed == [] then []
    else if listed[0] == actor then Invited(listed[1..], actor)
    else InsertId(listed[0], Invited(listed[1..], actor))
  }

  function Founders(actor: User, invited: seq<User>, firstRow: nat, now: int): (r: seq<Participant>)
    ensures |r| == |invited| + 1
  {
    [Participant(firstRow, actor, Owner, now)] +
    seq(|invited|, i requires 0 <= i < |invited| => Participant(firstRow + 1 + i, invited[i], Member, now))
  }

  function CreateGroup(s: State, actor: User, named: bool, listed: seq<User>, now: int): (r: (State, Outcome)) {
    var invited := Invited(listed, actor);
    if !named then (s, Refused(Validation))
    else if exists u :: u in invited && u !in s.users then (s, Refused(NotFound))
    else if actor !in s.users then (s, Refused(Database))
    else
      var c := ConvId(s.nextConv);
      (State(s.users, s.chats[c := Chat(Group, Some(actor), None, Founders(actor, invited, s.nextRow, now))], s.keys,
             s.nextConv + 1, s.nextRow + 1 + |invited|), Done(c))
  }

  /** Why `u` may not act as owner of this conversation, if so. */
  function OwnerCheck(chat: Chat, u: User): (r: Option<Error>) {
    if chat.kind != Group then Some(Validation) else if chat.owner != Some(u) then Some(Authorization) else None
  }

  function AddMember(s: State, actor: User, c: ConvId, u: User, now: int): (r: (State, Outcome)) {
    if c !in s.chats then (s, Refused(NotFound))
    else if OwnerCheck(s.chats[c], actor).Some? then (s, Refused(OwnerCheck(s.chats[c], actor).value))
    else if u !in s.users then (s, Refused(NotFound))
    else if HasUser(s.chats[c].members, u) then (s, Refused(Conflict))
    else
      var chat := s.chats[c];
      var joined := chat.(members := chat.members + [Participant(s.nextRow, u, Member, now)]);
      (Put(s, c, joined).(nextRow := s.nextRow + 1), Done(c))
  }

  function RemoveMember(s: State, actor: User, c: ConvId, u: User): (r: (State, Outcome)) {
    if c !in s.chats then (s, Refused(NotFound))
    else if OwnerCheck(s.chats[c], actor).Some? then (s, Refused(OwnerCheck(s.chats[c], actor).value))
    else if s.chats[c].owner == Some(u) then (s, Refused(Validation))
    else (Put(s, c, s.chats[c].(members := Drop(s.chats[c].members, u))), Done(c))
  }

  function HandOver(chat: Chat, actor: User, w: User): (r: Chat) {
    chat.(owner := Some(w), members := Drop(Transfer(chat.members, w), actor))
  }

  function Leave(s: State, actor: User, c: ConvId): (r: (State, Outcome)) {
    if c !in s.chats || !HasUser(s.chats[c].members, actor) then (s, Refused(NotFound))
    else
      var chat := s.chats[c];
      if chat.kind == Group && chat.owner == Some(actor) then
        match FirstOther(ByJoin(chat.members), actor)
        case Some(w) => (Put(s, c, HandOver(chat, actor, w.user)), Done(c))
        case None => (Delete(s, c), Done(c))
      else (Put(s, c, chat.(members := Drop(chat.members, actor))), Done(c))
  }

  function Remove(s: State, actor: User, c: ConvId): (r: (State, Outcome)) {
    if c !in s.chats then (s, Refused(NotFound))
    else if s.chats[c].kind == Group && OwnerCheck(s.chats[c], actor).Some?
    then (s, Refused(OwnerCheck(s.chats[c], actor).value))
    else if s.chats[c].kind == Direct && !HasUser(s.chats[c].members, actor) then (s, Refused(NotFound))
    else (Delete(s, c), Done(c))
  }

  // ----- Every operation keeps the invariant -----

  lemma AddKeepsRows(m: seq<Participant>, p: Participant, nextRow: nat)
    requires Rows(m, nextRow) && nextRow <= p.id
    ensures Rows(AddIfAbsent(m, p), p.id + 1)
  {
    if !HasUser(m, p.user) {
      forall i | 0 <= i < |m|
        ensures m[i].user != p.user
      {
        assert m[i] in m;
      }
    }
  }

  lemma AddMembers(m: seq<Participant>, p: Participant)
    ensures HasUser(AddIfAbsent(m, p), p.user)
    ensures forall q :: q in m ==> q in AddIfAbsent(m, p)
    ensures forall q :: q in AddIfAbsent(m, p) ==> q in m || q == p
  {
    if !HasUser(m, p.user) {
      assert p in m + [p];
    }
  }

  /** Writing one sound row, under a new or an old id, with its index entry. */
  lemma PutKeepsInv(s: State, c: ConvId, chat: Chat, r: State)
    requires Inv(s) && ChatOk(chat, r.nextRow)
    requires c.n < r.nextConv && s.nextConv <= r.nextConv && s.nextRow <= r.nextRow
    requires r.chats == s.chats[c := chat]
    requires c in s.chats ==> s.chats[c].key == chat.key
    requires c !in s.chats && chat.key.Some? ==> chat.key.value !in s.keys
    requires r.keys == if chat.key.Some? then s.keys[chat.key.value := c] else s.keys
    ensures Inv(r)
  {
    hide ChatOk, IndexOk;
    forall d | d in r.chats
      ensures d.n < r.nextConv && ChatOk(r.chats[d], r.nextRow)
    {
      if d != c {
        ChatStaysOk(s.chats[d], s.nextRow, r.nextRow);
      }
    }
    PutKeepsIndex(s, c, chat, r);
  }

  lemma PutKeepsIndex(s: State, c: ConvId, chat: Chat, r: State)
    requires IndexOk(s)
    requires r.chats == s.chats[c := chat]
    requires c in s.chats ==> s.chats[c].key == chat.key
    requires c !in s.chats && chat.key.Some? ==> chat.key.value !in s.keys
    requires r.keys == if chat.key.Some? then s.keys[chat.key.value := c] else s.keys
    ensures IndexOk(r)
  {}

  lemma ChatStaysOk(chat: Chat, n: nat, m: nat)
    requires ChatOk(chat, n) && n <= m
    ensures ChatOk(chat, m)
  {
    hide OneOwner, PairOf;
  }

  lemma DeleteKeepsInv(s: State, c: ConvId)
    requires Inv(s) && c in s.chats
    ensures Inv(Delete(s, c))
  {
    hide ChatOk;
  }

  lemma WithBothMembers(m: seq<Participant>, a: User, b: User, row: nat, now: int)
    requires Rows(m, row)
    ensures var r := WithBoth(m, a, b, row, now);
            && Rows(r, row + 2) && HasUser(r, a) && HasUser(r, b)
            && forall p :: p in r ==> p in m || p.user == a || p.user == b
  {
    var p, q := Participant(row, a, Member, now), Participant(row + 1, b, Member, now);
    var one := AddIfAbsent(m, p);
    AddKeepsRows(m, p, row);
    AddKeepsRows(one, q, row + 1);
    AddMembers(m, p);
    AddMembers(one, q);
    hide AddIfAbsent, Rows;
    var o :| o in one && o.user == a;
    assert o in WithBoth(m, a, b, row, now);
  }

  lemma DirectChatOk(chat: Chat, a: User, b: User, nextRow: nat, now: int)
    requires chat.kind == Direct && chat.owner.None? && Rows(chat.members, nextRow) && PairOf(chat, a, b)
    ensures ChatOk(chat.(members := WithBoth(chat.members, a, b, nextRow, now)), nextRow + 2)
  {
    hide DirectKey, WithBoth, Rows, HasUser;
    WithBothMembers(chat.members, a, b, nextRow, now);
    assert PairOf(chat.(members := WithBoth(chat.members, a, b, nextRow, now)), a, b);
  }

  /** The pair a direct conversation belongs to is the pair its key was made from. */
  lemma PairOfKey(chat: Chat, a: User, b: User, nextRow: nat)
    requires ChatOk(chat, nextRow) && chat.key == Some(DirectKey(a, b))
    ensures chat.kind == Direct && PairOf(chat, a, b)
  {
    hide Rows, DirectKey, OneOwner;
    var c, d :| PairOf(chat, c, d);
    DirectKeyIsInjective(a, b, c, d);
  }

  lemma DirectRowOk(s: State, a: User, b: User)
    requires Inv(s)
    ensures var (c, chat) := DirectRow(s, DirectKey(a, b));
            && chat.kind == Direct && chat.owner.None? && Rows(chat.members, s.nextRow) && PairOf(chat, a, b)
            && (c in s.chats ==> s.chats[c] == chat) && (c !in s.chats ==> DirectKey(a, b) !in s.keys)
            && c.n <= s.nextConv
  {
    hide DirectKey, OneOwner, Rows;
    var k := DirectKey(a, b);
    if k in s.keys {
      PairOfKey(s.chats[s.keys[k]], a, b, s.nextRow);
    } else {
      assert Rows([], s.nextRow) by { NoRows(s.nextRow); }
    }
  }

  lemma NoRows(nextRow: nat)
    ensures Rows([], nextRow)
  {}

  lemma OpenDirectKeepsInv(s: State, a: User, b: User, now: int)
    requires Inv(s)
    ensures Inv(OpenDirect(s, a, b, now))
  {
    hide DirectKey, DirectRow, WithBoth, Rows;
    var (c, chat) := DirectRow(s, DirectKey(a, b));
    DirectRowOk(s, a, b);
    DirectChatOk(chat, a, b, s.nextRow, now);
    var r := OpenDirect(s, a, b, now);
    hide Inv, ChatOk;
    PutKeepsInv(s, c, chat.(members := WithBoth(chat.members, a, b, s.nextRow, now)), r);
  }

  lemma CreateDirectKeepsInv(s: State, actor: User, listed: seq<User>, now: int)
    requires Inv(s)
    ensures Inv(CreateDirect(s, actor, listed, now).0)
  {
    hide Inv, OpenDirect;
    if CreateDirect(s, actor, listed, now).1.Done? {
      OpenDirectKeepsInv(s, actor, listed[0], now);
    }
  }

  ghost predicate Ascending(s: seq<User>) { forall i, j :: 0 <= i < j < |s| ==> s[i].id < s[j].id }

  lemma {:induction false} InsertIdAscends(u: User, s: seq<User>)
    requires Ascending(s)
    ensures Ascending(InsertId(u, s)) && forall v :: v in InsertId(u, s) <==> v == u || v in s
  {
    if s == [] {
    } else {
      assert s == [s[0]] + s[1..];
      if s[0].id < u.id {
        InsertIdAscends(u, s[1..]);
        var rest := InsertId(u, s[1..]);
        forall j | 0 <= j < |rest|
          ensures s[0].id < rest[j].id
        {
          assert rest[j] in rest;
        }
      }
    }
  }

  /** Who is invited: everyone listed but the actor, each once, in ascending id order. */
  lemma {:induction false} InvitedOnce(listed: seq<User>, actor: User)
    ensures Ascending(Invited(listed, actor))
    ensures forall u :: u in Invited(listed, actor) <==> u in listed && u != actor
  {
    if listed == [] {
    } else {
      assert listed == [listed[0]] + listed[1..];
      InvitedOnce(listed[1..], actor);
      if listed[0] != actor {
        InsertIdAscends(listed[0], Invited(listed[1..], actor));
      }
    }
  }

  lemma FoundersOk(actor: User, invited: seq<User>, firstRow: nat, now: int)
    requires Ascending(invited) && actor !in invited
    ensures ChatOk(Chat(Group, Some(actor), None, Founders(actor, invited, firstRow, now)), firstRow + 1 + |invited|)
  {
    var m := Founders(actor, invited, firstRow, now);
    assert m[0] == Participant(firstRow, actor, Owner, now);
    assert forall i :: 0 < i < |m| ==> m[i] == Participant(firstRow + i, invited[i - 1], Member, now);
    hide Founders;
    forall i, j | 0 <= i < j < |m|
      ensures m[i].user != m[j].user && m[i].id != m[j].id
    {
      assert i > 0 ==> invited[i - 1].id < invited[j - 1].id;
    }
    assert m[0] in m;
  }

  lemma CreateGroupKeepsInv(s: State, actor: User, named: bool, listed: seq<User>, now: int)
    requires Inv(s)
    ensures Inv(CreateGroup(s, actor, named, listed, now).0)
  {
    var (r, out) := CreateGroup(s, actor, named, listed, now);
    if out.Done? {
      hide Invited, Founders, ChatOk;
      var invited := Invited(listed, actor);
      InvitedOnce(listed, actor);
      FoundersOk(actor, invited, s.nextRow, now);
      PutKeepsInv(s, out.chat, r.chats[out.chat], r);
    }
  }

  lemma AppendedChatOk(chat: Chat, p: Participant, nextRow: nat)
    requires ChatOk(chat, nextRow) && chat.kind == Group
    requires !HasUser(chat.members, p.user) && p.id == nextRow && p.role == Member
    ensures ChatOk(chat.(members := chat.members + [p]), nextRow + 1)
  {
    AddKeepsRows(chat.members, p, nextRow);
    hide Rows;
    var o :| o in chat.members && o.user == chat.owner.value && o.role == Owner;
    assert o in chat.members + [p];
  }

  lemma AddMemberKeepsInv(s: State, actor: User, c: ConvId, u: User, now: int)
    requires Inv(s)
    ensures Inv(AddMember(s, actor, c, u, now).0)
  {
    var (r, out) := AddMember(s, actor, c, u, now);
    if out.Done? {
      AppendedChatOk(s.chats[c], Participant(s.nextRow, u, Member, now), s.nextRow);
      assert s.chats[c].key.None?;
      hide ChatOk;
      PutKeepsInv(s, c, r.chats[c], r);
    }
  }

  /** Dropping anyone but a group's owner leaves a sound conversation. */
  lemma DroppedChatOk(chat: Chat, u: User, nextRow: nat)
    requires ChatOk(chat, nextRow) && chat.owner != Some(u)
    ensures ChatOk(chat.(members := Drop(chat.members, u)), nextRow)
  {
    DropKeepsRows(chat.members, u, nextRow);
    DropMembers(chat.members, u);
    hide Rows, DirectKey, Drop;
    if chat.kind == Group {
      var o :| o in chat.members && o.user == chat.owner.value && o.role == Owner;
      assert o in Drop(chat.members, u);
    } else {
      var a, b :| PairOf(chat, a, b);
      assert PairOf(chat.(members := Drop(chat.members, u)), a, b);
    }
  }

  /** Writing a conversation whose key stays what it was. */
  lemma RewriteKeepsInv(s: State, c: ConvId, chat: Chat)
    requires Inv(s) && c in s.chats && ChatOk(chat, s.nextRow) && chat.key == s.chats[c].key
    ensures Inv(Put(s, c, chat))
  {
    hide ChatOk;
    assert chat.key.Some? ==> s.keys[chat.key.value := c] == s.keys;
    PutKeepsInv(s, c, chat, Put(s, c, chat));
  }

  lemma RemoveMemberKeepsInv(s: State, actor: User, c: ConvId, u: User)
    requires Inv(s)
    ensures Inv(RemoveMember(s, actor, c, u).0)
  {
    hide ChatOk, Drop;
    if RemoveMember(s, actor, c, u).1.Done? {
      DroppedChatOk(s.chats[c], u, s.nextRow);
      RewriteKeepsInv(s, c, s.chats[c].(members := Drop(s.chats[c].members, u)));
    }
  }

  lemma TransferMembers(m: seq<Participant>, w: User)
    ensures forall q :: q in Transfer(m, w) ==> exists p :: p in m && q == Promoted(p, w)
    ensures forall p :: p in m ==> Promoted(p, w) in Transfer(m, w)
  {
    var t := Transfer(m, w);
    forall q | q in t
      ensures exists p :: p in m && q == Promoted(p, w)
    {
      var i :| 0 <= i < |t| && t[i] == q;
      assert m[i] in m && q == Promoted(m[i], w);
    }
    forall p | p in m
      ensures Promoted(p, w) in t
    {
      var i :| 0 <= i < |m| && m[i] == p;
      assert t[i] == Promoted(p, w);
    }
  }

  lemma TransferKeepsRows(m: seq<Participant>, w: User, nextRow: nat)
    requires Rows(m, nextRow)
    ensures Rows(Transfer(m, w), nextRow)
  {}

  lemma HandOverOk(chat: Chat, actor: User, w: Participant, nextRow: nat)
    requires ChatOk(chat, nextRow) && chat.kind == Group && w in chat.members && w.user != actor
    ensures ChatOk(HandOver(chat, actor, w.user), nextRow)
  {
    var t := Transfer(chat.members, w.user);
    TransferKeepsRows(chat.members, w.user, nextRow);
    TransferMembers(chat.members, w.user);
    DropKeepsRows(t, actor, nextRow);
    DropMembers(t, actor);
    hide Rows, Drop, Transfer;
    assert Promoted(w, w.user) in Drop(t, actor);
  }

  lemma LeaveKeepsInv(s: State, actor: User, c: ConvId)
    requires Inv(s)
    ensures Inv(Leave(s, actor, c).0)
  {
    hide ChatOk, Drop, FirstOther, ByJoin, HandOver;
    if Leave(s, actor, c).1.Done? {
      var chat := s.chats[c];
      if chat.kind == Group && chat.owner == Some(actor) {
        ByJoinSorts(chat.members);
        FirstOtherIsFirst(ByJoin(chat.members), actor);
        match FirstOther(ByJoin(chat.members), actor)
        case Some(w) =>
          HandOverOk(chat, actor, w, s.nextRow);
          assert HandOver(chat, actor, w.user).key == chat.key by { HandOverKey(chat, actor, w.user); }
          RewriteKeepsInv(s, c, HandOver(chat, actor, w.user));
        case None => DeleteKeepsInv(s, c);
      } else {
        assert chat.owner != Some(actor) by { DirectHasNoOwner(chat, s.nextRow); }
        DroppedChatOk(chat, actor, s.nextRow);
        RewriteKeepsInv(s, c, chat.(members := Drop(chat.members, actor)));
      }
    }
  }

  lemma HandOverKey(chat: Chat, actor: User, w: User)
    ensures HandOver(chat, actor, w).key == chat.key
  {}

  lemma DirectHasNoOwner(chat: Chat, nextRow: nat)
    requires ChatOk(chat, nextRow)
    ensures chat.kind == Direct ==> chat.owner.None?
  {}

  // ----- Runs -----

  datatype Event =
    | SignsUp(u: User)
    | CreatesDirect(actor: User, listed: seq<User>, now: int)
    | CreatesGroup(actor: User, named: bool, listed: seq<User>, now: int)
    | AddsMember(actor: User, c: ConvId, u: User, now: int)
    | RemovesMember(actor: User, c: ConvId, u: User)
    | Leaves(actor: User, c: ConvId)
    | Removes(actor: User, c: ConvId)

  function Step(s: State, e: Event): (r: State) {
    match e
    case SignsUp(u) => s.(users := s.users + {u})
    case CreatesDirect(actor, listed, now) => CreateDirect(s, actor, listed, now).0
    case CreatesGroup(actor, named, listed, now) => CreateGroup(s, actor, named, listed, now).0
    case AddsMember(actor, c, u, now) => AddMember(s, actor, c, u, now).0
    case RemovesMember(actor, c, u) => RemoveMember(s, actor, c, u).0
    case Leaves(actor, c) => Leave(s, actor, c).0
    case Removes(actor, c) => Remove(s, actor, c).0
  }

  function Run(s: State, events: seq<Event>): (r: State)
    decreases events
  {
    if events == [] then s else Run(Step(s, events[0]), events[1..])
  }

  const START := State({}, map[], map[], 0, 0)

  lemma StepKeepsInv(s: State, e: Event)
    requires Inv(s)
    ensures Inv(Step(s, e))
  {
    hide CreateDirect, CreateGroup, AddMember, RemoveMember, Leave, Delete;
    match e
    case SignsUp(_) =>
    case CreatesDirect(actor, listed, now) => CreateDirectKeepsInv(s, actor, listed, now);
    case CreatesGroup(actor, named, listed, now) => CreateGroupKeepsInv(s, actor, named, listed, now);
    case AddsMember(actor, c, u, now) => AddMemberKeepsInv(s, actor, c, u, now);
    case RemovesMember(actor, c, u) => RemoveMemberKeepsInv(s, actor, c, u);
    case Leaves(actor, c) => LeaveKeepsInv(s, actor, c);
    case Removes(_, c) =>
      if c in s.chats {
        DeleteKeepsInv(s, c);
      }
  }

  lemma {:induction false} RunKeepsInv(s: State, events: seq<Event>)
    requires Inv(s)
    ensures Inv(Run(s, events))
    decreases events
  {
    hide Inv, Step;
    if events == [] {
    } else {
      StepKeepsInv(s, events[0]);
      RunKeepsInv(Step(s, events[0]), events[1..]);
    }
  }

  lemma ReachableHasInv(events: seq<Event>)
    ensures Inv(Run(START, events))
  {
    assert Inv(START);
    RunKeepsInv(START, events);
  }

  // ----- Groups over whole runs -----

  ghost predicate OwnerAt(chat: Chat, k: int) {
    && 0 <= k < |chat.members| && chat.owner == Some(chat.members[k].user) && chat.members[k].role == Owner
    && forall j :: 0 <= j < |chat.members| && j != k ==> chat.members[j].role == Member
  }

  lemma OneOwnerIsAt(chat: Chat, nextRow: nat)
    requires Rows(chat.members, nextRow) && OneOwner(chat)
    ensures exists k :: OwnerAt(chat, k)
  {
    var p :| p in chat.members && p.user == chat.owner.value && p.role == Owner;
    var k :| 0 <= k < |chat.members| && chat.members[k] == p;
    forall j | 0 <= j < |chat.members| && j != k
      ensures chat.members[j].role == Member
    {
      assert chat.members[j] in chat.members;
    }
    assert OwnerAt(chat, k);
  }

  /** In every reachable state each group has exactly one participant with the owner role, and
      `owner_id` names that participant. */
  lemma GroupsHaveOneOwner(events: seq<Event>, c: ConvId)
    requires c in Run(START, events).chats && Run(START, events).chats[c].kind == Group
    ensures exists k :: OwnerAt(Run(START, events).chats[c], k)
  {
    ReachableHasInv(events);
    var s := Run(START, events);
    assert ChatOk(s.chats[c], s.nextRow);
    hide Run, Rows, OneOwner;
    OneOwnerIsAt(s.chats[c], s.nextRow);
  }

  /** `w` is who takes over when `u` leaves: another member, with the least joining time of all the rest, and
      the least row id of those who joined at that time. */
  ghost predicate Heir(m: seq<Participant>, u: User, w: Participant) {
    && w in m && w.user != u
    && forall p :: p in m && p.user != u && p != w ==>
         w.joinedAt < p.joinedAt || (w.joinedAt == p.joinedAt && w.id < p.id)
  }

  lemma FirstOtherIsHeir(m: seq<Participant>, u: User, nextRow: nat)
    requires Rows(m, nextRow)
    ensures FirstOther(ByJoin(m), u).None? <==> forall p :: p in m ==> p.user == u
    ensures FirstOther(ByJoin(m), u).Some? ==> Heir(m, u, FirstOther(ByJoin(m), u).value)
  {
    ByJoinSorts(m);
    FirstOtherIsFirst(ByJoin(m), u);
    hide ByJoin, FirstOther;
    if FirstOther(ByJoin(m), u).Some? {
      var w := FirstOther(ByJoin(m), u).value;
      forall p | p in m && p.user != u && p != w
        ensures JoinedBefore(w, p)
      {
        var i :| 0 <= i < |m| && m[i] == w;
        var j :| 0 <= j < |m| && m[j] == p;
      }
    }
  }

  /** Who remains after the owner hands over: everyone else, with the same rows but for the roles. */
  lemma HandOverMembers(m: seq<Participant>, actor: User, w: User)
    ensures forall u :: HasUser(Drop(Transfer(m, w), actor), u) <==> HasUser(m, u) && u != actor
  {
    TransferMembers(m, w);
    DropMembers(Transfer(m, w), actor);
    hide Drop, Transfer;
    forall u | HasUser(m, u) && u != actor
      ensures HasUser(Drop(Transfer(m, w), actor), u)
    {
      var p :| p in m && p.user == u;
      assert Promoted(p, w) in Drop(Transfer(m, w), actor);
    }
  }

  /** When the owner of a group leaves, the group is gone exactly when nobody else was in it;
      otherwise the earliest to join of those remaining owns it, and nobody else went. */
  lemma OwnerLeaves(events: seq<Event>, actor: User, c: ConvId)
    requires var s := Run(START, events); c in s.chats && s.chats[c].kind == Group && s.chats[c].owner == Some(actor)
    ensures var s := Run(START, events);
            var (r, out) := Leave(s, actor, c);
            var m := s.chats[c].members;
            && out == Done(c)
            && (c !in r.chats <==> forall p :: p in m ==> p.user == actor)
            && (c in r.chats ==>
                  && (exists w :: Heir(m, actor, w) && r.chats[c].owner == Some(w.user))
                  && (forall u :: HasUser(r.chats[c].members, u) <==> HasUser(m, u) && u != actor))
  {
    ReachableHasInv(events);
    var s := Run(START, events);
    var chat := s.chats[c];
    assert ChatOk(chat, s.nextRow);
    FirstOtherIsHeir(chat.members, actor, s.nextRow);
    hide Run, Inv, Drop, Transfer, Rows, ByJoin, FirstOther, Heir;
    match FirstOther(ByJoin(chat.members), actor)
    case Some(w) => HandOverMembers(chat.members, actor, w.user);
    case None =>
  }

  // ----- Direct conversations over whole runs -----

  /** In every reachable state at most one conversation has the key of two users, whichever is named
      first, and nobody else is in it, also after one of them left. */
  lemma OneConversationPerKey(events: seq<Event>, a: User, b: User, c: ConvId, d: ConvId)
    requires var s := Run(START, events);
             && c in s.chats && s.chats[c].key == Some(DirectKey(a, b))
             && d in s.chats && s.chats[d].key == Some(DirectKey(b, a))
    ensures c == d && Run(START, events).chats[c].kind == Direct
    ensures forall p :: p in Run(START, events).chats[c].members ==> p.user == a || p.user == b
  {
    ReachableHasInv(events);
    var s := Run(START, events);
    DirectKeyIsInjective(a, b, b, a);
    assert ChatOk(s.chats[c], s.nextRow);
    hide Run, DirectKey, Rows;
    PairOfKey(s.chats[c], a, b, s.nextRow);
  }

  /** A direct conversation that holds two users is the one with their key. */
  lemma HoldersFixKey(chat: Chat, a: User, b: User, nextRow: nat)
    requires ChatOk(chat, nextRow) && chat.kind == Direct
    requires a != b && HasUser(chat.members, a) && HasUser(chat.members, b)
    ensures chat.key == Some(DirectKey(a, b))
  {
    hide Rows, DirectKey;
    var c, d :| PairOf(chat, c, d);
    DirectKeyIsInjective(a, b, c, d);
  }

  /** In every reachable state two users are together in at most one direct conversation, and with nobody
      else. */
  lemma DirectIsUnique(events: seq<Event>, a: User, b: User, c: ConvId, d: ConvId)
    requires a != b
    requires var s := Run(START, events);
             && c in s.chats && s.chats[c].kind == Direct
             && HasUser(s.chats[c].members, a) && HasUser(s.chats[c].members, b)
             && d in s.chats && s.chats[d].kind == Direct
             && HasUser(s.chats[d].members, a) && HasUser(s.chats[d].members, b)
    ensures c == d && forall p :: p in Run(START, events).chats[c].members ==> p.user == a || p.user == b
  {
    ReachableHasInv(events);
    var s := Run(START, events);
    assert ChatOk(s.chats[c], s.nextRow) && ChatOk(s.chats[d], s.nextRow);
    hide Run, ChatOk, DirectKey, HasUser;
    HoldersFixKey(s.chats[c], a, b, s.nextRow);
    HoldersFixKey(s.chats[d], a, b, s.nextRow);
    PairOfKey(s.chats[c], a, b, s.nextRow);
  }

  /** An id already handed out keeps its key for as long as its conversation exists, and is never
      used again after that. */
  lemma KeyStays(s: State, e: Event, c: ConvId)
    requires Inv(s) && c.n < s.nextConv
    ensures var r := Step(s, e);
            && c.n < r.nextConv && s.users <= r.users
            && (c in r.chats ==> c in s.chats && r.chats[c].key == s.chats[c].key)
  {
    hide DirectKey, WithBoth, ChatOk, Drop, ByJoin, FirstOther, HasUser, Founders, Invited;
  }

  lemma {:induction false} KeyStaysInRun(s: State, events: seq<Event>, c: ConvId)
    requires Inv(s) && c.n < s.nextConv
    ensures var r := Run(s, events);
            s.users <= r.users && (c in r.chats ==> c in s.chats && r.chats[c].key == s.chats[c].key)
    decreases events
  {
    if events == [] {
    } else {
      KeyStays(s, events[0], c);
      StepKeepsInv(s, events[0]);
      hide Inv, Step;
      KeyStaysInRun(Step(s, events[0]), events[1..], c);
    }
  }

  /** What `create` gives for a pair: the conversation of that pair, old or new, with both in it. */
  lemma CreateDirectOpens(s: State, a: User, b: User, now: int)
    requires Inv(s) && a != b && a in s.users && b in s.users
    ensures var (r, out) := CreateDirect(s, a, [b], now);
            && out.Done? && out.chat in r.chats && out.chat.n < r.nextConv && r.users == s.users
            && r.chats[out.chat].key == Some(DirectKey(a, b))
            && HasUser(r.chats[out.chat].members, a) && HasUser(r.chats[out.chat].members, b)
            && (forall c :: c in s.chats && s.chats[c].key == Some(DirectKey(a, b)) ==> c == out.chat)
  {
    DirectRowOk(s, a, b);
    var (c, chat) := DirectRow(s, DirectKey(a, b));
    WithBothMembers(chat.members, a, b, s.nextRow, now);
    hide DirectKey, WithBoth, ChatOk, HasUser, Rows;
  }

  /** After a direct conversation is opened from one side, whatever happens, while it exists either
      side's `create` returns that same conversation with both users in it, even if one had left. */
  lemma CreateDirectReturns(before: seq<Event>, a: User, b: User, t: int, after: seq<Event>, u: int)
    requires var s := Run(START, before); a != b && a in s.users && b in s.users
    ensures var (s, first) := CreateDirect(Run(START, before), a, [b], t);
            var r := Run(s, after);
            && first.Done?
            && (first.chat in r.chats ==>
                  && (var (r1, again) := CreateDirect(r, a, [b], u);
                      && again == first && first.chat in r1.chats
                      && HasUser(r1.chats[first.chat].members, a) && HasUser(r1.chats[first.chat].members, b))
                  && (var (r2, back) := CreateDirect(r, b, [a], u);
                      && back == first && first.chat in r2.chats
                      && HasUser(r2.chats[first.chat].members, a) && HasUser(r2.chats[first.chat].members, b)))
  {
    var s0 := Run(START, before);
    ReachableHasInv(before);
    hide Run;
    CreateDirectOpens(s0, a, b, t);
    CreateDirectKeepsInv(s0, a, [b], t);
    DirectKeyIsInjective(a, b, b, a);
    hide CreateDirect, Inv, DirectKey, HasUser;
    var (s, first) := CreateDirect(s0, a, [b], t);
    var r := Run(s, after);
    KeyStaysInRun(s, after, first.chat);
    RunKeepsInv(s, after);
    if first.chat in r.chats {
      CreateDirectOpens(r, a, b, u);
      CreateDirectOpens(r, b, a, u);
    }
  }
}
