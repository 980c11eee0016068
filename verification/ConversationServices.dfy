/** The conversation service as it runs: checks in the source's order, then statements that change the
    tables one by one. Every call does what its specification in `Conversations` says. */
module ConversationServices {
  import opened Options
  import opened Ids
  import opened Conversations

  /** Looks for the first participant who is not `actor`. */
  method FindSuccessor(m: seq<Participant>, actor: User) returns (r: Option<Participant>)
    ensures r == FirstOther(m, actor)
  {
    for i := 0 to |m|
      invariant FirstOther(m, actor) == FirstOther(m[i..], actor)
    {
      if m[i].user != actor {
        return Some(m[i]);
      }
    }
    return None;
  }

  /** The first invited user who does not exist, if there is one. */
  method FindMissing(invited: seq<User>, users: set<User>) returns (r: Option<User>)
    ensures r.Some? <==> exists u :: u in invited && u !in users
    ensures r.Some? ==> r.value in invited && r.value !in users
  {
    for i := 0 to |invited|
      invariant forall j :: 0 <= j < i ==> invited[j] in users
    {
      if invited[i] !in users {
        return Some(invited[i]);
      }
    }
    return None;
  }

  /** Inserts the owner's row and then one row for each member, skipping conflicts. */
  method InsertFounders(actor: User, invited: seq<User>, firstRow: nat, now: int) returns (m: seq<Participant>)
    requires Ascending(invited) && actor !in invited
    ensures m == Founders(actor, invited, firstRow, now)
  {
    m := [Participant(firstRow, actor, Owner, now)];
    for i := 0 to |invited|
      invariant m == Founders(actor, invited[..i], firstRow, now)
    {
      NewFounder(actor, invited, i, firstRow, now);
      m := AddIfAbsent(m, Participant(firstRow + 1 + i, invited[i], Member, now));
    }
    assert invited[..|invited|] == invited;
  }

  lemma NewFounder(actor: User, invited: seq<User>, i: nat, firstRow: nat, now: int)
    requires Ascending(invited) && actor !in invited && i < |invited|
    ensures AddIfAbsent(Founders(actor, invited[..i], firstRow, now),
                        Participant(firstRow + 1 + i, invited[i], Member, now))
            == Founders(actor, invited[..i + 1], firstRow, now)
  {
    var m := Founders(actor, invited[..i], firstRow, now);
    forall p | p in m
      ensures p.user != invited[i]
    {
      var j :| 0 <= j < |m| && m[j] == p;
      assert j > 0 ==> p.user == invited[j - 1];
    }
    assert !HasUser(m, invited[i]);
    assert m + [Participant(firstRow + 1 + i, invited[i], Member, now)] ==
      Founders(actor, invited[..i + 1], firstRow, now);
  }

  class ConversationService {
    var users: set<User>
    var chats: map<ConvId, Chat>
    var keys: map<Key, ConvId>
    var nextConv: nat
    var nextRow: nat

    ghost function Tables(): (s: State)
      reads this
    {
      State(users, chats, keys, nextConv, nextRow)
    }

    ghost predicate Valid()
      reads this
    {
      Inv(Tables())
    }

    constructor ()
      ensures Valid() && Tables() == START
    {
      users, chats, keys, nextConv, nextRow := {}, map[], map[], 0, 0;
    }

    method CreateDirect(actor: User, listed: seq<User>, now: int) returns (out: Outcome)
      requires Valid()
      modifies this
      ensures Valid()
      ensures Tables() == Conversations.CreateDirect(old(Tables()), actor, listed, now).0
      ensures out == Conversations.CreateDirect(old(Tables()), actor, listed, now).1
    {
      ghost var before := Tables();
      hide Inv, DirectKey, AddIfAbsent;
      CreateDirectKeepsInv(before, actor, listed, now);
      if |listed| != 1 || listed[0] == actor {
        return Refused(Validation);
      }
      var other := listed[0];
      if other !in users {
        return Refused(NotFound);
      }
      if actor !in users {
        return Refused(Database);
      }
      var k := DirectKey(actor, other);
      if k !in keys || keys[k] !in chats {
        chats := chats[ConvId(nextConv) := Chat(Direct, None, Some(k), [])];
        keys := keys[k := ConvId(nextConv)];
      }
      nextConv := nextConv + 1;
      var c := keys[k];
      var m := AddIfAbsent(chats[c].members, Participant(nextRow, actor, Member, now));
      chats := chats[c := chats[c].(members := m)];
      m := AddIfAbsent(m, Participant(nextRow + 1, other, Member, now));
      chats := chats[c := chats[c].(members := m)];
      nextRow := nextRow + 2;
      out := Done(c);
      assert chats == OpenDirect(before, actor, other, now).chats;
      assert keys == OpenDirect(before, actor, other, now).keys;
    }

    method CreateGroup(actor: User, named: bool, listed: seq<User>, now: int) returns (out: Outcome)
      requires Valid()
      modifies this
      ensures Valid()
      ensures Tables() == Conversations.CreateGroup(old(Tables()), actor, named, listed, now).0
      ensures out == Conversations.CreateGroup(old(Tables()), actor, named, listed, now).1
    {
      hide Inv, Invited, Founders;
      CreateGroupKeepsInv(Tables(), actor, named, listed, now);
      if !named {
        return Refused(Validation);
      }
      var invited := Invited(listed, actor);
      InvitedOnce(listed, actor);
      var missing := FindMissing(invited, users);
      if missing.Some? {
        return Refused(NotFound);
      }
      if actor !in users {
        return Refused(Database);
      }
      var c := ConvId(nextConv);
      var m := InsertFounders(actor, invited, nextRow, now);
      chats := chats[c := Chat(Group, Some(actor), None, m)];
      nextConv := nextConv + 1;
      nextRow := nextRow + 1 + |invited|;
      return Done(c);
    }

    method AddMember(actor: User, c: ConvId, u: User, now: int) returns (out: Outcome)
      requires Valid()
      modifies this
      ensures Valid()
      ensures Tables() == Conversations.AddMember(old(Tables()), actor, c, u, now).0
      ensures out == Conversations.AddMember(old(Tables()), actor, c, u, now).1
    {
      hide Inv;
      AddMemberKeepsInv(Tables(), actor, c, u, now);
      if c !in chats {
        return Refused(NotFound);
      }
      var refused := OwnerCheck(chats[c], actor);
      if refused.Some? {
        return Refused(refused.value);
      }
      if u !in users {
        return Refused(NotFound);
      }
      if HasUser(chats[c].members, u) {
        return Refused(Conflict);
      }
      chats := chats[c := chats[c].(members := chats[c].members + [Participant(nextRow, u, Member, now)])];
      nextRow := nextRow + 1;
      return Done(c);
    }

    method RemoveMember(actor: User, c: ConvId, u: User) returns (out: Outcome)
      requires Valid()
      modifies this
      ensures Valid()
      ensures Tables() == Conversations.RemoveMember(old(Tables()), actor, c, u).0
      ensures out == Conversations.RemoveMember(old(Tables()), actor, c, u).1
    {
      hide Inv, Drop;
      RemoveMemberKeepsInv(Tables(), actor, c, u);
      if c !in chats {
        return Refused(NotFound);
      }
      var refused := OwnerCheck(chats[c], actor);
      if refused.Some? {
        return Refused(refused.value);
      }
      if chats[c].owner == Some(u) {
        return Refused(Validation);
      }
      chats := chats[c := chats[c].(members := Drop(chats[c].members, u))];
      return Done(c);
    }

    /** Three updates in one transaction; afterwards `w` is the owner by both tables and, where they are a
        participant, the only one with the owner role. */
    method TransferOwnership(c: ConvId, w: User)
      requires c in chats
      modifies this`chats
      ensures chats == old(chats)[c := old(chats)[c].(owner := Some(w), members := Transfer(old(chats)[c].members, w))]
      ensures forall p :: p in chats[c].members ==> (p.role == Owner <==> p.user == w)
    {
      ghost var m := chats[c].members;
      chats := chats[c := chats[c].(owner := Some(w))];
      chats := chats[c := chats[c].(members := DemoteOthers(chats[c].members, w))];
      chats := chats[c := chats[c].(members := Promote(chats[c].members, w))];
      DemoteThenPromote(m, w);
      hide DemoteOthers, Promote;
      assert chats[c].members == Transfer(m, w);
      assert forall i :: 0 <= i < |m| ==> Transfer(m, w)[i].user == m[i].user;
    }

    method DeleteConversation(c: ConvId)
      requires c in chats
      modifies this`chats, this`keys
      ensures Tables() == Delete(old(Tables()), c)
    {
      var key := chats[c].key;
      chats := chats - {c};
      if key.Some? {
        keys := keys - {key.value};
      }
    }

    method Leave(actor: User, c: ConvId) returns (out: Outcome)
      requires Valid()
      modifies this
      ensures Valid()
      ensures Tables() == Conversations.Leave(old(Tables()), actor, c).0
      ensures out == Conversations.Leave(old(Tables()), actor, c).1
    {
      ghost var before := Tables();
      hide Inv, ByJoin, Drop, Transfer, FirstOther;
      LeaveKeepsInv(before, actor, c);
      if c !in chats || !HasUser(chats[c].members, actor) {
        return Refused(NotFound);
      }
      if chats[c].kind == Group && chats[c].owner == Some(actor) {
        var successor := FindSuccessor(ByJoin(chats[c].members), actor);
        if successor.Some? {
          TransferOwnership(c, successor.value.user);
          chats := chats[c := chats[c].(members := Drop(chats[c].members, actor))];
          assert chats == before.chats[c := HandOver(before.chats[c], actor, successor.value.user)];
        } else {
          DeleteConversation(c);
        }
      } else {
        chats := chats[c := chats[c].(members := Drop(chats[c].members, actor))];
      }
      return Done(c);
    }

    method Remove(actor: User, c: ConvId) returns (out: Outcome)
      requires Valid()
      modifies this
      ensures Valid()
      ensures Tables() == Conversations.Remove(old(Tables()), actor, c).0
      ensures out == Conversations.Remove(old(Tables()), actor, c).1
    {
      ghost var before := Tables();
      hide Inv;
      StepKeepsInv(before, Removes(actor, c));
      if c !in chats {
        return Refused(NotFound);
      }
      if chats[c].kind == Group {
        var refused := OwnerCheck(chats[c], actor);
        if refused.Some? {
          return Refused(refused.value);
        }
      } else if !HasUser(chats[c].members, actor) {
        return Refused(NotFound);
      }
      DeleteConversation(c);
      return Done(c);
    }
  }
}
