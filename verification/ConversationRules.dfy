/** Who may do what in a conversation, and what exactly changes: each operation said by its conditions and
    by who is in which conversation before and after. */
module ConversationRules {
  import opened Options
  import opened Ids
  import opened Conversations

  /** No conversation but `c` and no user is touched. */
  ghost predicate OthersKept(s: State, r: State, c: ConvId) {
    && r.users == s.users
    && forall d :: d != c ==> (d in r.chats <==> d in s.chats) && (d in r.chats ==> r.chats[d] == s.chats[d])
  }

  /** A group that exists and that `actor` owns. */
  predicate Owns(s: State, actor: User, c: ConvId) {
    c in s.chats && s.chats[c].kind == Group && s.chats[c].owner == Some(actor)
  }

  /** A direct conversation takes one other user who exists; whoever is in it afterwards and was not before
      is one of the two and joined now, as a member. */
  lemma CreateDirectRules(s: State, actor: User, listed: seq<User>, now: int)
    requires Inv(s)
    ensures var (r, out) := CreateDirect(s, actor, listed, now);
            && (out.Done? <==> |listed| == 1 && listed[0] != actor && listed[0] in s.users && actor in s.users)
            && (out == Refused(Validation) <==> |listed| != 1 || listed[0] == actor)
            && (out == Refused(NotFound) <==> |listed| == 1 && listed[0] != actor && listed[0] !in s.users)
            && (!out.Done? ==> r == s)
            && (out.Done? ==>
                  && OthersKept(s, r, out.chat) && out.chat in r.chats
                  && forall p :: p in r.chats[out.chat].members ==>
                       || (out.chat in s.chats && p in s.chats[out.chat].members)
                       || (p.role == Member && p.joinedAt == now && (p.user == actor || p.user == listed[0])))
  {
    if CreateDirect(s, actor, listed, now).1.Done? {
      OpenDirectRows(s, actor, listed[0], now);
    }
    hide OpenDirect, DirectRow, DirectKey, OthersKept, Inv;
  }

  lemma OpenDirectRows(s: State, a: User, b: User, now: int)
    requires Inv(s)
    ensures var c, r := DirectRow(s, DirectKey(a, b)).0, OpenDirect(s, a, b, now);
            && OthersKept(s, r, c) && c in r.chats
            && forall p :: p in r.chats[c].members ==>
                 || (c in s.chats && p in s.chats[c].members)
                 || (p.role == Member && p.joinedAt == now && (p.user == a || p.user == b))
  {
    hide Inv, DirectKey, DirectRow, WithBoth;
    var (c, chat) := DirectRow(s, DirectKey(a, b));
    DirectRowIsOldOrEmpty(s, DirectKey(a, b));
    WithBothRows(chat.members, a, b, s.nextRow, now);
  }

  lemma DirectRowIsOldOrEmpty(s: State, k: Key)
    requires Inv(s)
    ensures var (c, chat) := DirectRow(s, k);
            if c in s.chats then s.chats[c] == chat else chat.members == []
  {
    hide ChatOk, IndexOk;
  }

  lemma WithBothRows(m: seq<Participant>, a: User, b: User, row: nat, now: int)
    ensures forall p :: p in WithBoth(m, a, b, row, now) ==>
              p in m || (p.role == Member && p.joinedAt == now && (p.user == a || p.user == b))
  {
    var p, q := Participant(row, a, Member, now), Participant(row + 1, b, Member, now);
    AddMembers(m, p);
    AddMembers(AddIfAbsent(m, p), q);
    hide AddIfAbsent;
  }

  /** A group takes a name and listed users who exist; in it are then exactly they and the actor, all joined
      now, the actor as owner and first, the others as members in ascending id order. */
  lemma CreateGroupRules(s: State, actor: User, named: bool, listed: seq<User>, now: int)
    ensures var (r, out) := CreateGroup(s, actor, named, listed, now);
            && (out.Done? <==> named && actor in s.users && forall u :: u in listed ==> u in s.users)
            && (out == Refused(Validation) <==> !named)
            && (out == Refused(NotFound) <==> named && exists u :: u in listed && u != actor && u !in s.users)
            && (!out.Done? ==> r == s)
            && (out.Done? ==>
                  && OthersKept(s, r, out.chat) && out.chat in r.chats && out.chat == ConvId(s.nextConv)
                  && var chat := r.chats[out.chat];
                  && chat.kind == Group && chat.owner == Some(actor)
                  && (forall u :: HasUser(chat.members, u) <==> u == actor || u in listed)
                  && (forall p :: p in chat.members ==> p.joinedAt == now && (p.role == Owner <==> p.user == actor))
                  && (forall i, j :: 0 <= i < j < |chat.members| ==> chat.members[i].id < chat.members[j].id)
                  && (forall i, j :: 0 < i < j < |chat.members| ==> chat.members[i].user.id < chat.members[j].user.id))
  {
    InvitedOnce(listed, actor);
    var invited := Invited(listed, actor);
    hide Invited;
    if CreateGroup(s, actor, named, listed, now).1.Done? {
      FoundersAre(actor, invited, s.nextRow, now);
    }
    hide Founders;
  }

  lemma FoundersAre(actor: User, invited: seq<User>, firstRow: nat, now: int)
    requires actor !in invited
    ensures var m := Founders(actor, invited, firstRow, now);
            && m[0] == Participant(firstRow, actor, Owner, now)
            && (forall i :: 0 < i < |m| ==> m[i] == Participant(firstRow + i, invited[i - 1], Member, now))
            && (forall u :: HasUser(m, u) <==> u == actor || u in invited)
  {
    var m := Founders(actor, invited, firstRow, now);
    assert forall i :: 0 < i < |m| ==> m[i] == Participant(firstRow + i, invited[i - 1], Member, now);
    hide Founders;
    forall u | u == actor || u in invited
      ensures HasUser(m, u)
    {
      if u == actor {
        assert m[0] in m;
      } else {
        var i :| 0 <= i < |invited| && invited[i] == u;
        assert m[i + 1] in m;
      }
    }
  }

  /** Only the owner of a group adds, and only users who exist and are not in it; they join now, as members,
      and everyone else stays as they are. */
  lemma AddMemberRules(s: State, actor: User, c: ConvId, u: User, now: int)
    ensures var (r, out) := AddMember(s, actor, c, u, now);
            && (out.Done? <==> Owns(s, actor, c) && u in s.users && !HasUser(s.chats[c].members, u))
            && (out == Refused(Authorization) <==>
                c in s.chats && s.chats[c].kind == Group && s.chats[c].owner != Some(actor))
            && (out == Refused(Validation) <==> c in s.chats && s.chats[c].kind != Group)
            && (out == Refused(Conflict) <==> Owns(s, actor, c) && u in s.users && HasUser(s.chats[c].members, u))
            && (!out.Done? ==> r == s)
            && (out.Done? ==>
                  && OthersKept(s, r, c) && c in r.chats
                  && r.chats[c] == s.chats[c].(members := r.chats[c].members)
                  && exists p :: r.chats[c].members == s.chats[c].members + [p]
                                 && p.user == u && p.role == Member && p.joinedAt == now)
  {
    var (r, out) := AddMember(s, actor, c, u, now);
    hide HasUser;
    if out.Done? {
      var p := Participant(s.nextRow, u, Member, now);
      assert r.chats[c].members == s.chats[c].members + [p];
    }
  }

  /** Only the owner of a group removes, and never themselves; exactly the named user is gone afterwards. */
  lemma RemoveMemberRules(s: State, actor: User, c: ConvId, u: User)
    ensures var (r, out) := RemoveMember(s, actor, c, u);
            && (out.Done? <==> Owns(s, actor, c) && u != actor)
            && (out == Refused(Authorization) <==>
                c in s.chats && s.chats[c].kind == Group && s.chats[c].owner != Some(actor))
            && (!out.Done? ==> r == s)
            && (out.Done? ==>
                  && OthersKept(s, r, c) && c in r.chats
                  && r.chats[c] == s.chats[c].(members := r.chats[c].members)
                  && forall p :: p in r.chats[c].members <==> p in s.chats[c].members && p.user != u)
  {
    if c in s.chats {
      DropMembers(s.chats[c].members, u);
    }
    hide Drop;
  }

  /** Whoever is in a conversation may leave it; unless they own it, nobody else's row changes. */
  lemma LeaveRules(s: State, actor: User, c: ConvId)
    ensures var (r, out) := Leave(s, actor, c);
            && (out.Done? <==> c in s.chats && HasUser(s.chats[c].members, actor))
            && (!out.Done? ==> out == Refused(NotFound) && r == s)
            && (out.Done? ==> OthersKept(s, r, c))
            && (out.Done? && !Owns(s, actor, c) ==>
                  && c in r.chats && r.chats[c] == s.chats[c].(members := r.chats[c].members)
                  && forall p :: p in r.chats[c].members <==> p in s.chats[c].members && p.user != actor)
  {
    if c in s.chats {
      DropMembers(s.chats[c].members, actor);
    }
    hide Drop, HasUser, FirstOther, ByJoin, HandOver;
  }

  /** A group is deleted by its owner, a direct conversation by either participant, and nothing else goes. */
  lemma RemoveRules(s: State, actor: User, c: ConvId)
    ensures var (r, out) := Remove(s, actor, c);
            && (out.Done? <==> Owns(s, actor, c) ||
                               (c in s.chats && s.chats[c].kind == Direct && HasUser(s.chats[c].members, actor)))
            && (!out.Done? ==> r == s)
            && (out.Done? ==> OthersKept(s, r, c) && c !in r.chats)
  {
    hide HasUser;
  }
}
