/** Message history and paging back through it (`repositories/pg_message_repository.cpp`). */
module MessagePaging {
  import opened Options
  import opened Ids

  datatype Row = Row(id: int, room: Room, sender: User, content: string, deleted: bool)

  datatype Filter = Filter(room: Room, sender: Option<User>)

  /** `before` and `after` are the keyset cursors. */
  datatype Page = Page(limit: nat, offset: nat, before: Option<int>, after: Option<int>)

  /** Ids only grow: the table in the order its rows were inserted. */
  predicate Ascending(t: seq<Row>) { forall i, j :: 0 <= i < j < |t| ==> t[i].id < t[j].id }

  predicate Matches(row: Row, f: Filter, before: Option<int>, after: Option<int>) {
    && row.room == f.room
    && (f.sender.Some? ==> row.sender == f.sender.value)
    && (before.Some? ==> row.id < before.value)
    && (after.Some? ==> row.id > after.value)
  }

  /** The matching rows, ORDER BY id DESC. */
  function Select(t: seq<Row>, f: Filter, before: Option<int>, after: Option<int>): (r: seq<Row>) {
    if t == [] then []
    else
      var n := |t| - 1;
      (if Matches(t[n], f, before, after) then [t[n]] else []) + Select(t[..n], f, before, after)
  }

  /** LIMIT and OFFSET. */
  function Slice<T>(s: seq<T>, offset: nat, limit: nat): (r: seq<T>) {
    var rest := if offset <= |s| then s[offset..] else [];
    if limit <= |rest| then rest[..limit] else rest
  }

  function List(t: seq<Row>, f: Filter, page: Page): (r: seq<Row>) {
    Slice(Select(t, f, page.before, page.after), page.offset, page.limit)
  }

  function IdsOf(t: seq<Row>): (r: seq<int>)
    ensures |r| == |t| && forall i :: 0 <= i < |t| ==> r[i] == t[i].id
  {
    seq(|t|, i requires 0 <= i < |t| => t[i].id)
  }

  // ----- Changes to the table -----

  datatype Change =
    | Inserts(row: Row)
    | SoftDeletes(id: int)
    | Edits(id: int, content: string)

  /** Tombstones or edits the row with this id unless it is a tombstone already. */
  function Rewritten(row: Row, c: Change): (r: Row)
    ensures r.id == row.id && r.room == row.room && r.sender == row.sender
  {
    match c
    case Inserts(_) => row
    case SoftDeletes(id) => if row.id == id && !row.deleted then row.(deleted := true) else row
    case Edits(id, content) => if row.id == id && !row.deleted then row.(content := content) else row
  }

  function Rewrite(t: seq<Row>, c: Change): (r: seq<Row>)
    ensures |r| == |t| && forall i :: 0 <= i < |t| ==> r[i] == Rewritten(t[i], c)
  {
    seq(|t|, i requires 0 <= i < |t| => Rewritten(t[i], c))
  }

  /** A row can only be inserted with an id above all others. */
  function Apply(t: seq<Row>, c: Change): (r: seq<Row>) {
    match c
    case Inserts(row) => if t == [] || t[|t| - 1].id < row.id then t + [row] else t
    case _ => Rewrite(t, c)
  }

  function ApplyAll(t: seq<Row>, cs: seq<Change>): (r: seq<Row>)
    decreases cs
  {
    if cs == [] then t else ApplyAll(Apply(t, cs[0]), cs[1..])
  }

  class MessageRepository {
    var rows: seq<Row>
    var nextId: int

    ghost predicate Valid()
      reads this
    {
      Ascending(rows) && forall i :: 0 <= i < |rows| ==> rows[i].id < nextId
    }

    constructor (nextId: int)
      ensures Valid() && rows == []
    {
      rows, this.nextId := [], nextId;
    }

    method Create(room: Room, sender: User, content: string) returns (row: Row)
      requires Valid()
      modifies this
      ensures Valid() && rows == Apply(old(rows), Inserts(row)) && rows == old(rows) + [row]
      ensures row == Row(old(nextId), room, sender, content, false)
    {
      row := Row(nextId, room, sender, content, false);
      rows, nextId := rows + [row], nextId + 1;
    }

    /** The position of a live row, or -1. */
    method FindLive(id: int) returns (k: int)
      requires Valid()
      ensures -1 <= k < |rows|
      ensures k >= 0 ==> rows[k].id == id && !rows[k].deleted
      ensures k < 0 ==> forall i :: 0 <= i < |rows| && rows[i].id == id ==> rows[i].deleted
    {
      k := 0;
      while k < |rows|
        invariant 0 <= k <= |rows|
        invariant forall i :: 0 <= i < k && rows[i].id == id ==> rows[i].deleted
      {
        if rows[k].id == id && !rows[k].deleted {
          return;
        }
        k := k + 1;
      }
      k := -1;
    }

    /** None stands for "not found or already deleted". */
    method SoftDelete(id: int) returns (row: Option<Row>)
      requires Valid()
      modifies this`rows
      ensures Valid() && rows == Apply(old(rows), SoftDeletes(id))
      ensures row.Some? <==> exists i :: 0 <= i < |old(rows)| && old(rows)[i].id == id && !old(rows)[i].deleted
      ensures row.Some? ==> row.value in rows && row.value.id == id && row.value.deleted
    {
      var k := FindLive(id);
      if k < 0 {
        assert rows == Rewrite(rows, SoftDeletes(id));
        return None;
      }
      row := Some(rows[k].(deleted := true));
      rows := rows[k := row.value];
      assert rows == Rewrite(old(rows), SoftDeletes(id));
    }

    method UpdateContent(id: int, content: string) returns (row: Option<Row>)
      requires Valid()
      modifies this`rows
      ensures Valid() && rows == Apply(old(rows), Edits(id, content))
      ensures row.Some? <==> exists i :: 0 <= i < |old(rows)| && old(rows)[i].id == id && !old(rows)[i].deleted
      ensures row.Some? ==> row.value in rows && row.value.id == id && row.value.content == content
    {
      var k := FindLive(id);
      if k < 0 {
        assert rows == Rewrite(rows, Edits(id, content));
        return None;
      }
      row := Some(rows[k].(content := content));
      rows := rows[k := row.value];
      assert rows == Rewrite(old(rows), Edits(id, content));
    }
  }

  // ----- What a query returns -----

  ghost predicate Descending(s: seq<int>) { forall i, j :: 0 <= i < j < |s| ==> s[i] > s[j] }

  /** Some row of the table with this id matches. */
  ghost predicate Hit(t: seq<Row>, f: Filter, before: Option<int>, after: Option<int>, id: int) {
    exists i :: 0 <= i < |t| && t[i].id == id && Matches(t[i], f, before, after)
  }

  /** The rows a query lists are exactly the table's own rows, content and all, of the conversation, from the
      sender if one is named, and strictly between the cursors. */
  lemma {:induction false} SelectRows(t: seq<Row>, f: Filter, before: Option<int>, after: Option<int>)
    ensures forall row :: row in Select(t, f, before, after) <==>
              && row in t && row.room == f.room && (f.sender.Some? ==> row.sender == f.sender.value)
              && (before.Some? ==> row.id < before.value) && (after.Some? ==> after.value < row.id)
  {
    if t == [] {
    } else {
      var n := |t| - 1;
      assert t == t[..n] + [t[n]];
      SelectRows(t[..n], f, before, after);
    }
  }

  /** A page is the stretch of that listing that begins at the offset and is as long as the limit allows. */
  lemma ListIsStretch(t: seq<Row>, f: Filter, page: Page)
    ensures var all, r := Select(t, f, page.before, page.after), List(t, f, page);
            && |r| == (if page.offset >= |all| then 0
                       else if page.offset + page.limit <= |all| then page.limit else |all| - page.offset)
            && forall i :: 0 <= i < |r| ==> r[i] == all[page.offset + i]
  {}

  /** A soft delete marks the row with the id and an edit rewrites it unless it is marked; all other rows and
      all ids, conversations and senders stay. */
  lemma ChangesAre(row: Row, id: int, content: string)
    ensures Rewritten(row, SoftDeletes(id)) == row.(deleted := row.deleted || row.id == id)
    ensures Rewritten(row, Edits(id, content)) ==
            row.(content := if row.id == id && !row.deleted then content else row.content)
  {}

  lemma {:induction false} SelectIds(t: seq<Row>, f: Filter, before: Option<int>, after: Option<int>)
    requires Ascending(t)
    ensures Descending(IdsOf(Select(t, f, before, after)))
    ensures forall id :: id in IdsOf(Select(t, f, before, after)) <==> Hit(t, f, before, after, id)
  {
    if t == [] {
    } else {
      var n := |t| - 1;
      var rest := Select(t[..n], f, before, after);
      SelectIds(t[..n], f, before, after);
      hide Matches;
      forall id
        ensures Hit(t, f, before, after, id) <==>
                  Hit(t[..n], f, before, after, id) || (t[n].id == id && Matches(t[n], f, before, after))
      {
        HitLast(t, f, before, after, id);
      }
      forall id | id in IdsOf(rest)
        ensures id < t[n].id
      {
        assert Hit(t[..n], f, before, after, id);
      }
      if Matches(t[n], f, before, after) {
        ConsIds(t[n], rest);
      } else {
        assert Select(t, f, before, after) == rest;
      }
    }
  }

  lemma HitLast(t: seq<Row>, f: Filter, before: Option<int>, after: Option<int>, id: int)
    requires t != []
    ensures var n := |t| - 1;
            Hit(t, f, before, after, id) <==>
              Hit(t[..n], f, before, after, id) || (t[n].id == id && Matches(t[n], f, before, after))
  {
    hide Matches;
    var n := |t| - 1;
    if Hit(t[..n], f, before, after, id) {
      var i :| 0 <= i < |t[..n]| && t[..n][i].id == id && Matches(t[..n][i], f, before, after);
      assert t[i] == t[..n][i];
    }
    if Hit(t, f, before, after, id) && !(t[n].id == id && Matches(t[n], f, before, after)) {
      var i :| 0 <= i < |t| && t[i].id == id && Matches(t[i], f, before, after);
      assert i < n && t[..n][i] == t[i];
    }
  }

  lemma ConsIds(row: Row, rest: seq<Row>)
    requires Descending(IdsOf(rest)) && forall id :: id in IdsOf(rest) ==> id < row.id
    ensures Descending(IdsOf([row] + rest))
    ensures forall id :: id in IdsOf([row] + rest) <==> id == row.id || id in IdsOf(rest)
  {
    assert IdsOf([row] + rest) == [row.id] + IdsOf(rest);
    forall i | 0 <= i < |rest|
      ensures IdsOf(rest)[i] < row.id
    {
      assert IdsOf(rest)[i] in IdsOf(rest);
    }
  }

  /** A descending list is determined by what is in it. */
  lemma {:induction false} DescendingUnique(a: seq<int>, b: seq<int>)
    requires Descending(a) && Descending(b)
    requires forall x :: x in a <==> x in b
    ensures a == b
  {
    assert |a| > 0 ==> a[0] in a;
    assert |b| > 0 ==> b[0] in b;
    if a != [] && b != [] {
      assert a[0] in b && b[0] in a;
      assert a[0] == b[0];
      assert a == [a[0]] + a[1..] && b == [b[0]] + b[1..];
      forall x
        ensures x in a[1..] <==> x in b[1..]
      {
        TailMember(a, x);
        TailMember(b, x);
      }
      DescendingUnique(a[1..], b[1..]);
    }
  }

  lemma TailMember(a: seq<int>, x: int)
    requires Descending(a) && a != []
    ensures x in a[1..] <==> x in a && x != a[0]
  {
    assert a == [a[0]] + a[1..];
  }

  // ----- The table below a seen id never changes -----

  /** `k` is no more than the last id of the table, so whatever is inserted comes above it. */
  ghost predicate Seen(t: seq<Row>, k: int) { t != [] && k <= t[|t| - 1].id }

  lemma ApplyKeepsBelow(t: seq<Row>, c: Change, f: Filter, k: int, after: Option<int>, id: int)
    requires Ascending(t) && Seen(t, k)
    ensures var r := Apply(t, c);
            Ascending(r) && Seen(r, k) && (Hit(r, f, Some(k), after, id) <==> Hit(t, f, Some(k), after, id))
  {
    var r := Apply(t, c);
    if Hit(r, f, Some(k), after, id) {
      var i :| 0 <= i < |r| && r[i].id == id && Matches(r[i], f, Some(k), after);
      assert i < |t| && t[i].id == id && Matches(t[i], f, Some(k), after);
    }
    if Hit(t, f, Some(k), after, id) {
      var i :| 0 <= i < |t| && t[i].id == id && Matches(t[i], f, Some(k), after);
      assert r[i].id == id && Matches(r[i], f, Some(k), after);
    }
  }

  /** Inserts, edits and soft deletes do not change which ids lie below a cursor that was seen. */
  lemma {:induction false} ChangesKeepBelow(t: seq<Row>, cs: seq<Change>, f: Filter, k: int, after: Option<int>)
    requires Ascending(t) && Seen(t, k)
    ensures Ascending(ApplyAll(t, cs))
    ensures IdsOf(Select(ApplyAll(t, cs), f, Some(k), after)) == IdsOf(Select(t, f, Some(k), after))
    decreases cs
  {
    if cs == [] {
    } else {
      var r := Apply(t, cs[0]);
      forall id
        ensures Ascending(r) && Seen(r, k) && (Hit(r, f, Some(k), after, id) <==> Hit(t, f, Some(k), after, id))
      {
        ApplyKeepsBelow(t, cs[0], f, k, after, id);
      }
      ApplyKeepsBelow(t, cs[0], f, k, after, 0);
      hide Apply, Hit, Seen, Ascending;
      ChangesKeepBelow(r, cs[1..], f, k, after);
      SelectIds(t, f, Some(k), after);
      SelectIds(r, f, Some(k), after);
      DescendingUnique(IdsOf(Select(r, f, Some(k), after)), IdsOf(Select(t, f, Some(k), after)));
    }
  }

  /** Asking again from the `n`th id of a listing gives what follows it in the listing. */
  lemma NextPageIsRest(t: seq<Row>, f: Filter, before: Option<int>, after: Option<int>, n: nat)
    requires Ascending(t) && 0 < n <= |Select(t, f, before, after)|
    ensures var all := IdsOf(Select(t, f, before, after));
            Seen(t, all[n - 1]) && IdsOf(Select(t, f, Some(all[n - 1]), after)) == all[n..]
  {
    var all := IdsOf(Select(t, f, before, after));
    var k := all[n - 1];
    var rest := IdsOf(Select(t, f, Some(k), after));
    SelectIds(t, f, before, after);
    SelectIds(t, f, Some(k), after);
    hide Select, IdsOf;
    assert Hit(t, f, before, after, k);
    forall id
      ensures id in rest <==> id in all[n..]
    {
      HitBelow(t, f, before, after, k, id);
      if id in all && id < k {
        var i :| 0 <= i < |all| && all[i] == id;
        assert i >= n && all[n..][i - n] == id;
      }
    }
    DescendingUnique(rest, all[n..]);
  }

  lemma HitBelow(t: seq<Row>, f: Filter, before: Option<int>, after: Option<int>, k: int, id: int)
    requires Hit(t, f, before, after, k)
    ensures Hit(t, f, Some(k), after, id) <==> Hit(t, f, before, after, id) && id < k
  {
    if Hit(t, f, Some(k), after, id) {
      var i :| 0 <= i < |t| && t[i].id == id && Matches(t[i], f, Some(k), after);
      assert Matches(t[i], f, before, after);
    }
    if Hit(t, f, before, after, id) && id < k {
      var i :| 0 <= i < |t| && t[i].id == id && Matches(t[i], f, before, after);
      assert Matches(t[i], f, Some(k), after);
    }
  }

  // ----- Paging back -----

  /** One turn of a client: the limit it asks for, and what happens to the table afterwards. */
  datatype Turn = Turn(limit: nat, changes: seq<Change>)

  /** The ids a client sees that asks again with `before` set to the last id it saw, and stops at the
      first empty page. */
  function PageBack(t: seq<Row>, f: Filter, before: Option<int>, after: Option<int>, turns: seq<Turn>): (ids: seq<int>)
    decreases turns
  {
    if turns == [] then []
    else
      var page := IdsOf(List(t, f, Page(turns[0].limit, 0, before, after)));
      if page == [] then []
      else page + PageBack(ApplyAll(t, turns[0].changes), f, Some(page[|page| - 1]), after, turns[1..])
  }

  predicate Positive(turns: seq<Turn>) { forall i :: 0 <= i < |turns| ==> turns[i].limit >= 1 }

  function TotalLimit(turns: seq<Turn>): (n: nat) {
    if turns == [] then 0 else turns[0].limit + TotalLimit(turns[1..])
  }

  function Take<T>(s: seq<T>, n: nat): (r: seq<T>) { if n <= |s| then s[..n] else s }

  lemma FirstPage(t: seq<Row>, f: Filter, before: Option<int>, after: Option<int>, limit: nat)
    ensures IdsOf(List(t, f, Page(limit, 0, before, after))) == Take(IdsOf(Select(t, f, before, after)), limit)
  {
    var all := Select(t, f, before, after);
    assert all[0..] == all;
  }

  /** Whatever is inserted, edited or soft-deleted between pages, the client sees the ids that matched
      when it started, newest first, each once, as far as its limits reach. */
  lemma {:induction false} PagingVisitsAll(t: seq<Row>, f: Filter, before: Option<int>, after: Option<int>,
                                           turns: seq<Turn>)
    requires Ascending(t) && Positive(turns)
    ensures PageBack(t, f, before, after, turns) == Take(IdsOf(Select(t, f, before, after)), TotalLimit(turns))
    decreases turns
  {
    hide Select, IdsOf, List, ApplyAll, Seen, Ascending, Take;
    var all := IdsOf(Select(t, f, before, after));
    if turns == [] {
      assert Take(all, 0) == [] by { TakeNone(all); }
    } else {
      var limit, rest := turns[0].limit, turns[1..];
      var page := Take(all, limit);
      PageBackCons(t, f, before, after, turns);
      assert Positive(rest);
      hide PageBack, Positive;
      if page == [] {
        TakeNothing(all, limit, TotalLimit(turns));
      } else {
        TakeIsPrefix(all, limit);
        SecondPage(t, f, before, after, |page|, turns[0].changes);
        TakeTwice(all, limit, TotalLimit(rest));
        var t' := ApplyAll(t, turns[0].changes);
        PagingVisitsAll(t', f, Some(page[|page| - 1]), after, rest);
      }
    }
  }

  lemma TakeNone<T>(s: seq<T>)
    ensures Take(s, 0) == []
  {}

  lemma PageBackCons(t: seq<Row>, f: Filter, before: Option<int>, after: Option<int>, turns: seq<Turn>)
    requires turns != []
    ensures var page := Take(IdsOf(Select(t, f, before, after)), turns[0].limit);
            PageBack(t, f, before, after, turns) ==
            if page == [] then []
            else page + PageBack(ApplyAll(t, turns[0].changes), f, Some(page[|page| - 1]), after, turns[1..])
  {
    FirstPage(t, f, before, after, turns[0].limit);
    hide IdsOf, Select, List, Take;
  }

  lemma TakeNothing<T>(s: seq<T>, n: nat, m: nat)
    requires Take(s, n) == [] && n >= 1
    ensures Take(s, m) == []
  {}

  lemma TakeIsPrefix<T>(s: seq<T>, n: nat)
    ensures |Take(s, n)| <= |s| && (Take(s, n) != [] ==> Take(s, n)[|Take(s, n)| - 1] == s[|Take(s, n)| - 1])
  {}

  lemma SecondPage(t: seq<Row>, f: Filter, before: Option<int>, after: Option<int>, n: nat, cs: seq<Change>)
    requires Ascending(t) && 0 < n <= |IdsOf(Select(t, f, before, after))|
    ensures Ascending(ApplyAll(t, cs))
    ensures var all := IdsOf(Select(t, f, before, after));
            IdsOf(Select(ApplyAll(t, cs), f, Some(all[n - 1]), after)) == all[n..]
  {
    var k := IdsOf(Select(t, f, before, after))[n - 1];
    NextPageIsRest(t, f, before, after, n);
    ChangesKeepBelow(t, cs, f, k, after);
  }

  lemma TakeTwice<T>(s: seq<T>, n: nat, m: nat)
    ensures Take(s, n) + Take(s[|Take(s, n)|..], m) == Take(s, n + m)
  {}

  lemma {:induction false} LimitsAddUp(turns: seq<Turn>)
    requires Positive(turns)
    ensures TotalLimit(turns) >= |turns|
  {
    if turns == [] {
    } else {
      LimitsAddUp(turns[1..]);
    }
  }

  /** After at most as many pages as there are messages, everything has been seen, in strictly
      descending order, and nothing else. */
  lemma PagingEnds(t: seq<Row>, f: Filter, before: Option<int>, after: Option<int>, turns: seq<Turn>)
    requires Ascending(t) && Positive(turns) && |turns| >= |Select(t, f, before, after)|
    ensures var seen := PageBack(t, f, before, after, turns);
            Descending(seen) && forall id :: id in seen <==> Hit(t, f, before, after, id)
  {
    PagingVisitsAll(t, f, before, after, turns);
    LimitsAddUp(turns);
    SelectIds(t, f, before, after);
  }
}
