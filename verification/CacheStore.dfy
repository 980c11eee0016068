/** The in-memory cache (`cache/in_memory_cache_store.cpp`): entries carry a deadline and are only
    dropped when a lookup trips over them or a purge sweeps. The reference is a timed map that
    forgets every entry at its deadline. */
module CacheStore {
  import opened Options
  import opened Decimal

  type Time = int

  datatype Key = Key(text: string)

  datatype Entry = Entry(value: string, deadline: Option<Time>)

  datatype SetEntry = SetEntry(members: set<string>, deadline: Option<Time>)

  type Strings = map<Key, Entry>

  predicate Past(deadline: Option<Time>, now: Time) { deadline.Some? && now >= deadline.value }

  /** A time to live of zero or less never expires. */
  function Deadline(ttl: int, now: Time): (d: Option<Time>) { if ttl <= 0 then None else Some(now + ttl) }

  function Next(e: Entry): (r: Entry) { e.(value := IntToString(FromChars(e.value) + 1)) }

  // ----- The reference: a map that forgets -----

  /** What a timed map still holds at `now`. */
  function Live(s: Strings, now: Time): (r: Strings) {
    map k | k in s && !Past(s[k].deadline, now) :: s[k]
  }

  datatype Op =
    | Set(k: Key, v: string, ttl: int)
    | Get(k: Key)
    | Exists(k: Key)
    | Incr(k: Key, ttl: int)
    | Del(k: Key)
    | Purge

  datatype Answer = Text(t: Option<string>) | Flag(b: bool) | Number(n: int)

  /** `del` and a purge answer nothing that is compared; see `DelSeesPurgeIff`. */
  predicate Answers(op: Op) { op.Get? || op.Exists? || op.Incr? }

  /** The operations on a plain map in which nothing is ever expired. */
  function PlainStep(s: Strings, op: Op, now: Time): (r: Strings) {
    match op
    case Set(k, v, ttl) => s[k := Entry(v, Deadline(ttl, now))]
    case Get(_) => s
    case Exists(_) => s
    case Incr(k, ttl) => if k in s then s[k := Next(s[k])] else s[k := Entry("1", Deadline(ttl, now))]
    case Del(k) => s - {k}
    case Purge => s
  }

  function PlainAnswer(s: Strings, op: Op): (a: Answer)
    requires Answers(op)
  {
    match op
    case Get(k) => Text(if k in s then Some(s[k].value) else None)
    case Exists(k) => Flag(k in s)
    case Incr(k, _) => Number(if k in s then FromChars(s[k].value) + 1 else 1)
  }

  // ----- The code: expired entries linger -----

  /** Erase an expired entry that a lookup finds. */
  function Touch(s: Strings, k: Key, now: Time): (r: Strings) {
    if k in s && Past(s[k].deadline, now) then s - {k} else s
  }

  function LazyStep(s: Strings, op: Op, now: Time): (r: Strings) {
    match op
    case Set(k, v, ttl) => s[k := Entry(v, Deadline(ttl, now))]
    case Get(k) => Touch(s, k, now)
    case Exists(k) => Touch(s, k, now)
    case Incr(k, ttl) =>
      var t := Touch(s, k, now);
      if k in t then t[k := Next(t[k])] else t[k := Entry("1", Deadline(ttl, now))]
    case Del(k) => s - {k}
    case Purge => Live(s, now)
  }

  function LazyAnswer(s: Strings, op: Op, now: Time): (a: Answer)
    requires Answers(op)
  {
    match op
    case Get(k) => Text(if k in s && !Past(s[k].deadline, now) then Some(s[k].value) else None)
    case Exists(k) => Flag(k in s && !Past(s[k].deadline, now))
    case Incr(k, _) => Number(if k in s && !Past(s[k].deadline, now) then FromChars(s[k].value) + 1 else 1)
  }

  // ----- Runs -----

  datatype Call = Call(op: Op, at: Time)

  /** The clock does not go back, and no call is before `from`. */
  predicate Timed(calls: seq<Call>, from: Time) {
    calls == [] || (from <= calls[0].at && Timed(calls[1..], calls[0].at))
  }

  function LazyAnswers(s: Strings, calls: seq<Call>): (a: seq<Answer>)
    decreases calls
  {
    if calls == [] then [] else
      var c := calls[0];
      (if Answers(c.op) then [LazyAnswer(s, c.op, c.at)] else []) + LazyAnswers(LazyStep(s, c.op, c.at), calls[1..])
  }

  /** The timed map: at each call, forget what is past its deadline, then act plainly. */
  function TimedAnswers(s: Strings, calls: seq<Call>): (a: seq<Answer>)
    decreases calls
  {
    if calls == [] then [] else
      var c := calls[0];
      var live := Live(s, c.at);
      (if Answers(c.op) then [PlainAnswer(live, c.op)] else []) + TimedAnswers(PlainStep(live, c.op, c.at), calls[1..])
  }

  lemma LiveOfLive(s: Strings, t: Time, u: Time)
    requires t <= u
    ensures Live(Live(s, t), u) == Live(s, u)
  {}

  /** Only live entries matter: a lazy step on the store is a plain step on what is live. */
  lemma LazyStepIsPlain(s: Strings, op: Op, now: Time)
    ensures Live(LazyStep(s, op, now), now) == Live(PlainStep(Live(s, now), op, now), now)
    ensures Answers(op) ==> LazyAnswer(s, op, now) == PlainAnswer(Live(s, now), op)
  {
    hide Next;
    if op.Incr? {
      LazyIncrIsPlain(s, op.k, op.ttl, now);
    } else {
      var a, b := Live(LazyStep(s, op, now), now), Live(PlainStep(Live(s, now), op, now), now);
      assert forall k :: k in a <==> k in b;
      assert forall k :: k in a ==> a[k] == b[k];
    }
  }

  lemma LazyIncrIsPlain(s: Strings, k: Key, ttl: int, now: Time)
    ensures Live(LazyStep(s, Incr(k, ttl), now), now) == Live(PlainStep(Live(s, now), Incr(k, ttl), now), now)
  {
    assert forall e :: Next(e).deadline == e.deadline;
    hide Next;
    var a, b := LazyStep(s, Incr(k, ttl), now), PlainStep(Live(s, now), Incr(k, ttl), now);
    forall j
      ensures j in Live(a, now) <==> j in Live(b, now)
      ensures j in Live(a, now) ==> Live(a, now)[j] == Live(b, now)[j]
    {
      assert j != k ==> (j in a <==> j in s) && (j in a ==> a[j] == s[j]);
    }
  }

  lemma {:induction false} AgreeingStores(s: Strings, r: Strings, calls: seq<Call>, now: Time)
    requires Live(s, now) == Live(r, now) && Timed(calls, now)
    ensures LazyAnswers(s, calls) == TimedAnswers(r, calls)
    decreases calls
  {
    if calls == [] {
    } else {
      hide Live, LazyStep, PlainStep, LazyAnswer, PlainAnswer;
      var c := calls[0];
      LiveOfLive(s, now, c.at);
      LiveOfLive(r, now, c.at);
      LazyStepIsPlain(s, c.op, c.at);
      AgreeingStores(LazyStep(s, c.op, c.at), PlainStep(Live(r, c.at), c.op, c.at), calls[1..], c.at);
    }
  }

  /** From any store and over any run, `get`, `exists` and `incr` answer as the timed map does. */
  lemma LazyStoreIsTimedMap(s: Strings, calls: seq<Call>, now: Time)
    requires Timed(calls, now)
    ensures LazyAnswers(s, calls) == TimedAnswers(s, calls)
  {
    AgreeingStores(s, s, calls, now);
  }

  // ----- Purges are invisible -----

  function WithoutPurges(calls: seq<Call>): (r: seq<Call>) {
    if calls == [] then []
    else (if calls[0].op.Purge? then [] else [calls[0]]) + WithoutPurges(calls[1..])
  }

  lemma {:induction false} PurgesAddNothing(s: Strings, r: Strings, calls: seq<Call>, now: Time)
    requires Live(s, now) == Live(r, now) && Timed(calls, now)
    ensures TimedAnswers(s, calls) == TimedAnswers(r, WithoutPurges(calls))
    decreases calls
  {
    if calls == [] {
    } else {
      var c, rest := calls[0], WithoutPurges(calls[1..]);
      LiveOfLive(s, now, c.at);
      LiveOfLive(r, now, c.at);
      LiveOfLive(s, c.at, c.at);
      var next := PlainStep(Live(s, c.at), c.op, c.at);
      assert c.op.Purge? ==> next == Live(s, c.at);
      hide Live, PlainStep, PlainAnswer;
      if c.op.Purge? {
        assert WithoutPurges(calls) == rest;
        PurgesAddNothing(next, r, calls[1..], c.at);
      } else {
        assert WithoutPurges(calls) == [c] + rest && ([c] + rest)[1..] == rest;
        PurgesAddNothing(next, next, calls[1..], c.at);
      }
    }
  }

  /** Two runs of the code that differ only in where purges were inserted give the same answers. */
  lemma PurgesAreInvisible(s: Strings, calls: seq<Call>, others: seq<Call>, now: Time)
    requires Timed(calls, now) && Timed(others, now) && WithoutPurges(calls) == WithoutPurges(others)
    ensures LazyAnswers(s, calls) == LazyAnswers(s, others)
  {
    LazyStoreIsTimedMap(s, calls, now);
    LazyStoreIsTimedMap(s, others, now);
    PurgesAddNothing(s, s, calls, now);
    PurgesAddNothing(s, s, others, now);
  }

  // ----- What a key is worth after a run -----

  function LazyRun(s: Strings, calls: seq<Call>): (r: Strings)
    decreases calls
  {
    if calls == [] then s else LazyRun(LazyStep(s, calls[0].op, calls[0].at), calls[1..])
  }

  /** Calls that do not write the key: anything on other keys, lookups, and purges. */
  predicate Spares(calls: seq<Call>, k: Key) {
    forall i :: 0 <= i < |calls| ==>
      calls[i].op.Purge? || calls[i].op.Get? || calls[i].op.Exists? || calls[i].op.k != k
  }

  /** Either the entry is stored as it was, or it is past its deadline and gone. */
  ghost predicate KeptOrPast(s: Strings, k: Key, e: Entry, now: Time) {
    (k in s ==> s[k] == e) && (k !in s ==> Past(e.deadline, now))
  }

  lemma {:induction false} KeptUntilPast(s: Strings, calls: seq<Call>, k: Key, e: Entry, from: Time, now: Time)
    requires KeptOrPast(s, k, e, from) && Timed(calls, from) && Spares(calls, k)
    requires from <= now && (calls != [] ==> calls[|calls| - 1].at <= now)
    ensures KeptOrPast(LazyRun(s, calls), k, e, now)
    decreases calls
  {
    if calls == [] {
    } else {
      var c := calls[0];
      assert Spares(calls[1..], k);
      TimedEnds(calls, from);
      assert KeptOrPast(LazyStep(s, c.op, c.at), k, e, c.at) by { hide Next; }
      hide LazyStep, KeptOrPast;
      KeptUntilPast(LazyStep(s, c.op, c.at), calls[1..], k, e, c.at, now);
    }
  }

  lemma {:induction false} TimedEnds(calls: seq<Call>, from: Time)
    requires Timed(calls, from) && calls != []
    ensures from <= calls[0].at <= calls[|calls| - 1].at
    decreases calls
  {
    if |calls| == 1 {
    } else {
      TimedEnds(calls[1..], calls[0].at);
    }
  }

  /** A value that was set is found by `get` and `exists` and counted on by `incr` until its time to live is
      over, or for ever with a time to live of zero or less, whatever else happens; then it is not found, and
      `incr` starts at one. */
  lemma SetIsRemembered(s: Strings, k: Key, v: string, ttl: int, at: Time, calls: seq<Call>, now: Time, t: int)
    requires Timed(calls, at) && Spares(calls, k) && at <= now && (calls != [] ==> calls[|calls| - 1].at <= now)
    ensures var r := LazyRun(LazyStep(s, Set(k, v, ttl), at), calls);
            var live := ttl <= 0 || now < at + ttl;
            && LazyAnswer(r, Get(k), now) == Text(if live then Some(v) else None)
            && LazyAnswer(r, Exists(k), now) == Flag(live)
            && LazyAnswer(r, Incr(k, t), now) == Number(if live then FromChars(v) + 1 else 1)
  {
    var first := LazyStep(s, Set(k, v, ttl), at);
    KeptUntilPast(first, calls, k, Entry(v, Deadline(ttl, at)), at, now);
    hide LazyRun;
  }

  /** A key that was deleted is not found, and `incr` starts it at one with its own time to live. */
  lemma DelIsRemembered(s: Strings, k: Key, at: Time, calls: seq<Call>, now: Time, t: int)
    requires Timed(calls, at) && Spares(calls, k)
    ensures var r := LazyRun(LazyStep(s, Del(k), at), calls);
            && LazyAnswer(r, Get(k), now) == Text(None) && LazyAnswer(r, Exists(k), now) == Flag(false)
            && LazyAnswer(r, Incr(k, t), now) == Number(1)
            && k in LazyStep(r, Incr(k, t), now)
            && LazyStep(r, Incr(k, t), now)[k] == Entry("1", if t <= 0 then None else Some(now + t))
  {
    AbsentStays(LazyStep(s, Del(k), at), calls, k);
    hide LazyRun;
  }

  lemma {:induction false} AbsentStays(s: Strings, calls: seq<Call>, k: Key)
    requires k !in s && Spares(calls, k)
    ensures k !in LazyRun(s, calls)
    decreases calls
  {
    if calls == [] {
    } else {
      assert Spares(calls[1..], k);
      assert k !in LazyStep(s, calls[0].op, calls[0].at) by { hide Next; }
      hide LazyStep;
      AbsentStays(LazyStep(s, calls[0].op, calls[0].at), calls[1..], k);
    }
  }

  /** A live counter goes up by one and keeps its deadline. */
  lemma IncrCounts(s: Strings, k: Key, n: int, d: Option<Time>, t: int, now: Time)
    requires k in s && s[k] == Entry(IntToString(n), d) && !Past(d, now) && INT64_MIN <= n < INT64_MAX
    ensures LazyStep(s, Incr(k, t), now)[k] == Entry(IntToString(n + 1), d)
    ensures LazyAnswer(s, Incr(k, t), now) == Number(n + 1)
  {
    FromCharsReadsToString(n);
  }

  // ----- The store itself -----

  class InMemoryCacheStore {
    var strings: Strings
    var sets: map<Key, SetEntry>

    constructor ()
      ensures strings == map[] && sets == map[]
    {
      strings, sets := map[], map[];
    }

    method SetText(k: Key, v: string, ttl: int, now: Time)
      modifies this
      ensures strings == LazyStep(old(strings), Set(k, v, ttl), now) && sets == old(sets)
    {
      strings := strings[k := Entry(v, if ttl <= 0 then None else Some(now + ttl))];
    }

    method GetText(k: Key, now: Time) returns (v: Option<string>)
      modifies this
      ensures strings == LazyStep(old(strings), Get(k), now) && sets == old(sets)
      ensures Text(v) == LazyAnswer(old(strings), Get(k), now)
    {
      if k !in strings {
        return None;
      }
      if Past(strings[k].deadline, now) {
        strings := strings - {k};
        return None;
      }
      return Some(strings[k].value);
    }

    method HasText(k: Key, now: Time) returns (b: bool)
      modifies this
      ensures strings == LazyStep(old(strings), Exists(k), now) && sets == old(sets)
      ensures Flag(b) == LazyAnswer(old(strings), Exists(k), now)
    {
      if k !in strings {
        return false;
      }
      if Past(strings[k].deadline, now) {
        strings := strings - {k};
        return false;
      }
      return true;
    }

    method Increment(k: Key, ttl: int, now: Time) returns (n: int)
      modifies this
      ensures strings == LazyStep(old(strings), Incr(k, ttl), now) && sets == old(sets)
      ensures Number(n) == LazyAnswer(old(strings), Incr(k, ttl), now)
    {
      if k in strings && Past(strings[k].deadline, now) {
        strings := strings - {k};
      }
      if k !in strings {
        strings := strings[k := Entry("1", Deadline(ttl, now))];
        return 1;
      }
      n := FromChars(strings[k].value) + 1;
      strings := strings[k := strings[k].(value := IntToString(n))];
    }

    method Delete(k: Key) returns (erased: bool)
      modifies this
      ensures strings == old(strings) - {k} && sets == old(sets) - {k}
      ensures erased <==> Erases(old(strings), old(sets), k)
    {
      erased := k in strings || k in sets;
      strings, sets := strings - {k}, sets - {k};
    }

    method PurgeStrings(now: Time) returns (purged: nat)
      modifies this`strings
      ensures strings == Live(old(strings), now) && purged == |old(strings)| - |strings|
    {
      purged := 0;
      var keys := strings.Keys;
      while keys != {}
        invariant keys <= strings.Keys <= old(strings).Keys
        invariant forall k :: k in strings ==> strings[k] == old(strings)[k]
        invariant forall k :: k in old(strings) && k !in keys ==>
                    (k in strings <==> !Past(old(strings)[k].deadline, now))
        invariant purged + |strings| == |old(strings)|
        decreases |keys|
      {
        var k :| k in keys;
        keys := keys - {k};
        if Past(strings[k].deadline, now) {
          RemoveOne(strings, k);
          strings := strings - {k};
          purged := purged + 1;
        }
      }
    }

    method PurgeSets(now: Time) returns (purged: nat)
      modifies this`sets
      ensures sets == LiveSets(old(sets), now) && purged == |old(sets)| - |sets|
    {
      purged := 0;
      var keys := sets.Keys;
      while keys != {}
        invariant keys <= sets.Keys <= old(sets).Keys
        invariant forall k :: k in sets ==> sets[k] == old(sets)[k]
        invariant forall k :: k in old(sets) && k !in keys ==> (k in sets <==> !Past(old(sets)[k].deadline, now))
        invariant purged + |sets| == |old(sets)|
        decreases |keys|
      {
        var k :| k in keys;
        keys := keys - {k};
        if Past(sets[k].deadline, now) {
          RemoveOne(sets, k);
          sets := sets - {k};
          purged := purged + 1;
        }
      }
    }

    /** Sweeps both maps; the count is what was erased. */
    method PurgeExpired(now: Time) returns (purged: nat)
      modifies this
      ensures strings == Live(old(strings), now) && sets == LiveSets(old(sets), now)
      ensures purged == |old(strings)| - |strings| + |old(sets)| - |sets|
    {
      var a := PurgeStrings(now);
      var b := PurgeSets(now);
      return a + b;
    }
  }

  function LiveSets(s: map<Key, SetEntry>, now: Time): (r: map<Key, SetEntry>) {
    map k | k in s && !Past(s[k].deadline, now) :: s[k]
  }

  lemma RemoveOne<K, V>(m: map<K, V>, k: K)
    requires k in m
    ensures |m - {k}| + 1 == |m|
  {
    assert (m - {k}).Keys == m.Keys - {k};
  }

  /** What `del` answers: whether it erased anything, expired or not. */
  predicate Erases(strings: Strings, sets: map<Key, SetEntry>, k: Key) { k in strings || k in sets }

  /** `del` answers the same whether or not a purge came first, except exactly when something is stored
      under the key and all of it has expired. */
  lemma DelSeesPurgeIff(strings: Strings, sets: map<Key, SetEntry>, k: Key, now: Time)
    ensures Erases(strings, sets, k) == Erases(Live(strings, now), LiveSets(sets, now), k) <==>
            !((k in strings || k in sets) &&
              (k in strings ==> Past(strings[k].deadline, now)) && (k in sets ==> Past(sets[k].deadline, now)))
  {}

  /** A value set to live for one tick: a tick later `del` erases it, but after a purge it finds nothing. */
  lemma DelTellsOfPurge(k: Key, v: string, now: Time)
    ensures var strings := LazyStep(map[], Set(k, v, 1), now);
            Erases(strings, map[], k) && !Erases(LazyStep(strings, Purge, now + 1), LiveSets(map[], now + 1), k)
  {}

  /** A purge leaves of both maps exactly the entries whose deadline, if any, is still to come. */
  lemma PurgeLeavesLive(strings: Strings, sets: map<Key, SetEntry>, k: Key, now: Time)
    ensures k in Live(strings, now) <==>
            k in strings && (strings[k].deadline.None? || now < strings[k].deadline.value)
    ensures k in Live(strings, now) ==> Live(strings, now)[k] == strings[k]
    ensures k in LiveSets(sets, now) <==> k in sets && (sets[k].deadline.None? || now < sets[k].deadline.value)
    ensures k in LiveSets(sets, now) ==> LiveSets(sets, now)[k] == sets[k]
  {}
}
