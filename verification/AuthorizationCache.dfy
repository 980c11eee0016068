/** Role and ban lookups through the cache (`services/authorization_service.cpp`), with the steps of
    concurrent lookups, writes and invalidations interleaved in any order. */
module AuthorizationCache {
  import opened Options
  import opened Ids
  import opened Decimal
  import opened Sequences
  import C = CacheStore

  type Time = int

  datatype Role = Member | Moderator | Admin | SuperAdmin

  function RoleName(r: Role): (s: string) {
    match r
    case Member => "user"
    case Moderator => "moderator"
    case Admin => "admin"
    case SuperAdmin => "super_admin"
  }

  function ParseRole(s: string): (r: Option<Role>) {
    if s == "user" then Some(Member)
    else if s == "moderator" then Some(Moderator)
    else if s == "admin" then Some(Admin)
    else if s == "super_admin" then Some(SuperAdmin)
    else None
  }

  /** How the roles are spelled, and that nothing else is a role. */
  lemma RolesAreSpelled(s: string)
    ensures ParseRole("user") == Some(Member) && ParseRole("moderator") == Some(Moderator)
    ensures ParseRole("admin") == Some(Admin) && ParseRole("super_admin") == Some(SuperAdmin)
    ensures ParseRole(s).Some? <==> s == "user" || s == "moderator" || s == "admin" || s == "super_admin"
    ensures ParseRole(s).Some? ==> RoleName(ParseRole(s).value) == s
  {}

  datatype Account = Account(role: Role, banned: bool)

  type Db = map<User, Account>

  datatype Question = RoleOf(u: User) | IsBanned(u: User)

  datatype Answer = ARole(r: Role) | ABan(b: bool)

  /** What the database says; a missing user has the default role and is not banned. */
  function Truth(db: Db, q: Question): (a: Answer) {
    match q
    case RoleOf(u) => ARole(if u in db then db[u].role else Member)
    case IsBanned(u) => ABan(u in db && db[u].banned)
  }

  /** A question is answered from the account: its role or its ban; a user without one is a plain user and
      not banned. */
  lemma TruthIsAccount(db: Db, u: User)
    ensures u in db ==> Truth(db, RoleOf(u)) == ARole(db[u].role) && Truth(db, IsBanned(u)) == ABan(db[u].banned)
    ensures u !in db ==> Truth(db, RoleOf(u)) == ARole(Member) && Truth(db, IsBanned(u)) == ABan(false)
  {}

  function KeyOf(q: Question): (k: C.Key) {
    match q
    case RoleOf(u) => C.Key("authz:role:" + IntToString(u.id))
    case IsBanned(u) => C.Key("authz:banned:" + IntToString(u.id))
  }

  function Encode(a: Answer): (s: string) {
    match a
    case ARole(r) => RoleName(r)
    case ABan(b) => if b then "1" else "0"
  }

  /** A cached role that no longer parses counts as a miss; any ban text but "1" means not banned. */
  function Decode(q: Question, s: string): (a: Option<Answer>) {
    match q
    case RoleOf(_) => (match ParseRole(s) case Some(r) => Some(ARole(r)) case None => None)
    case IsBanned(_) => Some(ABan(s == "1"))
  }

  predicate Fits(q: Question, a: Answer) { q.RoleOf? <==> a.ARole? }

  lemma DecodeUndoesEncode(q: Question, a: Answer)
    requires Fits(q, a)
    ensures Decode(q, Encode(a)) == Some(a)
  {}

  /** A cached role is read exactly when it is spelled as one, and only the text "1" is read as a ban. */
  lemma DecodeReads(u: User, s: string)
    ensures Decode(RoleOf(u), s).Some? <==> exists r :: RoleName(r) == s
    ensures Decode(RoleOf(u), s).Some? ==> RoleName(Decode(RoleOf(u), s).value.r) == s
    ensures Decode(IsBanned(u), s) == Some(ABan(true)) <==> s == "1"
    ensures Decode(IsBanned(u), s) == Some(ABan(false)) <==> s != "1"
  {
    if Decode(RoleOf(u), s).Some? {
      assert RoleName(ParseRole(s).value) == s;
    }
  }

  /** No two questions share a cache key. */
  lemma KeysAreDistinct(p: Question, q: Question)
    ensures KeyOf(p) == KeyOf(q) ==> p == q
  {
    var s, t := KeyOf(p).text, KeyOf(q).text;
    if p.RoleOf? != q.RoleOf? {
      assert s[6] != t[6];
    } else {
      var n := if p.RoleOf? then |"authz:role:"| else |"authz:banned:"|;
      assert s[n..] == IntToString(p.u.id) && t[n..] == IntToString(q.u.id);
      IntToStringIsInjective(p.u.id, q.u.id);
    }
  }

  // ----- The service, one call at a time -----

  class AuthorizationService {
    const cache: C.InMemoryCacheStore
    const ttl: int
    var users: Db
    var hits: nat
    var misses: nat

    constructor (cache: C.InMemoryCacheStore, ttl: int, users: Db)
      ensures this.cache == cache && this.ttl == ttl && this.users == users && hits == 0 && misses == 0
    {
      this.cache, this.ttl, this.users := cache, ttl, users;
      hits, misses := 0, 0;
    }

    /** What a lookup finds in the cache, if it finds something it can read. */
    ghost function Cached(q: Question, now: Time): (a: Option<Answer>)
      reads this, cache
    {
      var live := C.Live(cache.strings, now);
      if KeyOf(q) in live then Decode(q, live[KeyOf(q)].value) else None
    }

    method Ask(q: Question, now: Time) returns (a: Answer)
      modifies this`hits, this`misses, cache
      ensures cache.sets == old(cache.sets)
      ensures a == if old(Cached(q, now)).Some? then old(Cached(q, now)).value else Truth(users, q)
      ensures old(Cached(q, now)).None? ==>
                match q
                case RoleOf(u) => a == ARole(if u in users then users[u].role else Member)
                case IsBanned(u) => a == ABan(if u in users then users[u].banned else false)
      ensures hits == old(hits) + if KeyOf(q) in C.Live(old(cache.strings), now) then 1 else 0
      ensures misses == old(misses) + if old(Cached(q, now)).Some? then 0 else 1
      ensures cache.strings ==
              if old(Cached(q, now)).Some? then old(cache.strings)
              else C.LazyStep(C.LazyStep(old(cache.strings), C.Get(KeyOf(q)), now),
                              C.Set(KeyOf(q), Encode(a), ttl), now)
    {
      var cached := cache.GetText(KeyOf(q), now);
      if cached.Some? {
        hits := hits + 1;
        var parsed := Decode(q, cached.value);
        if parsed.Some? {
          return parsed.value;
        }
      }
      misses := misses + 1;
      a := Truth(users, q);
      cache.SetText(KeyOf(q), Encode(a), ttl, now);
    }

    method Invalidate(u: User)
      modifies cache
      ensures cache.strings == old(cache.strings) - {KeyOf(RoleOf(u)), KeyOf(IsBanned(u))}
      ensures cache.sets == old(cache.sets) - {KeyOf(RoleOf(u)), KeyOf(IsBanned(u))}
    {
      var _ := cache.Delete(KeyOf(RoleOf(u)));
      var _ := cache.Delete(KeyOf(IsBanned(u)));
      assert cache.strings == old(cache.strings) - {KeyOf(RoleOf(u)), KeyOf(IsBanned(u))};
      assert cache.sets == old(cache.sets) - {KeyOf(RoleOf(u)), KeyOf(IsBanned(u))};
    }
  }

  // ----- Interleaved lookups -----

  /** A lookup that has read the database and not yet filled the cache. */
  datatype Fill = Fill(q: Question, a: Answer, readAt: Time)

  /** An answer given at `at`, which the database had given at `readAt` to the lookup that put it in
      the cache at `filledAt`. */
  datatype Given = Given(q: Question, a: Answer, at: Time, readAt: Time, filledAt: Time)

  /** `waiting` are lookups that missed, `history` every content the database has had and since when,
      `source` for each question the read behind its last fill. */
  datatype State = State(
    now: Time, history: seq<(Time, Db)>, store: C.Strings,
    waiting: seq<Question>, fills: seq<Fill>, source: map<Question, (Fill, Time)>, given: seq<Given>)

  datatype Event =
    | Passes(t: nat)              // time goes by
    | Writes(u: User, account: Option<Account>)
    | Invalidates(u: User)
    | Purges
    | Asks(q: Question)
    | Reads(i: nat)               // lookup `i` that missed reads the database
    | Fills(j: nat)               // a fill reaches the cache, and its lookup returns

  function Current(s: State): (db: Db)
    requires s.history != []
  {
    s.history[|s.history| - 1].1
  }

  function Step(s: State, e: Event, ttl: int): (r: State)
    requires s.history != []
    ensures r.history != []
  {
    match e
    case Passes(t) => s.(now := s.now + t)
    case Writes(u, account) =>
      var db := Current(s);
      s.(history := s.history + [(s.now, if account.Some? then db[u := account.value] else db - {u})])
    case Invalidates(u) => s.(store := s.store - {KeyOf(RoleOf(u)), KeyOf(IsBanned(u))})
    case Purges => s.(store := C.Live(s.store, s.now))
    case Asks(q) =>
      var hit := Found(s, q);
      var t := s.(store := C.LazyStep(s.store, C.Get(KeyOf(q)), s.now));
      if hit.Some? && q in s.source  // what is cached always has a source, by `CachedOk`
      then t.(given := s.given + [Given(q, hit.value, s.now, s.source[q].0.readAt, s.source[q].1)])
      else t.(waiting := s.waiting + [q])
    case Reads(i) =>
      if i >= |s.waiting| then s
      else s.(waiting := Without(s.waiting, i),
              fills := s.fills + [Fill(s.waiting[i], Truth(Current(s), s.waiting[i]), s.now)])
    case Fills(j) =>
      if j >= |s.fills| then s
      else
        var f := s.fills[j];
        s.(fills := Without(s.fills, j),
           store := C.LazyStep(s.store, C.Set(KeyOf(f.q), Encode(f.a), ttl), s.now),
           source := s.source[f.q := (f, s.now)],
           given := s.given + [Given(f.q, f.a, s.now, f.readAt, s.now)])
  }

  /** The live cached answer to a question. */
  function Found(s: State, q: Question): (a: Option<Answer>) {
    if KeyOf(q) !in s.store || C.Past(s.store[KeyOf(q)].deadline, s.now) then None
    else Decode(q, s.store[KeyOf(q)].value)
  }

  function Run(s: State, events: seq<Event>, ttl: int): (r: State)
    requires s.history != []
    ensures r.history != []
    decreases events
  {
    if events == [] then s else Run(Step(s, events[0], ttl), events[1..], ttl)
  }

  function Start(db: Db, now: Time): (s: State)
    ensures s.history != []
  {
    State(now, [(now, db)], map[], [], [], map[], [])
  }

  // ----- Bounded staleness -----

  /** The `i`th content was in force at time `t` and gives this answer. */
  ghost predicate HeldBy(history: seq<(Time, Db)>, i: int, q: Question, a: Answer, t: Time) {
    && 0 <= i < |history| && history[i].0 <= t && (i + 1 < |history| ==> t <= history[i + 1].0)
    && Truth(history[i].1, q) == a
  }

  /** Some content the database had at time `t` gives this answer. */
  ghost predicate Held(history: seq<(Time, Db)>, q: Question, a: Answer, t: Time) {
    exists i :: HeldBy(history, i, q, a, t)
  }

  ghost predicate FillOk(s: State, f: Fill) {
    Fits(f.q, f.a) && f.readAt <= s.now && Held(s.history, f.q, f.a, f.readAt)
  }

  ghost predicate GivenOk(s: State, g: Given, ttl: int) {
    && g.readAt <= g.filledAt <= g.at < g.filledAt + ttl
    && g.at <= s.now && Held(s.history, g.q, g.a, g.readAt)
  }

  /** What is cached for a question is its last fill, with that fill's deadline. */
  ghost predicate CachedOk(s: State, q: Question, ttl: int) {
    KeyOf(q) in s.store ==>
      && q in s.source && s.source[q].0.q == q
      && FillOk(s, s.source[q].0) && s.source[q].0.readAt <= s.source[q].1 <= s.now
      && s.store[KeyOf(q)] == C.Entry(Encode(s.source[q].0.a), Some(s.source[q].1 + ttl))
  }

  ghost predicate Inv(s: State, ttl: int) {
    && s.history != []
    && (forall i :: 0 <= i < |s.history| ==> s.history[i].0 <= s.now)
    && (forall q :: CachedOk(s, q, ttl))
    && (forall j :: 0 <= j < |s.fills| ==> FillOk(s, s.fills[j]))
    && (forall j :: 0 <= j < |s.given| ==> GivenOk(s, s.given[j], ttl))
  }

  lemma HeldStays(history: seq<(Time, Db)>, next: (Time, Db), q: Question, a: Answer, t: Time)
    requires Held(history, q, a, t) && t <= next.0
    ensures Held(history + [next], q, a, t)
  {
    var i :| HeldBy(history, i, q, a, t);
    assert HeldBy(history + [next], i, q, a, t);
  }

  lemma HeldNow(s: State, q: Question)
    requires s.history != [] && s.history[|s.history| - 1].0 <= s.now
    ensures Held(s.history, q, Truth(Current(s), q), s.now)
  {
    assert HeldBy(s.history, |s.history| - 1, q, Truth(Current(s), q), s.now);
  }

  /** Facts about reads already made survive time and further writes. */
  lemma FactsStay(s: State, r: State, ttl: int)
    requires Inv(s, ttl) && s.now <= r.now
    requires || r.history == s.history
             || (&& |r.history| == |s.history| + 1 && r.history[|s.history|].0 == s.now
                 && r.history == s.history + [r.history[|s.history|]])
    ensures forall f :: FillOk(s, f) ==> FillOk(r, f)
    ensures forall g :: GivenOk(s, g, ttl) ==> GivenOk(r, g, ttl)
  {
    if r.history != s.history {
      forall q, a, t | t <= s.now && Held(s.history, q, a, t)
        ensures Held(r.history, q, a, t)
      {
        HeldStays(s.history, r.history[|s.history|], q, a, t);
      }
    }
  }

  lemma ClockAndWritesKeepInv(s: State, e: Event, ttl: int)
    requires Inv(s, ttl) && (e.Passes? || e.Writes?)
    ensures Inv(Step(s, e, ttl), ttl)
  {
    var r := Step(s, e, ttl);
    hide FillOk, GivenOk;
    FactsStay(s, r, ttl);
    forall q
      ensures CachedOk(r, q, ttl)
    {
      assert CachedOk(s, q, ttl);
    }
  }

  lemma DroppingKeepsInv(s: State, e: Event, ttl: int)
    requires Inv(s, ttl) && (e.Invalidates? || e.Purges?)
    ensures Inv(Step(s, e, ttl), ttl)
  {
    var r := Step(s, e, ttl);
    hide Held, KeyOf;
    FactsStay(s, r, ttl);
    forall q
      ensures CachedOk(r, q, ttl)
    {
      assert CachedOk(s, q, ttl);
    }
  }

  lemma HitIsOk(s: State, q: Question, ttl: int)
    requires CachedOk(s, q, ttl) && Found(s, q).Some?
    ensures q in s.source
    ensures GivenOk(s, Given(q, Found(s, q).value, s.now, s.source[q].0.readAt, s.source[q].1), ttl)
  {
    hide Held, KeyOf, Encode, Decode;
    DecodeUndoesEncode(q, s.source[q].0.a);
  }

  lemma AskKeepsCached(s: State, q: Question, p: Question, ttl: int)
    requires s.history != [] && CachedOk(s, p, ttl)
    ensures CachedOk(Step(s, Asks(q), ttl), p, ttl)
  {
    hide Held, KeyOf, Encode, Decode, Found;
  }

  lemma AskKeepsInv(s: State, q: Question, ttl: int)
    requires Inv(s, ttl)
    ensures Inv(Step(s, Asks(q), ttl), ttl)
  {
    var r := Step(s, Asks(q), ttl);
    hide CachedOk, GivenOk, FillOk, KeyOf, Found;
    if Found(s, q).Some? {
      assert CachedOk(s, q, ttl);
      HitIsOk(s, q, ttl);
    }
    FactsStay(s, r, ttl);
    forall p
      ensures CachedOk(r, p, ttl)
    {
      assert CachedOk(s, p, ttl);
      AskKeepsCached(s, q, p, ttl);
    }
  }

  lemma ReadKeepsInv(s: State, i: nat, ttl: int)
    requires Inv(s, ttl)
    ensures Inv(Step(s, Reads(i), ttl), ttl)
  {
    var r := Step(s, Reads(i), ttl);
    if i < |s.waiting| {
      HeldNow(s, s.waiting[i]);
      hide Held, KeyOf;
      FactsStay(s, r, ttl);
      forall q
        ensures CachedOk(r, q, ttl)
      {
        assert CachedOk(s, q, ttl);
      }
    }
  }

  lemma FillKeepsCached(s: State, j: nat, q: Question, ttl: int)
    requires s.history != [] && CachedOk(s, q, ttl) && ttl > 0
    requires j < |s.fills| && FillOk(s, s.fills[j])
    ensures CachedOk(Step(s, Fills(j), ttl), q, ttl)
  {
    hide Held, KeyOf, Encode;
    KeysAreDistinct(q, s.fills[j].q);
  }

  lemma FillKeepsInv(s: State, j: nat, ttl: int)
    requires Inv(s, ttl) && ttl > 0
    ensures Inv(Step(s, Fills(j), ttl), ttl)
  {
    var r := Step(s, Fills(j), ttl);
    if j < |s.fills| {
      assert FillOk(s, s.fills[j]);
      assert GivenOk(s, r.given[|s.given|], ttl) by { hide Held; }
      hide CachedOk, GivenOk, FillOk, KeyOf;
      FactsStay(s, r, ttl);
      forall q
        ensures CachedOk(r, q, ttl)
      {
        assert CachedOk(s, q, ttl);
        FillKeepsCached(s, j, q, ttl);
      }
    }
  }

  lemma StepKeepsInv(s: State, e: Event, ttl: int)
    requires Inv(s, ttl) && ttl > 0
    ensures Inv(Step(s, e, ttl), ttl)
  {
    match e
    case Passes(_) => ClockAndWritesKeepInv(s, e, ttl);
    case Writes(_, _) => ClockAndWritesKeepInv(s, e, ttl);
    case Invalidates(_) => DroppingKeepsInv(s, e, ttl);
    case Purges => DroppingKeepsInv(s, e, ttl);
    case Asks(q) => AskKeepsInv(s, q, ttl);
    case Reads(i) => ReadKeepsInv(s, i, ttl);
    case Fills(j) => FillKeepsInv(s, j, ttl);
  }

  lemma {:induction false} RunKeepsInv(s: State, events: seq<Event>, ttl: int)
    requires Inv(s, ttl) && ttl > 0
    ensures Inv(Run(s, events, ttl), ttl)
    decreases events
  {
    if events == [] {
    } else {
      hide Inv, Step;
      StepKeepsInv(s, events[0], ttl);
      RunKeepsInv(Step(s, events[0], ttl), events[1..], ttl);
    }
  }

  /** Every answer ever given is one the database held at a moment no earlier than the time of the
      answer, less the time to live, less what the fill took from reading to caching. */
  lemma AnswersAreRecent(db: Db, start: Time, events: seq<Event>, ttl: int, i: nat)
    requires ttl > 0
    requires i < |Run(Start(db, start), events, ttl).given|
    ensures var s := Run(Start(db, start), events, ttl);
            var g := s.given[i];
            && Held(s.history, g.q, g.a, g.readAt)
            && g.at - ttl - (g.filledAt - g.readAt) < g.readAt <= g.at
  {
    hide Held;
    RunKeepsInv(Start(db, start), events, ttl);
  }

  // ----- Fresh answers after a write -----

  /** Every lookup of the question from here on is bound to give the current truth: what is cached is
      true, and so is what any fill under way carries. */
  ghost predicate Coherent(s: State, q: Question)
    requires s.history != []
  {
    && (Found(s, q).Some? ==> Found(s, q).value == Truth(Current(s), q))
    && (forall j :: 0 <= j < |s.fills| && s.fills[j].q == q ==> s.fills[j].a == Truth(Current(s), q))
  }

  /** The answers to `q` given after the first `n` are all `a`. */
  ghost predicate AllAnswer(s: State, q: Question, n: nat, a: Answer) {
    forall j :: n <= j < |s.given| && s.given[j].q == q ==> s.given[j].a == a
  }

  predicate NoWrites(events: seq<Event>) { forall i :: 0 <= i < |events| ==> !events[i].Writes? }

  lemma CoherentFill(s: State, q: Question, j: nat, ttl: int, n: nat)
    requires s.history != [] && Coherent(s, q) && AllAnswer(s, q, n, Truth(Current(s), q))
    ensures var r := Step(s, Fills(j), ttl);
            Coherent(r, q) && Current(r) == Current(s) && AllAnswer(r, q, n, Truth(Current(r), q))
  {
    hide KeyOf, Encode, Decode, Truth;
    if j < |s.fills| {
      var f := s.fills[j];
      KeysAreDistinct(q, f.q);
      if f.q == q {
        TruthFits(Current(s), q);
        DecodeUndoesEncode(q, f.a);
      }
    }
  }

  lemma CoherentAsk(s: State, q: Question, p: Question, ttl: int, n: nat)
    requires s.history != [] && Coherent(s, q) && AllAnswer(s, q, n, Truth(Current(s), q))
    ensures var r := Step(s, Asks(p), ttl);
            Coherent(r, q) && Current(r) == Current(s) && AllAnswer(r, q, n, Truth(Current(r), q))
  {
    hide KeyOf, Encode, Decode, Truth;
  }

  lemma CoherentOther(s: State, q: Question, e: Event, ttl: int, n: nat)
    requires s.history != [] && Coherent(s, q) && AllAnswer(s, q, n, Truth(Current(s), q))
    requires !e.Writes? && !e.Fills? && !e.Asks?
    ensures var r := Step(s, e, ttl);
            Coherent(r, q) && Current(r) == Current(s) && AllAnswer(r, q, n, Truth(Current(r), q))
  {
    hide KeyOf, Encode, Decode, Truth;
  }

  lemma CoherentStep(s: State, q: Question, e: Event, ttl: int, n: nat)
    requires s.history != [] && Coherent(s, q) && !e.Writes? && AllAnswer(s, q, n, Truth(Current(s), q))
    ensures var r := Step(s, e, ttl);
            Coherent(r, q) && Current(r) == Current(s) && AllAnswer(r, q, n, Truth(Current(r), q))
  {
    hide Step, Coherent, AllAnswer, Truth;
    match e
    case Fills(j) => CoherentFill(s, q, j, ttl, n);
    case Asks(p) => CoherentAsk(s, q, p, ttl, n);
    case _ => CoherentOther(s, q, e, ttl, n);
  }

  lemma TruthFits(db: Db, q: Question)
    ensures Fits(q, Truth(db, q))
  {}

  lemma {:induction false} CoherentRun(s: State, q: Question, events: seq<Event>, ttl: int, n: nat)
    requires s.history != [] && Coherent(s, q) && NoWrites(events) && AllAnswer(s, q, n, Truth(Current(s), q))
    ensures var r := Run(s, events, ttl); Current(r) == Current(s) && AllAnswer(r, q, n, Truth(Current(s), q))
    decreases events
  {
    if events == [] {
    } else {
      hide Step, Coherent, AllAnswer;
      CoherentStep(s, q, events[0], ttl, n);
      CoherentRun(Step(s, events[0], ttl), q, events[1..], ttl, n);
    }
  }

  /** Until the next write, every answer to the question is the current truth, in every continuation,
      exactly when the state is coherent for it. */
  lemma FreshIffCoherent(s: State, q: Question, ttl: int)
    requires Inv(s, ttl)
    ensures Coherent(s, q) <==>
            forall events :: NoWrites(events) ==> AllAnswer(Run(s, events, ttl), q, |s.given|, Truth(Current(s), q))
  {
    if Coherent(s, q) {
      forall events | NoWrites(events)
        ensures AllAnswer(Run(s, events, ttl), q, |s.given|, Truth(Current(s), q))
      {
        CoherentRun(s, q, events, ttl, |s.given|);
      }
    } else {
      StaleContinuation(s, q, ttl);
    }
  }

  lemma StaleContinuation(s: State, q: Question, ttl: int)
    requires Inv(s, ttl) && !Coherent(s, q)
    ensures exists events :: NoWrites(events) && !AllAnswer(Run(s, events, ttl), q, |s.given|, Truth(Current(s), q))
  {
    hide Held, KeyOf, Encode, Decode;
    var e: Event;
    if Found(s, q).Some? && Found(s, q).value != Truth(Current(s), q) {
      assert CachedOk(s, q, ttl);
      e := Asks(q);
    } else {
      var j :| 0 <= j < |s.fills| && s.fills[j].q == q && s.fills[j].a != Truth(Current(s), q);
      e := Fills(j);
    }
    var r := Step(s, e, ttl);
    assert r.given[|s.given|].q == q && r.given[|s.given|].a != Truth(Current(s), q);
    assert [e][1..] == [];
    assert Run(s, [e], ttl) == Run(r, [], ttl) == r;
    assert NoWrites([e]);
  }

  // ----- A write, then its invalidation, with anything but writes in between -----

  /** Every fill of the question under way carries the current truth. */
  ghost predicate FillsTrue(s: State, q: Question)
    requires s.history != []
  {
    forall j :: 0 <= j < |s.fills| && s.fills[j].q == q ==> s.fills[j].a == Truth(Current(s), q)
  }

  lemma FillsTrueStep(s: State, q: Question, e: Event, ttl: int)
    requires s.history != [] && FillsTrue(s, q) && !e.Writes?
    ensures FillsTrue(Step(s, e, ttl), q) && Current(Step(s, e, ttl)) == Current(s)
  {
    hide KeyOf, Encode, Decode, Truth, Found;
  }

  lemma {:induction false} FillsTrueRun(s: State, q: Question, events: seq<Event>, ttl: int)
    requires s.history != [] && FillsTrue(s, q) && NoWrites(events)
    ensures FillsTrue(Run(s, events, ttl), q) && Current(Run(s, events, ttl)) == Current(s)
    decreases events
  {
    if events == [] {
    } else {
      hide Step, FillsTrue;
      FillsTrueStep(s, q, events[0], ttl);
      FillsTrueRun(Step(s, events[0], ttl), q, events[1..], ttl);
    }
  }

  lemma InvalidationLeavesFills(s: State, q: Question, ttl: int)
    requires s.history != []
    ensures var r := Step(s, Invalidates(q.u), ttl);
            Current(r) == Current(s) && r.given == s.given && (Coherent(r, q) <==> FillsTrue(s, q))
  {
    hide Truth, Decode;
    assert KeyOf(q) !in Step(s, Invalidates(q.u), ttl).store;
  }

  /** The state in which the invalidation of a written user takes effect, with `mid` in between. */
  function Invalidated(s: State, u: User, account: Option<Account>, mid: seq<Event>, ttl: int): (r: State)
    requires s.history != []
    ensures r.history != []
  {
    Step(Run(Step(s, Writes(u, account), ttl), mid, ttl), Invalidates(u), ttl)
  }

  /** Whatever lookups, reads, fills, purges and invalidations come between a write and its
      invalidation and after it: if no fill of the question was under way when the write was made, every
      answer from the invalidation on is the new truth, until the next write. */
  lemma WriteThenInvalidate(s: State, q: Question, account: Option<Account>, mid: seq<Event>, after: seq<Event>,
                            ttl: int)
    requires s.history != [] && NoWrites(mid) && NoWrites(after)
    requires forall j :: 0 <= j < |s.fills| ==> s.fills[j].q != q
    ensures var r := Invalidated(s, q.u, account, mid, ttl);
            AllAnswer(Run(r, after, ttl), q, |r.given|, Truth(Current(Step(s, Writes(q.u, account), ttl)), q))
  {
    var w := Step(s, Writes(q.u, account), ttl);
    FillsTrueRun(w, q, mid, ttl);
    var t := Run(w, mid, ttl);
    InvalidationLeavesFills(t, q, ttl);
    var r := Invalidated(s, q.u, account, mid, ttl);
    hide Run, Step, Coherent, Truth;
    CoherentRun(r, q, after, ttl, |r.given|);
  }

  /** In particular, after a role or ban is written and invalidated, the answers are the new role and the
      new ban; after an account is gone, the default role and no ban. */
  lemma WrittenAccountIsAnswered(s: State, u: User, account: Option<Account>, mid: seq<Event>, after: seq<Event>,
                                 ttl: int)
    requires s.history != [] && NoWrites(mid) && NoWrites(after)
    requires forall j :: 0 <= j < |s.fills| ==> s.fills[j].q.u != u
    ensures var r := Invalidated(s, u, account, mid, ttl);
            var f := Run(r, after, ttl);
            && AllAnswer(f, RoleOf(u), |r.given|, ARole(if account.Some? then account.value.role else Member))
            && AllAnswer(f, IsBanned(u), |r.given|, ABan(if account.Some? then account.value.banned else false))
  {
    var w := Step(s, Writes(u, account), ttl);
    assert Current(w) == if account.Some? then Current(s)[u := account.value] else Current(s) - {u};
    TruthIsAccount(Current(w), u);
    hide Step, Run, AllAnswer, Truth;
    WriteThenInvalidate(s, RoleOf(u), account, mid, after, ttl);
    WriteThenInvalidate(s, IsBanned(u), account, mid, after, ttl);
  }

  /** Given what happened in between, every answer in every write-free continuation of the invalidation
      is the new truth if and only if every fill still under way at the invalidation carries it. */
  lemma FreshAfterInvalidationIff(s: State, q: Question, account: Option<Account>, mid: seq<Event>, ttl: int)
    requires Inv(s, ttl) && ttl > 0 && NoWrites(mid)
    ensures var w := Step(s, Writes(q.u, account), ttl);
            var r := Invalidated(s, q.u, account, mid, ttl);
            (forall after :: NoWrites(after) ==> AllAnswer(Run(r, after, ttl), q, |r.given|, Truth(Current(w), q)))
            <==> FillsTrue(Run(w, mid, ttl), q)
  {
    var w := Step(s, Writes(q.u, account), ttl);
    var t := Run(w, mid, ttl);
    var r := Step(t, Invalidates(q.u), ttl);
    StepKeepsInv(s, Writes(q.u, account), ttl);
    RunKeepsInv(w, mid, ttl);
    StepKeepsInv(t, Invalidates(q.u), ttl);
    InvalidationLeavesFills(t, q, ttl);
    CurrentStays(w, mid, ttl);
    hide Inv, Coherent, Truth, Step, FillsTrue;
    FreshIffCoherent(r, q, ttl);
  }

  lemma {:induction false} CurrentStays(s: State, events: seq<Event>, ttl: int)
    requires s.history != [] && NoWrites(events)
    ensures Current(Run(s, events, ttl)) == Current(s)
    decreases events
  {
    if events == [] {
    } else {
      assert Current(Step(s, events[0], ttl)) == Current(s);
      hide Step;
      CurrentStays(Step(s, events[0], ttl), events[1..], ttl);
    }
  }

  /** Seen from the write: all answers after the invalidation are fresh, whatever happens in between and
      afterwards, if and only if no fill under way at the write carries an older value. */
  lemma FreshAfterWriteIff(s: State, q: Question, account: Option<Account>, ttl: int)
    requires Inv(s, ttl) && ttl > 0
    ensures var w := Step(s, Writes(q.u, account), ttl);
            (forall mid, after :: NoWrites(mid) && NoWrites(after) ==>
               var r := Invalidated(s, q.u, account, mid, ttl);
               AllAnswer(Run(r, after, ttl), q, |r.given|, Truth(Current(w), q)))
            <==> FillsTrue(w, q)
  {
    var w := Step(s, Writes(q.u, account), ttl);
    hide Inv, Truth, FillsTrue, AllAnswer, Step;
    if FillsTrue(w, q) {
      forall mid, after | NoWrites(mid) && NoWrites(after)
        ensures var r := Invalidated(s, q.u, account, mid, ttl);
                AllAnswer(Run(r, after, ttl), q, |r.given|, Truth(Current(w), q))
      {
        FillsTrueRun(w, q, mid, ttl);
        FreshAfterInvalidationIff(s, q, account, mid, ttl);
      }
    } else {
      FreshAfterInvalidationIff(s, q, account, [], ttl);
      assert Run(w, [], ttl) == w;
      var r := Invalidated(s, q.u, account, [], ttl);
      var after :| NoWrites(after) && !AllAnswer(Run(r, after, ttl), q, |r.given|, Truth(Current(w), q));
      assert NoWrites([]) && NoWrites(after);
    }
  }

  lemma RunCons(s: State, e: Event, rest: seq<Event>, ttl: int)
    requires s.history != []
    ensures Run(s, [e] + rest, ttl) == Run(Step(s, e, ttl), rest, ttl)
  {
    assert ([e] + rest)[1..] == rest;
  }

  /** A lookup reads the old role, the role is changed and invalidated, and only then does the lookup fill
      the cache; then somebody looks again. */
  function LateFill(u: User, changed: Account): (events: seq<Event>) {
    [Asks(RoleOf(u))] + ([Reads(0)] + ([Writes(u, Some(changed))] + ([Invalidates(u)] +
    ([Fills(0)] + ([Asks(RoleOf(u))] + [])))))
  }

  lemma LateFillRuns(s: State, u: User, changed: Account, ttl: int)
    requires s.history != []
    ensures Run(s, LateFill(u, changed), ttl) ==
            Step(Step(Step(Step(Step(Step(s, Asks(RoleOf(u)), ttl), Reads(0), ttl), Writes(u, Some(changed)), ttl),
                 Invalidates(u), ttl), Fills(0), ttl), Asks(RoleOf(u)), ttl)
  {
    hide Step, Run;
    var last := [Asks(RoleOf(u))] + [];
    var rest3 := [Fills(0)] + last;
    var rest2 := [Invalidates(u)] + rest3;
    var rest1 := [Writes(u, Some(changed))] + rest2;
    var s1 := Step(s, Asks(RoleOf(u)), ttl);
    var s2 := Step(s1, Reads(0), ttl);
    var s3 := Step(s2, Writes(u, Some(changed)), ttl);
    var s4 := Step(s3, Invalidates(u), ttl);
    var s5 := Step(s4, Fills(0), ttl);
    RunCons(s, Asks(RoleOf(u)), [Reads(0)] + rest1, ttl);
    RunCons(s1, Reads(0), rest1, ttl);
    RunCons(s2, Writes(u, Some(changed)), rest2, ttl);
    RunCons(s3, Invalidates(u), rest3, ttl);
    RunCons(s4, Fills(0), last, ttl);
    RunCons(s5, Asks(RoleOf(u)), [], ttl);
    RunNothing(Step(s5, Asks(RoleOf(u)), ttl), ttl);
  }

  lemma RunNothing(s: State, ttl: int)
    requires s.history != []
    ensures Run(s, [], ttl) == s
  {}

  lemma ReadsThenWrites(db: Db, u: User, changed: Account, start: Time, ttl: int)
    ensures var q, a := RoleOf(u), Truth(db, RoleOf(u));
            var s := Step(Step(Step(Start(db, start), Asks(q), ttl), Reads(0), ttl), Writes(u, Some(changed)), ttl);
            && s.store == map[] && s.now == start && s.given == [] && s.fills == [Fill(q, a, start)]
            && Current(s) == db[u := changed]
  {
    hide KeyOf, Decode, Encode;
  }

  lemma FillsThenAsks(s: State, q: Question, a: Answer, ttl: int)
    requires s.history != [] && s.given == [] && s.fills == [Fill(q, a, s.now)] && Fits(q, a) && ttl > 0
    ensures var r := Step(Step(Step(s, Invalidates(q.u), ttl), Fills(0), ttl), Asks(q), ttl);
            Current(r) == Current(s) && |r.given| == 2 && r.given[1].q == q && r.given[1].a == a
  {
    hide KeyOf, Decode, Encode;
    DecodeUndoesEncode(q, a);
  }

  /** In that run the last lookup, made after the write and its invalidation, is given the old role. */
  lemma OldRoleComesBack(db: Db, u: User, changed: Account, start: Time, ttl: int)
    requires ttl > 0 && u in db && db[u].role != changed.role
    ensures var s := Run(Start(db, start), LateFill(u, changed), ttl);
            && Truth(Current(s), RoleOf(u)) == ARole(changed.role)
            && |s.given| == 2 && s.given[1].q == RoleOf(u) && s.given[1].a == ARole(db[u].role)
  {
    LateFillRuns(Start(db, start), u, changed, ttl);
    ReadsThenWrites(db, u, changed, start, ttl);
    TruthFits(db, RoleOf(u));
    var s := Step(Step(Step(Start(db, start), Asks(RoleOf(u)), ttl), Reads(0), ttl), Writes(u, Some(changed)), ttl);
    hide Run, Step, LateFill;
    FillsThenAsks(s, RoleOf(u), Truth(db, RoleOf(u)), ttl);
  }

  // ----- How long an answer is served -----

  /** How much time the events let pass. */
  function Elapsed(events: seq<Event>): (t: nat) {
    if events == [] then 0 else (if events[0].Passes? then events[0].t else 0) + Elapsed(events[1..])
  }

  /** An answer is cached until `deadline`, and no lookup of the question is under way. */
  ghost predicate Serving(s: State, q: Question, a: Answer, deadline: Time) {
    && KeyOf(q) in s.store && s.store[KeyOf(q)].deadline == Some(deadline)
    && Decode(q, s.store[KeyOf(q)].value) == Some(a) && q in s.source
    && q !in s.waiting && forall j :: 0 <= j < |s.fills| ==> s.fills[j].q != q
  }

  lemma ServingFill(s: State, q: Question, a: Answer, deadline: Time, j: nat, ttl: int)
    requires s.history != [] && Serving(s, q, a, deadline)
    ensures Serving(Step(s, Fills(j), ttl), q, a, deadline)
  {
    if j < |s.fills| {
      hide KeyOf, Decode, Encode;
      KeysAreDistinct(s.fills[j].q, q);
    }
  }

  lemma ServingAsk(s: State, q: Question, a: Answer, deadline: Time, p: Question, ttl: int)
    requires s.history != [] && Serving(s, q, a, deadline) && s.now < deadline
    ensures Serving(Step(s, Asks(p), ttl), q, a, deadline)
  {
    hide KeyOf, Decode;
    KeysAreDistinct(p, q);
  }

  lemma ServingStep(s: State, q: Question, a: Answer, deadline: Time, e: Event, ttl: int)
    requires s.history != [] && Serving(s, q, a, deadline) && s.now < deadline && e != Invalidates(q.u)
    ensures Serving(Step(s, e, ttl), q, a, deadline)
    ensures Step(s, e, ttl).now == s.now + if e.Passes? then e.t else 0
  {
    match e
    case Fills(j) => ServingFill(s, q, a, deadline, j, ttl);
    case Asks(p) => ServingAsk(s, q, a, deadline, p, ttl);
    case Invalidates(u) =>
      hide KeyOf, Decode;
      KeysAreDistinct(RoleOf(u), q);
      KeysAreDistinct(IsBanned(u), q);
    case _ => hide KeyOf, Decode;
  }

  lemma {:induction false} ServingRun(s: State, q: Question, a: Answer, deadline: Time, events: seq<Event>, ttl: int)
    requires s.history != [] && Serving(s, q, a, deadline) && Invalidates(q.u) !in events
    requires s.now + Elapsed(events) < deadline
    ensures var r := Run(s, events, ttl); Serving(r, q, a, deadline) && r.now == s.now + Elapsed(events)
    decreases events
  {
    if events == [] {
    } else {
      hide Step, Serving;
      ServingStep(s, q, a, deadline, events[0], ttl);
      ServingRun(Step(s, events[0], ttl), q, a, deadline, events[1..], ttl);
    }
  }

  /** A cached answer is what every lookup is given, through purges, writes, other users' invalidations and
      any other lookups, until its time is up or its own user is invalidated. */
  lemma CachedIsServed(s: State, q: Question, a: Answer, deadline: Time, events: seq<Event>, ttl: int)
    requires s.history != [] && Serving(s, q, a, deadline) && Invalidates(q.u) !in events
    requires s.now + Elapsed(events) < deadline
    ensures var r := Run(s, events, ttl);
            var next := Step(r, Asks(q), ttl);
            && |next.given| == |r.given| + 1 && next.given[|r.given|].q == q && next.given[|r.given|].a == a
            && next.given[|r.given|].at == s.now + Elapsed(events) && next.waiting == r.waiting
  {
    hide Run;
    ServingRun(s, q, a, deadline, events, ttl);
    hide KeyOf, Decode;
  }

  /** From the deadline on, a lookup of it goes to the database again. */
  lemma ServedNoLonger(s: State, q: Question, a: Answer, deadline: Time, ttl: int)
    requires s.history != [] && Serving(s, q, a, deadline) && s.now >= deadline
    ensures var r := Step(s, Asks(q), ttl);
            r.given == s.given && r.waiting == s.waiting + [q] && KeyOf(q) !in r.store
  {}

  /** A fill caches its answer for the time to live from then on. */
  lemma FillServes(s: State, j: nat, ttl: int)
    requires s.history != [] && ttl > 0 && j < |s.fills| && Fits(s.fills[j].q, s.fills[j].a)
    requires s.fills[j].q !in s.waiting
    requires forall i :: 0 <= i < |s.fills| && i != j ==> s.fills[i].q != s.fills[j].q
    ensures Serving(Step(s, Fills(j), ttl), s.fills[j].q, s.fills[j].a, s.now + ttl)
  {
    hide KeyOf, Decode, Encode;
    DecodeUndoesEncode(s.fills[j].q, s.fills[j].a);
  }
}
