/** Login sessions and refresh-token rotation (`services/session_service.cpp` over
    `repositories/pg_session_repository.cpp`). Every issued token is new, and the hash is injective. */
module RefreshSessions {
  import opened Options
  import opened Ids

  /** Microseconds, the precision of the database's timestamps. */
  type Time = int

  const SECOND := 1_000_000

  datatype Sid = Sid(n: nat)
  datatype Token = Token(serial: nat, user: User, issuedAt: Time)
  datatype Hash = Sha(token: Token)

  datatype Session = Session(user: User, hash: Hash, createdAt: Time, expiresAt: Time, revokedAt: Option<Time>)

  /** A rotation that succeeded. */
  datatype Rotation = Rotation(sid: Sid, presented: Token, issued: Token, at: Time)

  /** `births` remembers when each session was recorded, `issued` every token handed out for a session
      and `rotations` every success, in order. */
  datatype State = State(
    now: Time, sessions: map<Sid, Session>, nextSid: nat, nextToken: nat,
    births: map<Sid, Time>, issued: seq<(Sid, Token)>, rotations: seq<Rotation>)

  datatype Event =
    | Passes(t: nat)
    | Records(u: User, age: nat)                        // `age`: how long ago the login issued its token
    | Rotates(token: Token, sid: Sid, verified: bool)   // `verified`: signature, issuer and type are right
    | Revokes(u: User, sid: Sid)
    | RevokesAll(u: User)
    | RevokesOthers(u: User, keep: Sid)
    | CleansUp

  /** The expiry as the service reads it: a cast to whole seconds, which rounds to the nearest. */
  function Rounded(t: Time): (r: Time) { (t + SECOND / 2) / SECOND * SECOND }

  predicate Active(x: Session, now: Time) { x.revokedAt.None? && now < Rounded(x.expiresAt) }

  /** When a token expires by its own claim: tokens live as long as sessions do, and the claim is cut to
      whole seconds. */
  function Expiry(token: Token, ttl: int): (t: Time) { (token.issuedAt + ttl * SECOND) / SECOND * SECOND }

  predicate Accepts(sessions: map<Sid, Session>, now: Time, token: Token, sid: Sid, verified: bool, ttl: int) {
    && verified && now <= Expiry(token, ttl)
    && sid in sessions && Active(sessions[sid], now)
    && sessions[sid].user == token.user
    && sessions[sid].hash == Sha(token)
  }

  /** UPDATE ... SET revoked_at = now() on the unrevoked sessions in `which`. */
  function Revoked(sessions: map<Sid, Session>, which: set<Sid>, now: Time): (r: map<Sid, Session>) {
    map x | x in sessions ::
      if x in which && sessions[x].revokedAt.None? then sessions[x].(revokedAt := Some(now)) else sessions[x]
  }

  function SessionsOf(sessions: map<Sid, Session>, u: User): (r: set<Sid>) {
    set x | x in sessions && sessions[x].user == u
  }

  function Cleaned(sessions: map<Sid, Session>, now: Time): (r: map<Sid, Session>) {
    map x | x in sessions && !(sessions[x].expiresAt < now || sessions[x].revokedAt.Some?) :: sessions[x]
  }

  function Step(s: State, e: Event, ttl: int): (r: State) {
    match e
    case Passes(t) => s.(now := s.now + t)
    case Records(u, age) =>
      var sid, token := Sid(s.nextSid), Token(s.nextToken, u, s.now - age);
      s.(sessions := s.sessions[sid := Session(u, Sha(token), s.now, s.now + ttl * SECOND, None)],
         nextSid := s.nextSid + 1, nextToken := s.nextToken + 1,
         births := s.births[sid := s.now], issued := s.issued + [(sid, token)])
    case Rotates(token, sid, verified) =>
      if !Accepts(s.sessions, s.now, token, sid, verified, ttl) then s
      else
        var next := Token(s.nextToken, token.user, s.now);
        s.(sessions := s.sessions[sid := s.sessions[sid].(hash := Sha(next))], nextToken := s.nextToken + 1,
           issued := s.issued + [(sid, next)], rotations := s.rotations + [Rotation(sid, token, next, s.now)])
    case Revokes(u, sid) => s.(sessions := Revoked(s.sessions, SessionsOf(s.sessions, u) * {sid}, s.now))
    case RevokesAll(u) => s.(sessions := Revoked(s.sessions, SessionsOf(s.sessions, u), s.now))
    case RevokesOthers(u, keep) => s.(sessions := Revoked(s.sessions, SessionsOf(s.sessions, u) - {keep}, s.now))
    case CleansUp => s.(sessions := Cleaned(s.sessions, s.now))
  }

  function Run(s: State, events: seq<Event>, ttl: int): (r: State)
    decreases events
  {
    if events == [] then s else Run(Step(s, events[0], ttl), events[1..], ttl)
  }

  function Start(now: Time): (s: State) { State(now, map[], 0, 0, map[], [], []) }

  // ----- What a revocation changes -----

  function Unrevoked(sessions: map<Sid, Session>): (r: set<Sid>) {
    set x | x in sessions && sessions[x].revokedAt.None?
  }

  /** The sessions in `which` are revoked afterwards, those that were already keep their time, and nothing
      else about any session changes. */
  ghost predicate OnlyRevoked(before: map<Sid, Session>, after: map<Sid, Session>, which: set<Sid>) {
    && after.Keys == before.Keys
    && (forall x :: x in after && x in which ==> after[x].revokedAt.Some?)
    && (forall x :: x in after && (x !in which || before[x].revokedAt.Some?) ==> after[x] == before[x])
    && (forall x :: x in after ==> after[x] == before[x].(revokedAt := after[x].revokedAt))
  }

  lemma RevokedIsOnlyThat(sessions: map<Sid, Session>, which: set<Sid>, now: Time)
    ensures OnlyRevoked(sessions, Revoked(sessions, which, now), which)
  {}

  lemma RevokedCount(sessions: map<Sid, Session>, which: set<Sid>, now: Time)
    ensures var hit := set x | x in which && x in sessions && sessions[x].revokedAt.None?;
            |hit| == |Unrevoked(sessions)| - |Unrevoked(Revoked(sessions, which, now))|
  {
    var hit := set x | x in which && x in sessions && sessions[x].revokedAt.None?;
    var after := Revoked(sessions, which, now);
    assert Unrevoked(after) == Unrevoked(sessions) - hit;
    assert hit <= Unrevoked(sessions);
  }

  // ----- The service -----

  class SessionService {
    const ttl: int
    var sessions: map<Sid, Session>
    var nextSid: nat
    var nextToken: nat

    constructor (ttl: int)
      ensures this.ttl == ttl && sessions == map[] && nextSid == 0 && nextToken == 0
    {
      this.ttl, sessions, nextSid, nextToken := ttl, map[], 0, 0;
    }

    /** The tables of `s` are this service's. */
    ghost predicate Holds(s: State)
      reads this
    {
      sessions == s.sessions && nextSid == s.nextSid && nextToken == s.nextToken
    }

    /** Stores a session for a token that a login issued `age` ago. */
    method Record(u: User, age: nat, now: Time, ghost s: State) returns (sid: Sid, token: Token)
      requires Holds(s) && s.now == now
      modifies this
      ensures Holds(Step(s, Records(u, age), ttl))
      ensures sid == Sid(old(nextSid)) && token == Token(old(nextToken), u, now - age)
    {
      token := Token(nextToken, u, now - age);
      sid := Sid(nextSid);
      nextToken := nextToken + 1;
      nextSid := nextSid + 1;
      sessions := sessions[sid := Session(u, Sha(token), now, now + ttl * SECOND, None)];
    }

    method Rotate(token: Token, sid: Sid, verified: bool, now: Time, ghost s: State) returns (next: Option<Token>)
      requires Holds(s) && s.now == now
      modifies this
      ensures Holds(Step(s, Rotates(token, sid, verified), ttl))
      ensures next ==
              if Accepts(s.sessions, now, token, sid, verified, ttl) then Some(Token(s.nextToken, token.user, now))
              else None
    {
      if !verified || now > Expiry(token, ttl) {
        return None;
      }
      if sid !in sessions || !Active(sessions[sid], now) {
        return None;
      }
      if sessions[sid].user != token.user {
        return None;
      }
      if sessions[sid].hash != Sha(token) {
        return None;
      }
      next := Some(Token(nextToken, token.user, now));
      nextToken := nextToken + 1;
      sessions := sessions[sid := sessions[sid].(hash := Sha(next.value))];
    }

    /** The user's session is revoked, nothing else changes, and the answer says whether anything did. */
    method Revoke(u: User, sid: Sid, now: Time, ghost s: State) returns (revoked: bool)
      requires Holds(s) && s.now == now
      modifies this`sessions
      ensures Holds(Step(s, Revokes(u, sid), ttl))
      ensures OnlyRevoked(old(sessions), sessions, SessionsOf(old(sessions), u) * {sid})
      ensures revoked <==> sessions != old(sessions)
    {
      revoked := sid in sessions && sessions[sid].user == u && sessions[sid].revokedAt.None?;
      if revoked {
        sessions := sessions[sid := sessions[sid].(revokedAt := Some(now))];
      }
      RevokedIsOnlyThat(s.sessions, SessionsOf(s.sessions, u) * {sid}, now);
      assert sessions == Revoked(s.sessions, SessionsOf(s.sessions, u) * {sid}, now);
    }

    /** UPDATE sessions SET revoked_at = now() WHERE ... AND revoked_at IS NULL, and its affected rows. */
    method RevokeWhere(which: set<Sid>, now: Time) returns (count: nat)
      modifies this`sessions
      ensures sessions == Revoked(old(sessions), which, now)
      ensures OnlyRevoked(old(sessions), sessions, which)
      ensures count == |Unrevoked(old(sessions))| - |Unrevoked(sessions)|
    {
      count := |set x | x in which && x in sessions && sessions[x].revokedAt.None?|;
      RevokedCount(sessions, which, now);
      RevokedIsOnlyThat(sessions, which, now);
      sessions := Revoked(sessions, which, now);
    }

    /** No unrevoked session of the user is left, no other session changes, and the count is how many
        sessions stopped being unrevoked. */
    method RevokeAll(u: User, now: Time, ghost s: State) returns (count: nat)
      requires Holds(s) && s.now == now
      modifies this`sessions
      ensures Holds(Step(s, RevokesAll(u), ttl))
      ensures OnlyRevoked(old(sessions), sessions, SessionsOf(old(sessions), u))
      ensures forall x :: x in Unrevoked(sessions) ==> sessions[x].user != u
      ensures count == |Unrevoked(old(sessions))| - |Unrevoked(sessions)|
    {
      count := RevokeWhere(SessionsOf(sessions, u), now);
    }

    /** The same, but for the session to keep. */
    method RevokeOthers(u: User, keep: Sid, now: Time, ghost s: State) returns (count: nat)
      requires Holds(s) && s.now == now
      modifies this`sessions
      ensures Holds(Step(s, RevokesOthers(u, keep), ttl))
      ensures OnlyRevoked(old(sessions), sessions, SessionsOf(old(sessions), u) - {keep})
      ensures forall x :: x in Unrevoked(sessions) ==> sessions[x].user != u || x == keep
      ensures keep in old(sessions) ==> sessions[keep] == old(sessions)[keep]
      ensures count == |Unrevoked(old(sessions))| - |Unrevoked(sessions)|
    {
      count := RevokeWhere(SessionsOf(sessions, u) - {keep}, now);
    }

    /** What is left are the unrevoked sessions that have not expired, as they were, and the count is how
        many rows went. */
    method CleanupExpired(now: Time, ghost s: State) returns (count: nat)
      requires Holds(s) && s.now == now
      modifies this`sessions
      ensures Holds(Step(s, CleansUp, ttl))
      ensures forall x :: x in sessions <==> x in Unrevoked(old(sessions)) && now <= old(sessions)[x].expiresAt
      ensures forall x :: x in sessions ==> sessions[x] == old(sessions)[x]
      ensures count == |old(sessions)| - |sessions|
    {
      var swept := set x | x in sessions && (sessions[x].expiresAt < now || sessions[x].revokedAt.Some?);
      assert Cleaned(sessions, now).Keys == sessions.Keys - swept;
      count := |swept|;
      sessions := Cleaned(sessions, now);
    }
  }

  // ----- Invariant -----

  /** The token last handed out for a session. */
  function Newest(issued: seq<(Sid, Token)>, sid: Sid): (t: Option<Token>) {
    if issued == [] then None
    else if issued[|issued| - 1].0 == sid then Some(issued[|issued| - 1].1)
    else Newest(issued[..|issued| - 1], sid)
  }

  lemma NewestAfter(issued: seq<(Sid, Token)>, sid: Sid, token: Token, other: Sid)
    ensures Newest(issued + [(sid, token)], other) == if other == sid then Some(token) else Newest(issued, other)
  {
    var more := issued + [(sid, token)];
    assert more[..|more| - 1] == issued;
  }

  /** A stored session expires a fixed time after it was recorded, and stores the hash of its newest token. */
  ghost predicate SessionOk(s: State, x: Sid, ttl: int) {
    x in s.sessions ==>
      && x in s.births && s.births[x] <= s.now && s.sessions[x].expiresAt == s.births[x] + ttl * SECOND
      && Newest(s.issued, x) == Some(s.sessions[x].hash.token)
      && s.sessions[x].hash.token.serial < s.nextToken && s.sessions[x].hash.token.user == s.sessions[x].user
      && x.n < s.nextSid
  }

  /** A spent token is no session's current one, and every success was before the rounded expiry. */
  ghost predicate RotationOk(s: State, k: int, ttl: int)
    requires 0 <= k < |s.rotations|
  {
    var r := s.rotations[k];
    && r.presented.serial < s.nextToken && r.at <= s.now
    && r.sid.n < s.nextSid && r.sid in s.births && r.at < Rounded(s.births[r.sid] + ttl * SECOND)
    && forall x :: x in s.sessions ==> s.sessions[x].hash.token.serial != r.presented.serial
  }

  ghost predicate Inv(s: State, ttl: int) {
    && (forall x :: SessionOk(s, x, ttl))
    && (forall x :: x in s.births ==> x.n < s.nextSid)
    && (forall x, y :: x in s.sessions && y in s.sessions && x != y ==>
        s.sessions[x].hash.token.serial != s.sessions[y].hash.token.serial)
    && (forall k :: 0 <= k < |s.rotations| ==> RotationOk(s, k, ttl))
    && (forall j, k :: 0 <= j < k < |s.rotations| ==>
        s.rotations[j].presented.serial != s.rotations[k].presented.serial)
  }

  /** Sessions may go, and be marked revoked; nothing else about them changes. */
  ghost predicate Fewer(s: State, r: State) {
    && r == s.(sessions := r.sessions)
    && forall x :: x in r.sessions ==>
        x in s.sessions && r.sessions[x].(revokedAt := None) == s.sessions[x].(revokedAt := None)
  }

  lemma RevokingIsFewer(s: State, e: Event, ttl: int)
    requires e.Revokes? || e.RevokesAll? || e.RevokesOthers? || e.CleansUp?
    ensures Fewer(s, Step(s, e, ttl))
  {
    hide SessionsOf;
  }

  lemma FewerKeepsInv(s: State, r: State, ttl: int)
    requires Inv(s, ttl) && Fewer(s, r)
    ensures Inv(r, ttl)
  {
    hide Newest, Rounded;
    forall x | x in r.sessions
      ensures SessionOk(r, x, ttl) && r.sessions[x].hash == s.sessions[x].hash
    {
      assert SessionOk(s, x, ttl);
      assert r.sessions[x].(revokedAt := None).hash == s.sessions[x].(revokedAt := None).hash;
      assert r.sessions[x].(revokedAt := None).user == s.sessions[x].(revokedAt := None).user;
      assert r.sessions[x].(revokedAt := None).expiresAt == s.sessions[x].(revokedAt := None).expiresAt;
    }
    forall k | 0 <= k < |r.rotations|
      ensures RotationOk(r, k, ttl)
    {
      assert RotationOk(s, k, ttl);
    }
  }

  lemma RecordKeepsInv(s: State, u: User, age: nat, ttl: int)
    requires Inv(s, ttl)
    ensures Inv(Step(s, Records(u, age), ttl), ttl)
  {
    var r := Step(s, Records(u, age), ttl);
    var sid := Sid(s.nextSid);
    hide Newest, Rounded;
    forall x
      ensures SessionOk(r, x, ttl)
    {
      assert SessionOk(s, x, ttl);
      NewestAfter(s.issued, sid, Token(s.nextToken, u, s.now - age), x);
    }
    assert SessionOk(s, sid, ttl);
    forall k | 0 <= k < |r.rotations|
      ensures RotationOk(r, k, ttl)
    {
      assert RotationOk(s, k, ttl);
    }
    forall x, y | x in r.sessions && y in r.sessions && x != y
      ensures r.sessions[x].hash.token.serial != r.sessions[y].hash.token.serial
    {
      assert SessionOk(s, x, ttl) && SessionOk(s, y, ttl);
    }
  }

  lemma RotateKeepsInv(s: State, token: Token, sid: Sid, verified: bool, ttl: int)
    requires Inv(s, ttl)
    ensures Inv(Step(s, Rotates(token, sid, verified), ttl), ttl)
  {
    var r := Step(s, Rotates(token, sid, verified), ttl);
    if Accepts(s.sessions, s.now, token, sid, verified, ttl) {
      var next := Token(s.nextToken, token.user, s.now);
      hide Newest, Rounded, Expiry;
      assert SessionOk(s, sid, ttl);
      forall x
        ensures SessionOk(r, x, ttl)
      {
        assert SessionOk(s, x, ttl);
        NewestAfter(s.issued, sid, next, x);
      }
      forall x, y | x in r.sessions && y in r.sessions && x != y
        ensures r.sessions[x].hash.token.serial != r.sessions[y].hash.token.serial
      {
        assert SessionOk(s, x, ttl) && SessionOk(s, y, ttl);
      }
      forall k | 0 <= k < |r.rotations|
        ensures RotationOk(r, k, ttl)
        ensures k < |s.rotations| ==> r.rotations[k].presented.serial != token.serial
      {
        if k < |s.rotations| {
          assert RotationOk(s, k, ttl);
        }
      }
    }
  }

  lemma StepKeepsInv(s: State, e: Event, ttl: int)
    requires Inv(s, ttl)
    ensures Inv(Step(s, e, ttl), ttl)
  {
    match e
    case Passes(_) => PassKeepsInv(s, e, ttl);
    case Records(u, age) => RecordKeepsInv(s, u, age, ttl);
    case Rotates(token, sid, verified) => RotateKeepsInv(s, token, sid, verified, ttl);
    case _ =>
      hide Inv, Step;
      RevokingIsFewer(s, e, ttl);
      FewerKeepsInv(s, Step(s, e, ttl), ttl);
  }

  lemma PassKeepsInv(s: State, e: Event, ttl: int)
    requires Inv(s, ttl) && e.Passes?
    ensures Inv(Step(s, e, ttl), ttl)
  {
    hide Newest, Rounded;
    var r := Step(s, e, ttl);
    assert forall x :: SessionOk(s, x, ttl) ==> SessionOk(r, x, ttl);
    assert forall k :: 0 <= k < |s.rotations| && RotationOk(s, k, ttl) ==> RotationOk(r, k, ttl);
  }

  lemma {:induction false} RunKeepsInv(s: State, events: seq<Event>, ttl: int)
    requires Inv(s, ttl)
    ensures Inv(Run(s, events, ttl), ttl)
    decreases events
  {
    hide Inv, Step;
    if events == [] {
    } else {
      StepKeepsInv(s, events[0], ttl);
      RunKeepsInv(Step(s, events[0], ttl), events[1..], ttl);
    }
  }

  lemma ReachableHasInv(start: Time, events: seq<Event>, ttl: int)
    ensures Inv(Run(Start(start), events, ttl), ttl)
  {
    assert Inv(Start(start), ttl);
    RunKeepsInv(Start(start), events, ttl);
  }

  // ----- What rotation guarantees over every run -----

  /** No refresh token is ever rotated twice. */
  lemma TokensRotateOnce(start: Time, events: seq<Event>, ttl: int, j: nat, k: nat)
    requires j < k < |Run(Start(start), events, ttl).rotations|
    ensures var s := Run(Start(start), events, ttl); s.rotations[j].presented != s.rotations[k].presented
  {
    ReachableHasInv(start, events, ttl);
  }

  /** In every reachable state a rotation succeeds exactly for the newest token of an active session, while
      that token is genuine and has not expired itself. */
  lemma OnlyNewestSucceeds(start: Time, events: seq<Event>, ttl: int, token: Token, sid: Sid, verified: bool)
    ensures var s := Run(Start(start), events, ttl);
            Accepts(s.sessions, s.now, token, sid, verified, ttl) <==>
            && verified && s.now <= Expiry(token, ttl) && sid in s.sessions && Active(s.sessions[sid], s.now)
            && Newest(s.issued, sid) == Some(token)
  {
    ReachableHasInv(start, events, ttl);
    var s := Run(Start(start), events, ttl);
    hide Run, Newest;
    assert SessionOk(s, sid, ttl);
  }

  /** Revoked, or already swept away. */
  ghost predicate Dead(s: State, sid: Sid) {
    sid.n < s.nextSid && (sid in s.sessions ==> s.sessions[sid].revokedAt.Some?)
  }

  /** None of the rotations after the first `n` is on this session. */
  ghost predicate NoneSince(s: State, sid: Sid, n: nat) {
    forall k :: n <= k < |s.rotations| ==> s.rotations[k].sid != sid
  }

  lemma DeadStep(s: State, e: Event, ttl: int, sid: Sid, n: nat)
    requires Dead(s, sid) && NoneSince(s, sid, n)
    ensures Dead(Step(s, e, ttl), sid) && NoneSince(Step(s, e, ttl), sid, n)
  {
    hide Rounded, SessionsOf, Expiry;
  }

  lemma {:induction false} DeadRun(s: State, events: seq<Event>, ttl: int, sid: Sid, n: nat)
    requires Dead(s, sid) && NoneSince(s, sid, n)
    ensures Dead(Run(s, events, ttl), sid) && NoneSince(Run(s, events, ttl), sid, n)
    decreases events
  {
    hide Step, Dead, NoneSince;
    if events == [] {
    } else {
      DeadStep(s, events[0], ttl, sid, n);
      DeadRun(Step(s, events[0], ttl), events[1..], ttl, sid, n);
    }
  }

  /** Which sessions a revocation is for. */
  predicate Targets(e: Event, sid: Sid, u: User) {
    match e
    case Revokes(v, x) => v == u && x == sid
    case RevokesAll(v) => v == u
    case RevokesOthers(v, keep) => v == u && keep != sid
    case _ => false
  }

  /** After a user's session is revoked, one by one or with others, no rotation on it ever succeeds. */
  lemma RevocationIsFinal(s: State, e: Event, after: seq<Event>, ttl: int, sid: Sid)
    requires sid in s.sessions && sid.n < s.nextSid && Targets(e, sid, s.sessions[sid].user)
    ensures NoneSince(Run(Step(s, e, ttl), after, ttl), sid, |s.rotations|)
  {
    var r := Step(s, e, ttl);
    assert Dead(r, sid) && NoneSince(r, sid, |s.rotations|);
    hide Step;
    DeadRun(r, after, ttl, sid, |s.rotations|);
  }

  /** However often a session is rotated, every success comes before the rounded end of the time it was
      recorded for; the rounding never adds more than half a second. */
  lemma ChainsEnd(start: Time, events: seq<Event>, ttl: int, k: nat)
    requires k < |Run(Start(start), events, ttl).rotations|
    ensures var s := Run(Start(start), events, ttl);
            var x := s.rotations[k];
            && x.sid in s.births
            && x.at < Rounded(s.births[x.sid] + ttl * SECOND)
            && x.at < s.births[x.sid] + ttl * SECOND + SECOND / 2
  {
    ReachableHasInv(start, events, ttl);
    var s := Run(Start(start), events, ttl);
    assert RotationOk(s, k, ttl);
    RoundedIsNear(s.births[s.rotations[k].sid], ttl);
  }

  lemma RoundedIsNear(t: Time, ttl: int)
    ensures Rounded(t + ttl * SECOND) <= t + ttl * SECOND + SECOND / 2
    ensures Rounded(t + ttl * SECOND) > t + ttl * SECOND <==> t % SECOND >= SECOND / 2
  {
    var e := t + ttl * SECOND;
    assert e % SECOND == t % SECOND;
    var q := (e + SECOND / 2) / SECOND;
    assert e + SECOND / 2 == q * SECOND + (e + SECOND / 2) % SECOND;
  }

  // ----- Rotations within the time to live -----

  /** The expiry the service reads is the nearest whole second. */
  lemma RoundedIsNearest(t: Time)
    ensures Rounded(t) % SECOND == 0 && t - SECOND / 2 < Rounded(t) <= t + SECOND / 2
  {
    var q := (t + SECOND / 2) / SECOND;
    assert t + SECOND / 2 == q * SECOND + (t + SECOND / 2) % SECOND;
  }

  /** The session a login left: not revoked, for its user, and to expire a time to live after `at`. */
  ghost predicate Standing(s: State, sid: Sid, u: User, at: Time, ttl: int) {
    && sid in s.sessions && sid.n < s.nextSid && s.sessions[sid].revokedAt.None? && s.sessions[sid].user == u
    && s.sessions[sid].createdAt == at && s.sessions[sid].expiresAt == at + ttl * SECOND
  }

  lemma StandingStep(s: State, e: Event, ttl: int, sid: Sid, u: User, at: Time)
    requires Standing(s, sid, u, at, ttl) && !Targets(e, sid, u) && s.now <= at + ttl * SECOND
    ensures Standing(Step(s, e, ttl), sid, u, at, ttl)
  {
    hide Rounded, Expiry;
  }

  lemma {:induction false} TimePasses(s: State, events: seq<Event>, ttl: int)
    ensures s.now <= Run(s, events, ttl).now
    decreases events
  {
    if events == [] {
    } else {
      assert s.now <= Step(s, events[0], ttl).now;
      hide Step;
      TimePasses(Step(s, events[0], ttl), events[1..], ttl);
    }
  }

  lemma {:induction false} StandingRun(s: State, events: seq<Event>, ttl: int, sid: Sid, u: User, at: Time)
    requires Standing(s, sid, u, at, ttl) && Run(s, events, ttl).now <= at + ttl * SECOND
    requires forall i :: 0 <= i < |events| ==> !Targets(events[i], sid, u)
    ensures Standing(Run(s, events, ttl), sid, u, at, ttl)
    decreases events
  {
    if events == [] {
    } else {
      TimePasses(s, events, ttl);
      hide Standing, Step, Targets;
      StandingStep(s, events[0], ttl, sid, u, at);
      StandingRun(Step(s, events[0], ttl), events[1..], ttl, sid, u, at);
    }
  }

  /** After any run and a login, whatever comes next, cleanups included, until its time is over the session
      stands unless it was revoked; and until half a second before that its newest token, if genuine and
      not expired itself, is rotated. */
  lemma SessionsLast(start: Time, before: seq<Event>, u: User, age: nat, after: seq<Event>, ttl: int)
    requires var s := Run(Start(start), before, ttl);
             && Run(Step(s, Records(u, age), ttl), after, ttl).now <= s.now + ttl * SECOND
             && forall i :: 0 <= i < |after| ==> !Targets(after[i], Sid(s.nextSid), u)
    ensures var s := Run(Start(start), before, ttl);
            var f := Run(Step(s, Records(u, age), ttl), after, ttl);
            var sid := Sid(s.nextSid);
            && Standing(f, sid, u, s.now, ttl) && Newest(f.issued, sid).Some?
            && (f.now <= Expiry(Newest(f.issued, sid).value, ttl) && f.now <= s.now + ttl * SECOND - SECOND / 2 ==>
                  Accepts(f.sessions, f.now, Newest(f.issued, sid).value, sid, true, ttl))
  {
    ReachableHasInv(start, before, ttl);
    hide Start, Inv, Standing, Newest, Targets, Expiry, Accepts, Step;
    var s := Run(Start(start), before, ttl);
    RecordStands(s, u, age, ttl);
    StepKeepsInv(s, Records(u, age), ttl);
    var r, sid := Step(s, Records(u, age), ttl), Sid(s.nextSid);
    StandingRun(r, after, ttl, sid, u, s.now);
    RunKeepsInv(r, after, ttl);
    StandingRotates(Run(r, after, ttl), sid, u, s.now, ttl);
  }

  lemma RecordStands(s: State, u: User, age: nat, ttl: int)
    ensures Standing(Step(s, Records(u, age), ttl), Sid(s.nextSid), u, s.now, ttl)
  {}

  lemma StandingRotates(f: State, sid: Sid, u: User, at: Time, ttl: int)
    requires Inv(f, ttl) && Standing(f, sid, u, at, ttl)
    ensures Newest(f.issued, sid).Some?
    ensures f.now <= Expiry(Newest(f.issued, sid).value, ttl) && f.now <= at + ttl * SECOND - SECOND / 2 ==>
              Accepts(f.sessions, f.now, Newest(f.issued, sid).value, sid, true, ttl)
  {
    assert SessionOk(f, sid, ttl);
    RoundedIsNearest(at + ttl * SECOND);
    hide Inv, Newest, Rounded, Expiry;
  }

  // ----- Rotations after the time to live -----

  /** Some rotation of the session succeeded at or after its creation plus the time to live. */
  ghost predicate RotatedLate(s: State, sid: Sid, ttl: int) {
    sid in s.births && exists k :: 0 <= k < |s.rotations| && IsLate(s, s.rotations[k], sid, ttl)
  }

  predicate IsLate(s: State, r: Rotation, sid: Sid, ttl: int)
    requires sid in s.births
  {
    r.sid == sid && s.births[sid] + ttl * SECOND <= r.at
  }

  lemma {:induction false} BirthsStay(s: State, events: seq<Event>, ttl: int, sid: Sid)
    requires sid in s.births && sid.n < s.nextSid
    ensures var r := Run(s, events, ttl); sid in r.births && r.births[sid] == s.births[sid]
    decreases events
  {
    if events == [] {
    } else {
      var r := Step(s, events[0], ttl);
      assert sid in r.births && r.births[sid] == s.births[sid] && sid.n < r.nextSid by {
        hide Accepts, Revoked, Cleaned, SessionsOf;
      }
      hide Step;
      BirthsStay(r, events[1..], ttl, sid);
    }
  }

  lemma ExpiryIsCut(token: Token, ttl: int)
    ensures Expiry(token, ttl) == token.issuedAt / SECOND * SECOND + ttl * SECOND
    ensures token.issuedAt + ttl * SECOND - SECOND < Expiry(token, ttl) <= token.issuedAt + ttl * SECOND
  {
    var t := token.issuedAt;
    assert t == t / SECOND * SECOND + t % SECOND;
    assert (t + ttl * SECOND) / SECOND == t / SECOND + ttl;
  }

  /** The newest token of a session can be rotated now. */
  ghost predicate CanRotate(s: State, sid: Sid, ttl: int) {
    && sid in s.sessions && Active(s.sessions[sid], s.now) && s.now <= Expiry(s.sessions[sid].hash.token, ttl)
    && s.sessions[sid].user == s.sessions[sid].hash.token.user
  }

  lemma RotateNow(s: State, sid: Sid, ttl: int)
    requires CanRotate(s, sid, ttl)
    ensures var x := s.sessions[sid];
            var r := Step(s, Rotates(x.hash.token, sid, true), ttl);
            && r.now == s.now && r.births == s.births && sid in r.sessions
            && r.sessions[sid] == x.(hash := Sha(Token(s.nextToken, x.user, s.now)))
            && r.rotations == s.rotations + [Rotation(sid, x.hash.token, r.sessions[sid].hash.token, s.now)]
  {
    hide Rounded, Expiry;
  }

  lemma RunCons(s: State, e: Event, rest: seq<Event>, ttl: int)
    ensures Run(s, [e] + rest, ttl) == Run(Step(s, e, ttl), rest, ttl)
  {
    assert ([e] + rest)[1..] == rest;
  }

  /** The newest token is rotated now, at the first whole second after the session was recorded if that is
      still to come, and when the session's time to live runs out. */
  lemma LateRotation(s: State, sid: Sid, ttl: int) returns (after: seq<Event>)
    requires Inv(s, ttl) && sid in s.sessions && s.sessions[sid].revokedAt.None? && ttl >= 1
    requires s.now < s.sessions[sid].expiresAt && sid in s.births && s.births[sid] % SECOND >= SECOND / 2
    requires s.now <= Expiry(s.sessions[sid].hash.token, ttl)
    ensures RotatedLate(Run(s, after, ttl), sid, ttl)
  {
    assert SessionOk(s, sid, ttl);
    var x, b := s.sessions[sid], s.births[sid];
    RoundedIsNear(b, ttl);
    var m := SecondRotation(s.now, b, ttl);
    hide Inv, SessionOk, Rounded, Expiry;
    var e1 := Rotates(x.hash.token, sid, true);
    RotateNow(s, sid, ttl);
    var s1 := Step(s, e1, ttl);
    var e2 := Passes(m - s.now);
    var s2 := Step(s1, e2, ttl);
    var e3 := Rotates(Token(s.nextToken, x.user, s.now), sid, true);
    RotateWaitRotate(s2, sid, x.expiresAt - m, ttl);
    var e4, e5 := Passes(x.expiresAt - m), Rotates(Token(s2.nextToken, x.user, m), sid, true);
    hide Step, RotatedLate;
    after := FiveEvents(s, e1, e2, e3, e4, e5, ttl);
  }

  /** When to rotate in between: both tokens are then still good when they are presented. */
  lemma SecondRotation(now: Time, b: Time, ttl: int) returns (m: Time)
    requires ttl >= 1 && b <= now < b + ttl * SECOND && b % SECOND >= SECOND / 2
    ensures now <= m <= b + ttl * SECOND
    ensures forall n, u :: m <= Expiry(Token(n, u, now), ttl) && b + ttl * SECOND <= Expiry(Token(n, u, m), ttl)
  {
    var next := (b / SECOND + 1) * SECOND;
    m := if now < next then next else now;
    assert b == b / SECOND * SECOND + b % SECOND;
    assert now == now / SECOND * SECOND + now % SECOND;
    assert now / SECOND >= b / SECOND && m / SECOND >= b / SECOND + 1;
    forall n, u
      ensures m <= Expiry(Token(n, u, now), ttl) && b + ttl * SECOND <= Expiry(Token(n, u, m), ttl)
    {
      ExpiryIsCut(Token(n, u, now), ttl);
      ExpiryIsCut(Token(n, u, m), ttl);
    }
  }

  lemma FiveEvents(s: State, a: Event, b: Event, c: Event, d: Event, e: Event, ttl: int) returns (events: seq<Event>)
    ensures events == [a] + ([b] + ([c] + ([d] + ([e] + []))))
    ensures Run(s, events, ttl) == Step(Step(Step(Step(Step(s, a, ttl), b, ttl), c, ttl), d, ttl), e, ttl)
  {
    events := [a] + ([b] + ([c] + ([d] + ([e] + []))));
    var s1 := Step(s, a, ttl);
    var s2 := Step(s1, b, ttl);
    var s3 := Step(s2, c, ttl);
    var s4 := Step(s3, d, ttl);
    assert Run(Step(s4, e, ttl), [], ttl) == Step(s4, e, ttl);
    hide Step, Run;
    RunCons(s, a, [b] + ([c] + ([d] + ([e] + []))), ttl);
    RunCons(s1, b, [c] + ([d] + ([e] + [])), ttl);
    RunCons(s2, c, [d] + ([e] + []), ttl);
    RunCons(s3, d, [e] + [], ttl);
    RunCons(s4, e, [], ttl);
  }

  /** The session is gone, or its newest token has expired. */
  ghost predicate Stuck(s: State, sid: Sid, ttl: int) {
    sid.n < s.nextSid && (sid in s.sessions ==> Expiry(s.sessions[sid].hash.token, ttl) < s.now)
  }

  lemma StuckStep(s: State, e: Event, ttl: int, sid: Sid, n: nat)
    requires Stuck(s, sid, ttl) && NoneSince(s, sid, n)
    ensures Stuck(Step(s, e, ttl), sid, ttl) && NoneSince(Step(s, e, ttl), sid, n)
  {
    hide Rounded, SessionsOf, Expiry;
  }

  lemma {:induction false} StuckRun(s: State, events: seq<Event>, ttl: int, sid: Sid, n: nat)
    requires Stuck(s, sid, ttl) && NoneSince(s, sid, n)
    ensures NoneSince(Run(s, events, ttl), sid, n) && s.rotations <= Run(s, events, ttl).rotations
    decreases events
  {
    if events == [] {
    } else {
      var r := Step(s, events[0], ttl);
      assert s.rotations <= r.rotations;
      hide Step, Stuck, NoneSince;
      StuckStep(s, events[0], ttl, sid, n);
      StuckRun(r, events[1..], ttl, sid, n);
    }
  }

  lemma LateOnlyIfRounded(s: State, after: seq<Event>, sid: Sid, ttl: int)
    requires Inv(s, ttl) && sid in s.births && sid.n < s.nextSid && RotatedLate(Run(s, after, ttl), sid, ttl)
    ensures s.births[sid] % SECOND >= SECOND / 2
  {
    BirthsStay(s, after, ttl, sid);
    RunKeepsInv(s, after, ttl);
    var r := Run(s, after, ttl);
    hide Run, Rounded;
    var k :| 0 <= k < |r.rotations| && IsLate(r, r.rotations[k], sid, ttl);
    assert RotationOk(r, k, ttl);
    RoundedIsNear(s.births[sid], ttl);
  }

  lemma LateOnlyIfUsable(s: State, after: seq<Event>, sid: Sid, ttl: int)
    requires Inv(s, ttl) && sid in s.sessions && s.now < s.sessions[sid].expiresAt
    requires Expiry(s.sessions[sid].hash.token, ttl) < s.now
    ensures !RotatedLate(Run(s, after, ttl), sid, ttl)
  {
    assert SessionOk(s, sid, ttl);
    BirthsStay(s, after, ttl, sid);
    StuckRun(s, after, ttl, sid, |s.rotations|);
    var r := Run(s, after, ttl);
    hide Run, Rounded, Expiry;
    forall k | 0 <= k < |r.rotations| && r.rotations[k].sid == sid
      ensures r.rotations[k].at <= s.now
    {
      assert k < |s.rotations| && r.rotations[k] == s.rotations[k];
      assert RotationOk(s, k, ttl);
    }
  }

  /** From any reachable state in which a session is unrevoked and still within its time to live, some
      continuation rotates it at or after the end of that time if and only if the session was recorded in
      the second half of a second and its newest token has not expired yet. */
  lemma OutlivesIff(start: Time, events: seq<Event>, ttl: int, sid: Sid)
    requires ttl >= 1
    requires var s := Run(Start(start), events, ttl);
             sid in s.sessions && s.sessions[sid].revokedAt.None? && s.now < s.sessions[sid].expiresAt
    ensures var s := Run(Start(start), events, ttl);
            && sid in s.births && s.sessions[sid].expiresAt == s.births[sid] + ttl * SECOND
            && Newest(s.issued, sid).Some?
            && ((exists after :: RotatedLate(Run(s, after, ttl), sid, ttl)) <==>
                s.births[sid] % SECOND >= SECOND / 2 && s.now <= Expiry(Newest(s.issued, sid).value, ttl))
  {
    ReachableHasInv(start, events, ttl);
    var s := Run(Start(start), events, ttl);
    assert SessionOk(s, sid, ttl);
    hide Newest, Rounded, Expiry, RotatedLate;
    if s.births[sid] % SECOND >= SECOND / 2 && s.now <= Expiry(s.sessions[sid].hash.token, ttl) {
      var after := LateRotation(s, sid, ttl);
      assert RotatedLate(Run(s, after, ttl), sid, ttl);
    }
    if after :| RotatedLate(Run(s, after, ttl), sid, ttl) {
      LateOnlyIfRounded(s, after, sid, ttl);
      if Expiry(s.sessions[sid].hash.token, ttl) < s.now {
        LateOnlyIfUsable(s, after, sid, ttl);
        assert false;
      }
    }
  }

  /** The newest token is rotated now, and the token got for it when the time to live is over. */
  lemma RotateWaitRotate(s: State, sid: Sid, wait: nat, ttl: int)
    requires CanRotate(s, sid, ttl) && sid in s.births
    requires s.births[sid] + ttl * SECOND <= s.now + wait < Rounded(s.sessions[sid].expiresAt)
    requires s.now + wait <= Expiry(Token(s.nextToken, s.sessions[sid].user, s.now), ttl)
    ensures var x := s.sessions[sid];
            var t := Step(Step(s, Rotates(x.hash.token, sid, true), ttl), Passes(wait), ttl);
            RotatedLate(Step(t, Rotates(Token(s.nextToken, x.user, s.now), sid, true), ttl), sid, ttl)
  {
    var x := s.sessions[sid];
    hide Rounded, Expiry;
    RotateNow(s, sid, ttl);
    var t := Step(Step(s, Rotates(x.hash.token, sid, true), ttl), Passes(wait), ttl);
    RotateNow(t, sid, ttl);
    var r := Step(t, Rotates(Token(s.nextToken, x.user, s.now), sid, true), ttl);
    assert IsLate(r, r.rotations[|t.rotations|], sid, ttl);
  }

  /** Recorded half a second past a full one, rotated at the next full second, and rotated again with the
      token got there when the time to live ends. */
  function LateRun(u: User, ttl: int): (events: seq<Event>)
    requires ttl >= 1
  {
    [Records(u, 0)] + ([Passes(SECOND / 2)] + ([Rotates(Token(0, u, SECOND / 2), Sid(0), true)] +
    ([Passes(ttl * SECOND - SECOND / 2)] + ([Rotates(Token(1, u, SECOND), Sid(0), true)] + []))))
  }

  lemma HalfSecondTimes(u: User, ttl: int)
    requires ttl >= 1
    ensures SECOND / 2 + ttl * SECOND < Rounded(SECOND / 2 + ttl * SECOND)
    ensures SECOND <= Expiry(Token(0, u, SECOND / 2), ttl)
    ensures SECOND / 2 + ttl * SECOND <= Expiry(Token(1, u, SECOND), ttl)
  {
    RoundedIsNear(SECOND / 2, ttl);
    ExpiryIsCut(Token(0, u, SECOND / 2), ttl);
    ExpiryIsCut(Token(1, u, SECOND), ttl);
  }

  lemma HalfSecondRecord(u: User, ttl: int)
    ensures var s := Step(Step(Start(SECOND / 2), Records(u, 0), ttl), Passes(SECOND / 2), ttl);
            && s.now == SECOND && s.nextToken == 1 && Sid(0) in s.births && s.births[Sid(0)] == SECOND / 2
            && Sid(0) in s.sessions
            && s.sessions[Sid(0)] ==
               Session(u, Sha(Token(0, u, SECOND / 2)), SECOND / 2, SECOND / 2 + ttl * SECOND, None)
  {}

  /** That run ends with a rotation at the session's creation plus its time to live. */
  lemma SessionOutlivesItsTime(u: User, ttl: int)
    requires ttl >= 1
    ensures RotatedLate(Run(Start(SECOND / 2), LateRun(u, ttl), ttl), Sid(0), ttl)
  {
    hide Step, Rounded, Expiry, RotatedLate, Run;
    HalfSecondTimes(u, ttl);
    HalfSecondRecord(u, ttl);
    var s := Start(SECOND / 2);
    var a, b, c := Records(u, 0), Passes(SECOND / 2), Rotates(Token(0, u, SECOND / 2), Sid(0), true);
    var d, e := Passes(ttl * SECOND - SECOND / 2), Rotates(Token(1, u, SECOND), Sid(0), true);
    RotateWaitRotate(Step(Step(s, a, ttl), b, ttl), Sid(0), ttl * SECOND - SECOND / 2, ttl);
    var events := FiveEvents(s, a, b, c, d, e, ttl);
    assert events == LateRun(u, ttl);
  }
}
