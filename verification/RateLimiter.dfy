/** The fixed-window limiter (`ratelimit/rate_limiter.cpp`) on top of the lazily expiring store. */
module RateLimiter {
  import opened Options
  import opened Decimal
  import opened CacheStore

  datatype Result = Result(allowed: bool, limit: int, remaining: int, retryAfter: int)

  function KeyOf(bucket: string, identity: string): (k: Key) { Key("ratelimit:" + bucket + ":" + identity) }

  class Limiter {
    const enabled: bool
    const store: InMemoryCacheStore

    constructor (enabled: bool, store: InMemoryCacheStore)
      ensures this.enabled == enabled && this.store == store
    {
      this.enabled, this.store := enabled, store;
    }

    /** Counts the hit in the store and compares; a disabled limiter or a limit of zero or less lets
        everything through and does not count. */
    method Check(bucket: string, identity: string, max: int, window: int, now: Time) returns (r: Result)
      modifies store
      ensures r.limit == max && store.sets == old(store.sets)
      ensures !enabled || max <= 0 ==>
                r.allowed && r.remaining == max && r.retryAfter == 0 && store.strings == old(store.strings)
      ensures enabled && max > 0 ==>
                var op := Incr(KeyOf(bucket, identity), window);
                var count := LazyAnswer(old(store.strings), op, now).n;
                && store.strings == LazyStep(old(store.strings), op, now)
                && (r.allowed <==> count <= max)
                && r.remaining == (if count <= max then max - count else 0)
                && r.retryAfter == (if r.allowed then 0 else window)
    {
      if !enabled || max <= 0 {
        return Result(true, max, max, 0);
      }
      var count := store.Increment(KeyOf(bucket, identity), window, now);
      var allowed := count <= max;
      r := Result(allowed, max, if max - count > 0 then max - count else 0, if allowed then 0 else window);
    }
  }

  // ----- The reference: windows that open with a hit and close `width` later -----

  datatype Window = Window(count: nat, until: Time)

  function Hit(w: Option<Window>, t: Time, width: int): (r: Window) {
    if w.Some? && t < w.value.until then Window(w.value.count + 1, w.value.until) else Window(1, t + width)
  }

  /** Of hits at the given times, how many are admitted inside [from, to). */
  function Admitted(w: Option<Window>, hits: seq<Time>, width: int, max: int, from: Time, to: Time): (n: nat)
    decreases hits
  {
    if hits == [] then 0 else
      var v := Hit(w, hits[0], width);
      (if v.count <= max && from <= hits[0] < to then 1 else 0) + Admitted(Some(v), hits[1..], width, max, from, to)
  }

  predicate Ascending(hits: seq<Time>, from: Time) {
    hits == [] || (from <= hits[0] && Ascending(hits[1..], hits[0]))
  }

  lemma {:induction false} NoneAfter(w: Option<Window>, hits: seq<Time>, width: int, max: int, from: Time, to: Time)
    requires Ascending(hits, to)
    ensures Admitted(w, hits, width, max, from, to) == 0
    decreases hits
  {
    if hits == [] {
    } else {
      EarlierBound(hits[1..], hits[0], to);
      NoneAfter(Some(Hit(w, hits[0], width)), hits[1..], width, max, from, to);
    }
  }

  lemma EarlierBound(hits: seq<Time>, from: Time, earlier: Time)
    requires Ascending(hits, from) && earlier <= from
    ensures Ascending(hits, earlier)
  {}

  function Rest(w: Window, max: int): (n: nat) { if w.count <= max then max - w.count else 0 }

  /** A window that closes no earlier than the interval lets at most its own rest through. */
  lemma {:induction false} OneWindow(w: Window, hits: seq<Time>, width: int, max: int, from: Time, to: Time)
    requires to <= w.until && Ascending(hits, if hits == [] then 0 else hits[0])
    ensures Admitted(Some(w), hits, width, max, from, to) <= Rest(w, max)
    decreases hits
  {
    if hits == [] {
    } else {
      if hits[0] < w.until {
        OneWindow(Hit(Some(w), hits[0], width), hits[1..], width, max, from, to);
      } else {
        NoneAfter(Some(w), hits, width, max, from, to);
      }
    }
  }

  /** An interval as long as a window meets at most two windows: the one that is open when it begins
      and the one that opens inside it, and never the opening hits of both. */
  lemma {:induction false} TwoWindows(w: Option<Window>, hits: seq<Time>, width: int, max: int, from: Time)
    requires width > 0 && max > 0 && Ascending(hits, if hits == [] then 0 else hits[0])
    requires w.Some? ==> w.value.count >= 1
    ensures Admitted(w, hits, width, max, from, from + width) <=
            (if w.Some? && w.value.until > from then Rest(w.value, max) else max - 1) + max
    decreases hits
  {
    if hits == [] {
    } else {
      var t, to := hits[0], from + width;
      var v := Hit(w, t, width);
      if v.until == t + width && v.count == 1 && t >= from {
        OneWindow(v, hits[1..], width, max, from, to);
      } else {
        TwoWindows(Some(v), hits[1..], width, max, from);
      }
    }
  }

  // ----- The limiter over a run of the store -----

  /** On key `k`, nothing but checks with this window; anything at all on other keys; purges. */
  predicate OnlyChecks(calls: seq<Call>, k: Key, width: int) {
    forall i :: 0 <= i < |calls| ==>
      var op := calls[i].op;
      op.Purge? || op.k != k || op == Incr(k, width)
  }

  function Hits(calls: seq<Call>, k: Key): (h: seq<Time>) {
    if calls == [] then []
    else (if calls[0].op.Incr? && calls[0].op.k == k then [calls[0].at] else []) + Hits(calls[1..], k)
  }

  /** Checks of key `k` in the run that the limiter lets through inside [from, to). */
  function LetThrough(s: Strings, calls: seq<Call>, k: Key, max: int, from: Time, to: Time): (n: nat)
    decreases calls
  {
    if calls == [] then 0 else
      var c := calls[0];
      (if c.op.Incr? && c.op.k == k && LazyAnswer(s, c.op, c.at).n <= max && from <= c.at < to then 1 else 0) +
      LetThrough(LazyStep(s, c.op, c.at), calls[1..], k, max, from, to)
  }

  /** What the store answers to the checks of key `k`, one after the other. */
  function Counts(s: Strings, calls: seq<Call>, k: Key): (n: seq<int>)
    decreases calls
  {
    if calls == [] then [] else
      var c := calls[0];
      (if c.op.Incr? && c.op.k == k then [LazyAnswer(s, c.op, c.at).n] else []) +
      Counts(LazyStep(s, c.op, c.at), calls[1..], k)
  }

  /** The count each hit gets in the reference windows. */
  function WindowCounts(w: Option<Window>, hits: seq<Time>, width: int): (n: seq<int>)
    ensures |n| == |hits|
    decreases hits
  {
    if hits == [] then [] else
      var v := Hit(w, hits[0], width);
      [v.count] + WindowCounts(Some(v), hits[1..], width)
  }

  /** The store's entry for the key is the open window, if there is one. */
  predicate Shows(s: Strings, k: Key, w: Option<Window>, now: Time) {
    if w.Some? && now < w.value.until then k in s && s[k] == Entry(IntToString(w.value.count), Some(w.value.until))
    else k in s ==> Past(s[k].deadline, now)
  }

  lemma ShowsLater(s: Strings, k: Key, w: Option<Window>, now: Time, later: Time)
    requires Shows(s, k, w, now) && now <= later
    ensures Shows(s, k, w, later)
  {}

  lemma OtherOpsDoNotShow(s: Strings, k: Key, w: Option<Window>, op: Op, now: Time)
    requires Shows(s, k, w, now) && (op.Purge? || op.k != k)
    ensures Shows(LazyStep(s, op, now), k, w, now)
  {}

  lemma CheckShows(s: Strings, k: Key, w: Option<Window>, width: int, now: Time)
    requires Shows(s, k, w, now) && width > 0 && (w.Some? ==> w.value.count < INT64_MAX)
    ensures Shows(LazyStep(s, Incr(k, width), now), k, Some(Hit(w, now, width)), now)
    ensures LazyAnswer(s, Incr(k, width), now).n == Hit(w, now, width).count
  {
    if w.Some? && now < w.value.until {
      FromCharsReadsToString(w.value.count);
    } else {
      assert IntToString(1) == "1";
    }
  }

  lemma {:induction false} VerdictsAreWindows(s: Strings, calls: seq<Call>, k: Key, w: Option<Window>, width: int,
                                              max: int, now: Time, from: Time, to: Time)
    requires Timed(calls, now) && OnlyChecks(calls, k, width) && width > 0 && Shows(s, k, w, now)
    requires |calls| + (if w.Some? then w.value.count else 0) <= INT64_MAX
    ensures LetThrough(s, calls, k, max, from, to) == Admitted(w, Hits(calls, k), width, max, from, to)
    decreases calls
  {
    if calls == [] {
    } else {
      hide LazyStep, LazyAnswer, Shows, Hit;
      var c := calls[0];
      ShowsLater(s, k, w, now, c.at);
      assert OnlyChecks(calls[1..], k, width);
      if c.op == Incr(k, width) {
        CheckShows(s, k, w, width, c.at);
        HitCount(w, c.at, width);
        var next, v := LazyStep(s, c.op, c.at), Hit(w, c.at, width);
        VerdictsAreWindows(next, calls[1..], k, Some(v), width, max, c.at, from, to);
        assert Hits(calls, k)[1..] == Hits(calls[1..], k);
      } else {
        OtherOpsDoNotShow(s, k, w, c.op, c.at);
        VerdictsAreWindows(LazyStep(s, c.op, c.at), calls[1..], k, w, width, max, c.at, from, to);
        assert [] + Hits(calls[1..], k) == Hits(calls[1..], k);
      }
    }
  }

  lemma {:induction false} CountsAreWindows(s: Strings, calls: seq<Call>, k: Key, w: Option<Window>, width: int,
                                            now: Time)
    requires Timed(calls, now) && OnlyChecks(calls, k, width) && width > 0 && Shows(s, k, w, now)
    requires |calls| + (if w.Some? then w.value.count else 0) <= INT64_MAX
    ensures Counts(s, calls, k) == WindowCounts(w, Hits(calls, k), width)
    decreases calls
  {
    if calls == [] {
    } else {
      hide LazyStep, LazyAnswer, Shows, Hit;
      var c := calls[0];
      ShowsLater(s, k, w, now, c.at);
      assert OnlyChecks(calls[1..], k, width);
      if c.op == Incr(k, width) {
        CheckShows(s, k, w, width, c.at);
        HitCount(w, c.at, width);
        CountsAreWindows(LazyStep(s, c.op, c.at), calls[1..], k, Some(Hit(w, c.at, width)), width, c.at);
        assert Hits(calls, k)[1..] == Hits(calls[1..], k);
      } else {
        OtherOpsDoNotShow(s, k, w, c.op, c.at);
        CountsAreWindows(LazyStep(s, c.op, c.at), calls[1..], k, w, width, c.at);
        assert [] + Hits(calls[1..], k) == Hits(calls[1..], k);
      }
    }
  }

  /** Whatever else the store does, the limiter's counts and decisions are those of the reference windows. */
  lemma LimiterIsWindows(s: Strings, calls: seq<Call>, k: Key, w: Option<Window>, width: int, max: int,
                         now: Time, from: Time, to: Time)
    requires Timed(calls, now) && OnlyChecks(calls, k, width) && width > 0 && Shows(s, k, w, now)
    requires |calls| + (if w.Some? then w.value.count else 0) <= INT64_MAX
    ensures LetThrough(s, calls, k, max, from, to) == Admitted(w, Hits(calls, k), width, max, from, to)
    ensures Counts(s, calls, k) == WindowCounts(w, Hits(calls, k), width)
  {
    hide LetThrough, Admitted, Counts, WindowCounts, Hits, Shows;
    VerdictsAreWindows(s, calls, k, w, width, max, now, from, to);
    CountsAreWindows(s, calls, k, w, width, now);
  }

  lemma HitCount(w: Option<Window>, t: Time, width: int)
    ensures 1 <= Hit(w, t, width).count <= (if w.Some? then w.value.count else 0) + 1
  {}

  lemma {:induction false} HitsAscend(calls: seq<Call>, k: Key, now: Time)
    requires Timed(calls, now)
    ensures Ascending(Hits(calls, k), now)
  {
    if calls == [] {
    } else {
      HitsAscend(calls[1..], k, calls[0].at);
      var rest := Hits(calls[1..], k);
      if calls[0].op.Incr? && calls[0].op.k == k {
        assert ([calls[0].at] + rest)[1..] == rest;
      } else {
        assert [] + rest == rest;
        EarlierBound(rest, calls[0].at, now);
      }
    }
  }

  /** Over the whole run, any half-open interval of one window's length lets at most 2 * max - 1
      through, wherever purges fall and whatever happens to other keys. (One less than twice the
      limit: the hits that open two windows are a whole window apart.) */
  lemma UnderTwiceTheLimit(s: Strings, calls: seq<Call>, k: Key, width: int, max: int, now: Time, from: Time)
    requires Timed(calls, now) && OnlyChecks(calls, k, width) && width > 0 && max > 0 && k !in s && |calls| <= INT64_MAX
    ensures LetThrough(s, calls, k, max, from, from + width) <= 2 * max - 1
  {
    LimiterIsWindows(s, calls, k, None, width, max, now, from, from + width);
    HitsAscend(calls, k, now);
    var hits := Hits(calls, k);
    if hits != [] {
      EarlierBound(hits[1..], hits[0], hits[0]);
    }
    TwoWindows(None, hits, width, max, from);
  }

  // ----- Each window admits exactly its first `max` hits -----

  /** The hit that opened the window hit `i` falls in, found from the times alone. */
  function Opener(hits: seq<Time>, i: nat, width: int): (j: nat)
    requires i < |hits|
    ensures j <= i
  {
    if i == 0 then 0
    else var j := Opener(hits, i - 1, width); if hits[i] < hits[j] + width then j else i
  }

  /** The window after the first `i` hits. */
  function After(hits: seq<Time>, i: nat, width: int): (w: Option<Window>)
    requires i <= |hits|
  {
    if i == 0 then None else Some(Hit(After(hits, i - 1, width), hits[i - 1], width))
  }

  lemma {:induction false} WindowOfHit(hits: seq<Time>, i: nat, width: int)
    requires i < |hits| && width > 0
    ensures var w := After(hits, i + 1, width).value;
            w.until == hits[Opener(hits, i, width)] + width && w.count == i - Opener(hits, i, width) + 1
  {
    if i == 0 {
    } else {
      WindowOfHit(hits, i - 1, width);
    }
  }

  lemma {:induction false} CountsFollowWindows(hits: seq<Time>, i: nat, j: nat, width: int)
    requires i <= j < |hits|
    ensures WindowCounts(After(hits, i, width), hits[i..], width)[j - i] == After(hits, j + 1, width).value.count
    decreases j - i
  {
    var v := Hit(After(hits, i, width), hits[i], width);
    assert hits[i..][1..] == hits[i + 1..];
    if i < j {
      CountsFollowWindows(hits, i + 1, j, width);
    }
  }

  /** Check number `i` of the key is let through exactly when fewer than `max` checks came before it
      in its window, the window being read off the times of the checks alone. */
  lemma FirstHitsAreAdmitted(s: Strings, calls: seq<Call>, k: Key, width: int, max: int, now: Time, i: nat)
    requires Timed(calls, now) && OnlyChecks(calls, k, width) && width > 0 && k !in s && |calls| <= INT64_MAX
    requires i < |Hits(calls, k)|
    ensures i < |Counts(s, calls, k)|
    ensures Counts(s, calls, k)[i] <= max <==> i - Opener(Hits(calls, k), i, width) < max
  {
    hide LazyStep, LazyAnswer, Hit, Counts, Opener, Hits;
    var hits := Hits(calls, k);
    LimiterIsWindows(s, calls, k, None, width, max, now, 0, 0);
    CountOfHit(hits, i, width);
  }

  lemma CountOfHit(hits: seq<Time>, i: nat, width: int)
    requires i < |hits| && width > 0
    ensures WindowCounts(None, hits, width)[i] == i - Opener(hits, i, width) + 1
  {
    hide Hit;
    CountsFollowWindows(hits, 0, i, width);
    assert hits[0..] == hits && After(hits, 0, width) == None;
    WindowOfHit(hits, i, width);
  }

  // ----- The bound is reached -----

  /** Checks of the key at the given times, and nothing else. */
  function ChecksAt(k: Key, width: int, hits: seq<Time>): (calls: seq<Call>)
    ensures |calls| == |hits|
  {
    if hits == [] then [] else [Call(Incr(k, width), hits[0])] + ChecksAt(k, width, hits[1..])
  }

  lemma {:induction false} ChecksAreTimed(k: Key, width: int, hits: seq<Time>, from: Time)
    requires Ascending(hits, from)
    ensures var calls := ChecksAt(k, width, hits);
            Timed(calls, from) && OnlyChecks(calls, k, width) && Hits(calls, k) == hits
    decreases hits
  {
    if hits == [] {
    } else {
      ChecksAreTimed(k, width, hits[1..], hits[0]);
      assert ChecksAt(k, width, hits)[1..] == ChecksAt(k, width, hits[1..]);
      assert hits == [hits[0]] + hits[1..];
    }
  }

  function Burst(n: nat, t: Time): (hits: seq<Time>)
    ensures |hits| == n
  {
    if n == 0 then [] else [t] + Burst(n - 1, t)
  }

  lemma AscendingCons(t: Time, rest: seq<Time>, from: Time)
    requires from <= t && Ascending(rest, t)
    ensures Ascending([t] + rest, from)
  {
    assert ([t] + rest)[1..] == rest;
  }

  lemma {:induction false} BurstAscends(n: nat, t: Time, rest: seq<Time>, from: Time)
    requires from <= t && Ascending(rest, t)
    ensures Ascending(Burst(n, t) + rest, from)
    decreases n
  {
    hide Ascending;
    if n == 0 {
      assert Burst(n, t) + rest == rest;
      EarlierBound(rest, t, from);
    } else {
      BurstAscends(n - 1, t, rest, t);
      AscendingCons(t, Burst(n - 1, t) + rest, from);
      assert Burst(n, t) + rest == [t] + (Burst(n - 1, t) + rest);
    }
  }

  /** While the window is open and below the limit, a burst inside the interval is let through whole. */
  lemma {:induction false} BurstIsAdmitted(w: Window, n: nat, t: Time, rest: seq<Time>, width: int, max: int,
                                           from: Time, to: Time)
    requires t < w.until && w.count + n <= max && from <= t < to
    ensures Admitted(Some(w), Burst(n, t) + rest, width, max, from, to) ==
            n + Admitted(Some(Window(w.count + n, w.until)), rest, width, max, from, to)
    decreases n
  {
    if n == 0 {
      assert Burst(n, t) + rest == rest;
    } else {
      assert (Burst(n, t) + rest)[1..] == Burst(n - 1, t) + rest;
      BurstIsAdmitted(Window(w.count + 1, w.until), n - 1, t, rest, width, max, from, to);
    }
  }

  /** One hit opens a window; the rest of the limit comes just before it closes, and the whole limit
      again just after. */
  function Straddle(width: int, max: nat): (hits: seq<Time>)
    requires max > 0
    ensures |hits| == 2 * max
  {
    [0] + (Burst(max - 1, width - 1) + ([width] + (Burst(max - 1, width) + [])))
  }

  lemma StraddleAscends(width: int, max: nat)
    requires max > 0 && width >= 2
    ensures Ascending(Straddle(width, max), 0)
  {
    var last := Burst(max - 1, width) + [];
    var second := [width] + last;
    var first := Burst(max - 1, width - 1) + second;
    BurstAscends(max - 1, width, [], width);
    assert second[1..] == last;
    BurstAscends(max - 1, width - 1, second, 0);
    assert ([0] + first)[1..] == first;
  }

  lemma StraddleAdmits(width: int, max: nat)
    requires max > 0 && width >= 2
    ensures Admitted(None, Straddle(width, max), width, max, 1, 1 + width) == 2 * max - 1
  {
    var last := Burst(max - 1, width) + [];
    var second := [width] + last;
    var first := Burst(max - 1, width - 1) + second;
    assert ([0] + first)[1..] == first && second[1..] == last;
    BurstIsAdmitted(Window(1, width), max - 1, width - 1, second, width, max, 1, 1 + width);
    BurstIsAdmitted(Window(1, width + width), max - 1, width, [], width, max, 1, 1 + width);
    assert Admitted(Some(Window(max, width)), second, width, max, 1, 1 + width) ==
           1 + Admitted(Some(Window(1, width + width)), last, width, max, 1, 1 + width);
  }

  /** For every limit and every window of at least two ticks some run reaches the bound of
      `UnderTwiceTheLimit`: 2 * max - 1 checks are let through within one window's length. */
  lemma BoundIsReached(k: Key, width: int, max: nat)
    requires max > 0 && width >= 2 && 2 * max <= INT64_MAX
    ensures LetThrough(map[], ChecksAt(k, width, Straddle(width, max)), k, max, 1, 1 + width) == 2 * max - 1
  {
    var hits := Straddle(width, max);
    StraddleAscends(width, max);
    StraddleAdmits(width, max);
    hide Straddle, Hits, LetThrough, ChecksAt, Admitted;
    ChecksAreTimed(k, width, hits, 0);
    LimiterIsWindows(map[], ChecksAt(k, width, hits), k, None, width, max, 0, 1, 1 + width);
  }

  // ----- Callers are counted apart -----

  /** Two callers of a bucket have different keys, and for two buckets without a colon in their names
      equal keys mean the same bucket and the same caller. */
  lemma KeysAreApart(bucket: string, identity: string, other: string, caller: string)
    ensures KeyOf(bucket, identity) == KeyOf(bucket, caller) ==> identity == caller
    ensures ':' !in bucket && ':' !in other && KeyOf(bucket, identity) == KeyOf(other, caller) ==>
              bucket == other && identity == caller
  {
    var p := |"ratelimit:"|;
    var s, t := KeyOf(bucket, identity).text, KeyOf(other, caller).text;
    assert s[p..] == bucket + ":" + identity && t[p..] == other + ":" + caller;
    assert KeyOf(bucket, caller).text[p..] == bucket + ":" + caller;
    assert (bucket + ":" + identity)[|bucket| + 1..] == identity && (bucket + ":" + caller)[|bucket| + 1..] == caller;
    if ':' !in bucket && ':' !in other && bucket + ":" + identity == other + ":" + caller {
      ColonSplitsOnce(bucket, identity, other, caller);
    }
  }

  /** One check of a caller, with the window its bucket has. */
  datatype Check = Check(bucket: string, identity: string, width: int, at: Time)

  function CallsOf(checks: seq<Check>): (calls: seq<Call>)
    ensures |calls| == |checks|
  {
    if checks == [] then []
    else [Call(Incr(KeyOf(checks[0].bucket, checks[0].identity), checks[0].width), checks[0].at)] + CallsOf(checks[1..])
  }

  /** When one caller was checked, among all the others. */
  function TimesOf(checks: seq<Check>, bucket: string, identity: string): (times: seq<Time>) {
    if checks == [] then []
    else (if checks[0].bucket == bucket && checks[0].identity == identity then [checks[0].at] else []) +
         TimesOf(checks[1..], bucket, identity)
  }

  /** Checks in order of time, of buckets that hold no colon, those of `bucket` all with the same window. */
  predicate Plain(checks: seq<Check>, bucket: string, width: int, from: Time) {
    || checks == []
    || (&& ':' !in checks[0].bucket && (checks[0].bucket == bucket ==> checks[0].width == width)
        && from <= checks[0].at && Plain(checks[1..], bucket, width, checks[0].at))
  }

  lemma {:induction false} CallsAreChecks(checks: seq<Check>, width: int, bucket: string, identity: string, from: Time)
    requires Plain(checks, bucket, width, from) && ':' !in bucket
    ensures var calls, k := CallsOf(checks), KeyOf(bucket, identity);
            Timed(calls, from) && OnlyChecks(calls, k, width) && Hits(calls, k) == TimesOf(checks, bucket, identity)
    decreases checks
  {
    if checks == [] {
    } else {
      hide KeyOf;
      var c, calls := checks[0], CallsOf(checks);
      CallsAreChecks(checks[1..], width, bucket, identity, c.at);
      KeysAreApart(c.bucket, c.identity, bucket, identity);
      assert calls[1..] == CallsOf(checks[1..]);
    }
  }

  /** Whatever other callers do, the `i`th check of a caller is let through exactly when fewer than `max` of
      that caller's own checks came before it in its window. */
  lemma CallersAreLimitedApart(checks: seq<Check>, bucket: string, identity: string, width: int, max: int,
                               from: Time, i: nat)
    requires Plain(checks, bucket, width, from) && ':' !in bucket && width > 0 && |checks| <= INT64_MAX
    requires i < |TimesOf(checks, bucket, identity)|
    ensures var counts := Counts(map[], CallsOf(checks), KeyOf(bucket, identity));
            i < |counts| && (counts[i] <= max <==> i - Opener(TimesOf(checks, bucket, identity), i, width) < max)
  {
    CallsAreChecks(checks, width, bucket, identity, from);
    hide Counts, CallsOf, TimesOf, Hits, KeyOf, Opener;
    FirstHitsAreAdmitted(map[], CallsOf(checks), KeyOf(bucket, identity), width, max, from, i);
  }

  // ----- When no interval sees more than the limit -----

  /** A run of the store in which the key is new and only ever checked. */
  predicate FreshRun(s: Strings, calls: seq<Call>, k: Key, width: int, now: Time) {
    Timed(calls, now) && OnlyChecks(calls, k, width) && k !in s && |calls| <= INT64_MAX
  }

  /** What gets through in the interval of one window's length that begins at `from`. */
  function InOneLength(s: Strings, calls: seq<Call>, k: Key, width: int, max: int, from: Time): (n: nat) {
    LetThrough(s, calls, k, max, from, from + width)
  }

  /** When windows last one tick, an interval of that length meets one window only. */
  lemma {:induction false} OneTickWindows(w: Option<Window>, hits: seq<Time>, max: int, from: Time)
    requires max > 0 && Ascending(hits, if hits == [] then 0 else hits[0]) && (w.Some? ==> w.value.until <= from)
    ensures Admitted(w, hits, 1, max, from, from + 1) <= max
    decreases hits
  {
    if hits == [] {
    } else {
      var t := hits[0];
      var v := Hit(w, t, 1);
      if t < from {
        OneTickWindows(Some(v), hits[1..], max, from);
      } else if t == from {
        OneWindow(v, hits[1..], 1, max, from, from + 1);
      } else {
        NoneAfter(w, hits, 1, max, from, from + 1);
      }
    }
  }

  lemma OneTickKeepsLimit(s: Strings, calls: seq<Call>, k: Key, max: int, now: Time, from: Time)
    requires FreshRun(s, calls, k, 1, now) && max > 0
    ensures InOneLength(s, calls, k, 1, max, from) <= max
  {
    hide LetThrough, Admitted, Hits;
    LimiterIsWindows(s, calls, k, None, 1, max, now, from, from + 1);
    HitsAscend(calls, k, now);
    OneTickWindows(None, Hits(calls, k), max, from);
  }

  /** Over all runs, no interval of one window's length lets more than the limit through if and only if
      the limit is one or windows last one tick. */
  lemma WithinLimitIff(k: Key, width: int, max: nat)
    requires width > 0 && max > 0 && 2 * max <= INT64_MAX
    ensures (forall s, calls, now, from :: FreshRun(s, calls, k, width, now) ==>
               InOneLength(s, calls, k, width, max, from) <= max)
            <==> max == 1 || width == 1
  {
    hide LetThrough;
    if max == 1 || width == 1 {
      forall s, calls, now, from | FreshRun(s, calls, k, width, now)
        ensures InOneLength(s, calls, k, width, max, from) <= max
      {
        if width == 1 {
          OneTickKeepsLimit(s, calls, k, max, now, from);
        } else {
          UnderTwiceTheLimit(s, calls, k, width, max, now, from);
        }
      }
    } else {
      var calls := ChecksAt(k, width, Straddle(width, max));
      BoundIsReached(k, width, max);
      StraddleAscends(width, max);
      ChecksAreTimed(k, width, Straddle(width, max), 0);
      assert FreshRun(map[], calls, k, width, 0) && InOneLength(map[], calls, k, width, max, 1) > max;
    }
  }

  // ----- Windows that never close -----

  ghost predicate Stuck(s: Strings, k: Key, n: nat) {
    if n == 0 then k !in s else k in s && s[k] == Entry(IntToString(n), None)
  }

  lemma StuckCheck(s: Strings, k: Key, n: nat, width: int, now: Time)
    requires Stuck(s, k, n) && width <= 0 && n < INT64_MAX
    ensures Stuck(LazyStep(s, Incr(k, width), now), k, n + 1) && LazyAnswer(s, Incr(k, width), now).n == n + 1
  {
    if n > 0 {
      FromCharsReadsToString(n);
    }
    assert IntToString(1) == "1";
  }

  lemma StuckOther(s: Strings, k: Key, n: nat, op: Op, now: Time)
    requires Stuck(s, k, n) && (op.Purge? || op.k != k)
    ensures Stuck(LazyStep(s, op, now), k, n)
  {}

  /** With a window of zero or less the entry never expires: the `i`th further check always counts
      `n + i`. */
  lemma {:induction false} StuckCounts(s: Strings, calls: seq<Call>, k: Key, n: nat, width: int, now: Time, i: nat)
    requires Timed(calls, now) && OnlyChecks(calls, k, width) && width <= 0 && |calls| + n <= INT64_MAX
    requires Stuck(s, k, n)
    requires i < |Hits(calls, k)|
    ensures i < |Counts(s, calls, k)| && Counts(s, calls, k)[i] == n + i + 1
    decreases calls
  {
    hide LazyStep, LazyAnswer, Stuck;
    var c := calls[0];
    var next := LazyStep(s, c.op, c.at);
    assert OnlyChecks(calls[1..], k, width);
    if c.op != Incr(k, width) {
      StuckOther(s, k, n, c.op, c.at);
      StuckCounts(next, calls[1..], k, n, width, c.at, i);
    } else {
      StuckCheck(s, k, n, width, c.at);
      if i > 0 {
        StuckCounts(next, calls[1..], k, n + 1, width, c.at, i - 1);
      }
    }
  }

  /** What is let through in any interval never exceeds what is left of the limit. */
  lemma {:induction false} StuckBound(s: Strings, calls: seq<Call>, k: Key, n: nat, width: int, max: int, now: Time,
                                      from: Time, to: Time)
    requires Timed(calls, now) && OnlyChecks(calls, k, width) && width <= 0 && |calls| + n <= INT64_MAX
    requires Stuck(s, k, n)
    ensures LetThrough(s, calls, k, max, from, to) <= if n <= max then max - n else 0
    decreases calls
  {
    if calls == [] {
    } else {
      hide LazyStep, LazyAnswer, Stuck;
      var c := calls[0];
      var next := LazyStep(s, c.op, c.at);
      assert OnlyChecks(calls[1..], k, width);
      if c.op == Incr(k, width) {
        StuckCheck(s, k, n, width, c.at);
        StuckBound(next, calls[1..], k, n + 1, width, max, c.at, from, to);
      } else {
        StuckOther(s, k, n, c.op, c.at);
        StuckBound(next, calls[1..], k, n, width, max, c.at, from, to);
      }
    }
  }

  /** Then a key gets exactly its first `max` checks and no more, ever. */
  lemma NoWindowNeverResets(s: Strings, calls: seq<Call>, k: Key, width: int, max: int, now: Time, i: nat)
    requires Timed(calls, now) && OnlyChecks(calls, k, width) && width <= 0 && k !in s && |calls| <= INT64_MAX
    requires i < |Hits(calls, k)|
    ensures i < |Counts(s, calls, k)|
    ensures Counts(s, calls, k)[i] <= max <==> i < max
    ensures max >= 0 ==> forall from, to :: LetThrough(s, calls, k, max, from, to) <= max
  {
    hide Counts, LetThrough;
    StuckCounts(s, calls, k, 0, width, now, i);
    forall from, to
      ensures max >= 0 ==> LetThrough(s, calls, k, max, from, to) <= max
    {
      StuckBound(s, calls, k, 0, width, max, now, from, to);
    }
  }
}
