/** Histograms of the metrics registry (`metrics/metrics_registry.cpp`). Counts are stored per bucket
    and added up only when they are rendered. */
module Histograms {
  /** A double: the finite ones as reals, without their rounding, and the three special kinds of value. */
  datatype Double = NaN | NegInf | Finite(r: real) | PosInf

  /** `<` on doubles: never true when either side is not a number. */
  predicate Less(a: Double, b: Double) {
    match (a, b)
    case (NaN, _) => false
    case (_, NaN) => false
    case (NegInf, _) => b != NegInf
    case (Finite(x), Finite(y)) => x < y
    case (Finite(_), _) => b == PosInf
    case (PosInf, _) => false
  }

  predicate AtMost(a: Double, b: Double) { !a.NaN? && !b.NaN? && !Less(b, a) }

  datatype Histogram = Histogram(bounds: seq<Double>, counts: seq<nat>, count: nat)

  datatype Name = Name(text: string)

  function DefaultBuckets(): (r: seq<Double>)
    ensures |r| == 11
  {
    [Finite(0.005), Finite(0.01), Finite(0.025), Finite(0.05), Finite(0.1), Finite(0.25), Finite(0.5),
     Finite(1.0), Finite(2.5), Finite(5.0), Finite(10.0)]
  }

  function Zeros(n: nat): (r: seq<nat>)
    ensures |r| == n && forall i :: 0 <= i < n ==> r[i] == 0
  {
    seq(n, i => 0)
  }

  function Empty(bounds: seq<Double>): (h: Histogram) { Histogram(bounds, Zeros(|bounds|), 0) }

  // ----- Registration: sort, then drop repeats -----

  function InsertBound(b: Double, s: seq<Double>): (r: seq<Double>) {
    if s == [] then [b] else if Less(b, s[0]) then [b] + s else if b == s[0] then s else [s[0]] + InsertBound(b, s[1..])
  }

  function Normalized(buckets: seq<Double>): (r: seq<Double>) {
    if buckets == [] then [] else InsertBound(buckets[0], Normalized(buckets[1..]))
  }

  /** Strictly ascending and all numbers, as a histogram's bounds must be. */
  ghost predicate Bounds(s: seq<Double>) {
    && (forall i :: 0 <= i < |s| ==> !s[i].NaN?)
    && (forall i, j :: 0 <= i < j < |s| ==> Less(s[i], s[j]))
  }

  lemma {:induction false} InsertBoundOk(b: Double, s: seq<Double>)
    requires Bounds(s) && !b.NaN?
    ensures Bounds(InsertBound(b, s)) && forall x :: x in InsertBound(b, s) <==> x == b || x in s
  {
    if s != [] && !Less(b, s[0]) && b != s[0] {
      assert s == [s[0]] + s[1..];
      InsertBoundOk(b, s[1..]);
      var rest := InsertBound(b, s[1..]);
      forall j | 0 <= j < |rest|
        ensures Less(s[0], rest[j])
      {
        assert rest[j] in rest;
      }
    }
  }

  /** Whatever order the bounds come in and however often, each is kept once, in ascending order. */
  lemma {:induction false} NormalizedOk(buckets: seq<Double>)
    requires forall i :: 0 <= i < |buckets| ==> !buckets[i].NaN?
    ensures Bounds(Normalized(buckets)) && forall x :: x in Normalized(buckets) <==> x in buckets
  {
    if buckets == [] {
    } else {
      assert buckets == [buckets[0]] + buckets[1..];
      NormalizedOk(buckets[1..]);
      InsertBoundOk(buckets[0], Normalized(buckets[1..]));
    }
  }

  // ----- Observation -----

  /** The first bound that is not below the value, or their number. */
  function LowerBound(bounds: seq<Double>, v: Double): (k: nat)
    ensures k <= |bounds|
  {
    if bounds == [] || !Less(bounds[0], v) then 0 else 1 + LowerBound(bounds[1..], v)
  }

  lemma {:induction false} LowerBoundIs(bounds: seq<Double>, v: Double, k: nat)
    requires k <= |bounds|
    requires forall i :: 0 <= i < k ==> Less(bounds[i], v)
    requires k < |bounds| ==> !Less(bounds[k], v)
    ensures LowerBound(bounds, v) == k
  {
    if k == 0 {
    } else {
      LowerBoundIs(bounds[1..], v, k - 1);
    }
  }

  /** A value falls at or under the `i`th bound's bucket when it is at most the bound, or not a number. */
  lemma {:induction false} LowerBoundAt(bounds: seq<Double>, v: Double, i: nat)
    requires Bounds(bounds) && i < |bounds|
    ensures LowerBound(bounds, v) <= i <==> AtMost(v, bounds[i]) || v.NaN?
  {
    if Less(bounds[0], v) && i > 0 {
      LowerBoundAt(bounds[1..], v, i - 1);
    }
  }

  /** Bounds a histogram that has none gets on its first observation. */
  function WithBounds(h: Histogram): (r: Histogram) {
    if h.bounds == [] then h.(bounds := DefaultBuckets(), counts := Zeros(|DefaultBuckets()|)) else h
  }

  function Counted(h: Histogram, v: Double): (r: Histogram) {
    var k := LowerBound(h.bounds, v);
    h.(count := h.count + 1,
       counts := if k < |h.bounds| && k < |h.counts| then h.counts[k := h.counts[k] + 1] else h.counts)
  }

  function Observe(h: Histogram, v: Double): (r: Histogram) { Counted(WithBounds(h), v) }

  // ----- What the counts mean -----

  function Sum(s: seq<nat>): (n: nat) { if s == [] then 0 else Sum(s[..|s| - 1]) + s[|s| - 1] }

  /** The total of the first `i + 1` counts. */
  function UpTo(s: seq<nat>, i: nat): (n: nat)
    requires i < |s|
  {
    Sum(s[..i + 1])
  }

  function CountAtMost(obs: seq<Double>, b: Double): (n: nat) {
    if obs == [] then 0 else CountAtMost(obs[..|obs| - 1], b) + if AtMost(obs[|obs| - 1], b) then 1 else 0
  }

  function CountNaN(obs: seq<Double>): (n: nat) {
    if obs == [] then 0 else CountNaN(obs[..|obs| - 1]) + if obs[|obs| - 1].NaN? then 1 else 0
  }

  /** The counts, added up from the first bound, say how many observations were at most each bound,
      together with those that were not numbers. */
  ghost predicate Summarises(h: Histogram, obs: seq<Double>) {
    && Bounds(h.bounds) && |h.counts| == |h.bounds| && h.count == |obs| && (h.bounds == [] ==> obs == [])
    && forall i :: 0 <= i < |h.bounds| ==> UpTo(h.counts, i) == CountAtMost(obs, h.bounds[i]) + CountNaN(obs)
  }

  lemma {:induction false} SumOfZeros(s: seq<nat>)
    requires forall i :: 0 <= i < |s| ==> s[i] == 0
    ensures Sum(s) == 0
  {
    if s == [] {
    } else {
      SumOfZeros(s[..|s| - 1]);
    }
  }

  lemma EmptySummarises(bounds: seq<Double>)
    requires Bounds(bounds)
    ensures Summarises(Empty(bounds), [])
  {
    var h := Empty(bounds);
    forall i | 0 <= i < |bounds|
      ensures UpTo(h.counts, i) == 0
    {
      SumOfZeros(h.counts[..i + 1]);
    }
  }

  lemma DefaultsOk()
    ensures Bounds(DefaultBuckets())
  {
    assert forall i :: 0 <= i < 10 ==> Less(DefaultBuckets()[i], DefaultBuckets()[i + 1]);
    assert forall i :: 0 <= i < 11 ==> !DefaultBuckets()[i].NaN?;
    hide DefaultBuckets;
    ChainAscends(DefaultBuckets());
  }

  lemma {:induction false} ChainAscends(s: seq<Double>)
    requires forall i :: 0 <= i < |s| ==> !s[i].NaN?
    requires forall i :: 0 <= i < |s| - 1 ==> Less(s[i], s[i + 1])
    ensures Bounds(s)
  {
    if |s| > 1 {
      ChainAscends(s[1..]);
      forall j | 0 < j < |s|
        ensures Less(s[0], s[j])
      {
        assert s[1..][j - 1] == s[j];
        assert j > 1 ==> Less(s[1..][0], s[1..][j - 1]);
      }
      assert forall i, j :: 0 < i < j < |s| ==>
        Less(s[1..][i - 1], s[1..][j - 1]) && s[1..][i - 1] == s[i] && s[1..][j - 1] == s[j];
    }
  }

  lemma {:induction false} SumBumped(s: seq<nat>, k: nat)
    requires k < |s|
    ensures Sum(s[k := s[k] + 1]) == Sum(s) + 1
  {
    var n := |s| - 1;
    var t := s[k := s[k] + 1];
    if k == n {
      assert t[..n] == s[..n];
    } else {
      assert t[..n] == s[..n][k := s[k] + 1];
      SumBumped(s[..n], k);
    }
  }

  lemma PrefixBumped(s: seq<nat>, k: nat, i: nat)
    requires k < |s| && i < |s|
    ensures UpTo(s[k := s[k] + 1], i) == UpTo(s, i) + if k <= i then 1 else 0
  {
    var t := s[k := s[k] + 1];
    if k <= i {
      assert t[..i + 1] == s[..i + 1][k := s[..i + 1][k] + 1];
      SumBumped(s[..i + 1], k);
    } else {
      assert t[..i + 1] == s[..i + 1];
    }
  }

  lemma CountedSummarises(h: Histogram, obs: seq<Double>, v: Double)
    requires Summarises(h, obs) && h.bounds != []
    ensures Summarises(Counted(h, v), obs + [v])
  {
    var r, k := Counted(h, v), LowerBound(h.bounds, v);
    var more := obs + [v];
    assert more[..|more| - 1] == obs;
    hide Bounds, AtMost;
    forall i | 0 <= i < |r.bounds|
      ensures UpTo(r.counts, i) == CountAtMost(more, r.bounds[i]) + CountNaN(more)
    {
      LowerBoundAt(h.bounds, v, i);
      assert CountAtMost(more, h.bounds[i]) == CountAtMost(obs, h.bounds[i]) + if AtMost(v, h.bounds[i]) then 1 else 0;
      assert CountNaN(more) == CountNaN(obs) + if v.NaN? then 1 else 0;
      NaNIsNotAtMost(v, h.bounds[i]);
      if k < |h.bounds| {
        PrefixBumped(h.counts, k, i);
      }
    }
  }

  lemma NaNIsNotAtMost(v: Double, b: Double)
    ensures v.NaN? ==> !AtMost(v, b)
  {}

  /** One observation keeps the meaning of the counts, also for a histogram that had no bounds yet. */
  lemma ObserveSummarises(h: Histogram, obs: seq<Double>, v: Double)
    requires Summarises(h, obs)
    ensures Summarises(Observe(h, v), obs + [v])
  {
    if h.bounds == [] {
      DefaultsOk();
      hide Bounds;
      EmptySummarises(DefaultBuckets());
      assert WithBounds(h) == Empty(DefaultBuckets());
    }
    hide Summarises, Counted;
    CountedSummarises(WithBounds(h), obs, v);
  }

  // ----- Runs of one registry -----

  datatype Event = Registers(name: Name, buckets: seq<Double>) | Observes(name: Name, v: Double)

  /** Bounds that are not numbers cannot be sorted; callers never supply them. */
  predicate Sortable(e: Event) { e.Registers? ==> forall i :: 0 <= i < |e.buckets| ==> !e.buckets[i].NaN? }

  type Registry = map<Name, Histogram>

  function Find(reg: Registry, name: Name): (h: Histogram) { if name in reg then reg[name] else Empty([]) }

  function Step(reg: Registry, e: Event): (r: Registry) {
    match e
    case Registers(name, buckets) => reg[name := Empty(Normalized(buckets))]
    case Observes(name, v) => reg[name := Observe(Find(reg, name), v)]
  }

  function Run(events: seq<Event>): (r: Registry) {
    if events == [] then map[] else Step(Run(events[..|events| - 1]), events[|events| - 1])
  }

  /** The values observed under a name since it was last registered. */
  function Since(events: seq<Event>, name: Name): (obs: seq<Double>) {
    if events == [] then []
    else
      var e, before := events[|events| - 1], events[..|events| - 1];
      if e.name != name then Since(before, name)
      else if e.Registers? then []
      else Since(before, name) + [e.v]
  }

  lemma {:induction false} RunSummarises(events: seq<Event>, name: Name)
    requires forall i :: 0 <= i < |events| ==> Sortable(events[i])
    ensures Summarises(Find(Run(events), name), Since(events, name))
  {
    if events == [] {
      EmptySummarises([]);
    } else {
      var n := |events| - 1;
      var e, before := events[n], events[..n];
      RunSummarises(before, name);
      hide Summarises, Observe, Empty;
      if e.name == name {
        match e
        case Registers(_, buckets) =>
          assert Sortable(events[n]);
          NormalizedOk(buckets);
          EmptySummarises(Normalized(buckets));
        case Observes(_, v) => ObserveSummarises(Find(Run(before), name), Since(before, name), v);
      }
    }
  }

  /** The series a rendering shows: one running total for each bound. */
  function Cumulative(h: Histogram): (r: seq<nat>)
    ensures |r| == |h.counts|
  {
    seq(|h.counts|, i requires 0 <= i < |h.counts| => UpTo(h.counts, i))
  }

  lemma {:induction false} SumGrows(s: seq<nat>, i: nat, j: nat)
    requires i <= j <= |s|
    ensures Sum(s[..i]) <= Sum(s[..j])
  {
    if i < j {
      SumGrows(s, i, j - 1);
      assert s[..j][..j - 1] == s[..j - 1];
    }
  }

  lemma {:induction false} CountsFit(obs: seq<Double>, b: Double)
    ensures CountAtMost(obs, b) + CountNaN(obs) <= |obs|
  {
    if obs == [] {
    } else {
      CountsFit(obs[..|obs| - 1], b);
    }
  }

  /** After any run, what is rendered for each bound is the number of values observed since
      registration that are at most the bound, plus those that are not numbers; the totals never
      decrease and never exceed the count. */
  lemma RenderedIsCumulative(events: seq<Event>, name: Name)
    requires forall i :: 0 <= i < |events| ==> Sortable(events[i])
    ensures var h, obs := Find(Run(events), name), Since(events, name);
            var shown := Cumulative(h);
            && |shown| == |h.bounds| && h.count == |obs|
            && (forall i :: 0 <= i < |shown| ==> shown[i] == CountAtMost(obs, h.bounds[i]) + CountNaN(obs))
            && (forall i, j :: 0 <= i < j < |shown| ==> shown[i] <= shown[j])
            && (forall i :: 0 <= i < |shown| ==> shown[i] <= h.count)
  {
    RunSummarises(events, name);
    hide Run, Since, Summarises;
    ShownIsCumulative(Find(Run(events), name), Since(events, name));
  }

  lemma ShownIsCumulative(h: Histogram, obs: seq<Double>)
    requires Summarises(h, obs)
    ensures var shown := Cumulative(h);
            && |shown| == |h.bounds| && h.count == |obs|
            && (forall i :: 0 <= i < |shown| ==> shown[i] == CountAtMost(obs, h.bounds[i]) + CountNaN(obs))
            && (forall i, j :: 0 <= i < j < |shown| ==> shown[i] <= shown[j])
            && (forall i :: 0 <= i < |shown| ==> shown[i] <= h.count)
  {
    var shown := Cumulative(h);
    hide CountAtMost, CountNaN, Bounds;
    forall i, j | 0 <= i < j < |shown|
      ensures shown[i] <= shown[j]
    {
      SumGrows(h.counts, i + 1, j + 1);
    }
    forall i | 0 <= i < |shown|
      ensures shown[i] <= h.count
    {
      CountsFit(obs, h.bounds[i]);
    }
  }

  lemma {:induction false} NoNaN(obs: seq<Double>)
    ensures CountNaN(obs) == 0 <==> forall i :: 0 <= i < |obs| ==> !obs[i].NaN?
  {
    if obs == [] {
    } else {
      NoNaN(obs[..|obs| - 1]);
      assert forall i :: 0 <= i < |obs| - 1 ==> obs[..|obs| - 1][i] == obs[i];
    }
  }

  /** The rendered series is exactly "how many values were at most the bound" if and only if every
      observation was a number: one that is not lands in the lowest bucket. */
  lemma ExactIffNumbers(events: seq<Event>, name: Name)
    requires forall i :: 0 <= i < |events| ==> Sortable(events[i])
    requires Find(Run(events), name).bounds != []
    ensures var h, obs := Find(Run(events), name), Since(events, name);
            (forall i :: 0 <= i < |Cumulative(h)| ==>
                i < |h.bounds| && Cumulative(h)[i] == CountAtMost(obs, h.bounds[i]))
            <==> (forall i :: 0 <= i < |obs| ==> !obs[i].NaN?)
  {
    RenderedIsCumulative(events, name);
    NoNaN(Since(events, name));
    hide Run, Since, CountAtMost, CountNaN;
    var h := Find(Run(events), name);
    assert |Cumulative(h)| > 0;
    assert Cumulative(h)[0] == CountAtMost(Since(events, name), h.bounds[0]) + CountNaN(Since(events, name));
  }

  /** Filling in the default bounds loses nothing: the counts mean what they meant. */
  lemma WithBoundsSummarises(events: seq<Event>, name: Name)
    requires forall i :: 0 <= i < |events| ==> Sortable(events[i])
    ensures var h := WithBounds(Find(Run(events), name)); h.bounds != [] && Summarises(h, Since(events, name))
  {
    RunSummarises(events, name);
    DefaultsOk();
    EmptySummarises(DefaultBuckets());
    hide Run, Bounds, Since;
    assert Find(Run(events), name).bounds == [] ==>
             WithBounds(Find(Run(events), name)) == Empty(DefaultBuckets()) && Since(events, name) == [];
  }

  /** One observation that is not a number shows up in every bucket, although it is at most no bound. */
  lemma NaNIsCounted(name: Name)
    ensures var h := Find(Run([Observes(name, NaN)]), name);
            && |Cumulative(h)| == |h.bounds| == |DefaultBuckets()|
            && forall i :: 0 <= i < |h.bounds| ==> Cumulative(h)[i] == 1 && CountAtMost([NaN], h.bounds[i]) == 0
  {
    var events := [Observes(name, NaN)];
    assert events[..0] == [] && Since(events[..0], name) == [];
    var obs := Since(events, name);
    assert obs == [NaN] && obs[..0] == [];
    assert CountNaN(obs) == 1;
    assert forall b :: CountAtMost(obs, b) == 0;
    RenderedIsCumulative(events, name);
    assert Run(events)[name].bounds == DefaultBuckets() by { assert Run(events[..0]) == map[]; }
  }

  /** The bounds a name was last registered with, if it was. */
  function RegisteredWith(events: seq<Event>, name: Name): (buckets: seq<Double>) {
    if events == [] then []
    else
      var e := events[|events| - 1];
      if e.Registers? && e.name == name then e.buckets else RegisteredWith(events[..|events| - 1], name)
  }

  /** In every run the bounds of a histogram are those it was last registered with, each once and ascending;
      if that is none, they are the default ones from the first observation on, and none before. */
  lemma {:induction false} BoundsAreRegistered(events: seq<Event>, name: Name)
    requires forall i :: 0 <= i < |events| ==> Sortable(events[i])
    ensures var b, given := Find(Run(events), name).bounds, RegisteredWith(events, name);
            && Bounds(b)
            && (given != [] ==> forall x :: x in b <==> x in given)
            && (given == [] ==> b == if Since(events, name) == [] then [] else DefaultBuckets())
  {
    RunSummarises(events, name);
    hide Bounds, DefaultBuckets;
    if events == [] {
    } else {
      var n := |events| - 1;
      BoundsAreRegistered(events[..n], name);
      assert Sortable(events[n]);
      hide Summarises;
      StepBounds(Run(events[..n]), events[n], name);
      var given := RegisteredWith(events[..n], name);
      assert given != [] ==> given[0] in given;
      if events[n].Registers? {
        NormalizedOk(events[n].buckets);
        NothingNormalized(events[n].buckets);
      }
      hide Step, Find, Normalized;
    }
  }

  lemma StepBounds(reg: Registry, e: Event, name: Name)
    ensures var before, b := Find(reg, name).bounds, Find(Step(reg, e), name).bounds;
            b == if e.name != name then before
                 else if e.Registers? then Normalized(e.buckets)
                 else if before == [] then DefaultBuckets() else before
  {
    hide Normalized, DefaultBuckets, LowerBound;
  }

  lemma NothingNormalized(buckets: seq<Double>)
    ensures buckets == [] ==> Normalized(buckets) == []
  {}

  /** The order of doubles: reals by their value, below plus and above minus infinity, and nothing that is not
      a number. */
  lemma AtMostIs(a: Double, b: Double, x: real, y: real)
    ensures AtMost(Finite(x), Finite(y)) <==> x <= y
    ensures AtMost(NegInf, b) <==> !b.NaN?
    ensures AtMost(a, PosInf) <==> !a.NaN?
    ensures !AtMost(NaN, b) && !AtMost(a, NaN) && !AtMost(PosInf, Finite(y)) && !AtMost(Finite(x), NegInf)
  {}

  // ----- The registry as it runs -----

  class MetricsRegistry {
    var histograms: map<Name, Histogram>
    ghost var events: seq<Event>

    ghost predicate Valid()
      reads this
    {
      histograms == Run(events) && forall i :: 0 <= i < |events| ==> Sortable(events[i])
    }

    constructor ()
      ensures Valid() && events == []
    {
      histograms, events := map[], [];
    }

    method RegisterHistogram(name: Name, buckets: seq<Double>)
      requires Valid() && forall i :: 0 <= i < |buckets| ==> !buckets[i].NaN?
      modifies this
      ensures Valid() && events == old(events) + [Registers(name, buckets)]
    {
      histograms := histograms[name := Empty(Normalized(buckets))];
      events := events + [Registers(name, buckets)];
      assert events[..|events| - 1] == old(events);
    }

    /** Binary search, as std::lower_bound does it. */
    method FindBucket(bounds: seq<Double>, v: Double) returns (k: nat)
      requires Bounds(bounds)
      ensures k == LowerBound(bounds, v)
    {
      k := 0;
      var len := |bounds|;
      while len > 0
        invariant 0 <= k <= k + len <= |bounds|
        invariant forall i :: 0 <= i < k ==> Less(bounds[i], v)
        invariant forall i :: k + len <= i < |bounds| ==> !Less(bounds[i], v)
      {
        var half := len / 2;
        if Less(bounds[k + half], v) {
          k := k + half + 1;
          len := len - half - 1;
        } else {
          len := half;
        }
      }
      LowerBoundIs(bounds, v, k);
    }

    /** The histogram to count in: made with the default bounds when it has none. */
    method HistogramFor(name: Name) returns (h: Histogram)
      requires Valid()
      ensures h == WithBounds(Find(histograms, name))
      ensures h.bounds != [] && Summarises(h, Since(events, name))
    {
      WithBoundsSummarises(events, name);
      hide Summarises, Run, Since;
      h := if name in histograms then histograms[name] else Empty([]);
      if h.bounds == [] {
        h := h.(bounds := DefaultBuckets(), counts := Zeros(|DefaultBuckets()|));
      }
    }

    method Count(h: Histogram, v: Double) returns (r: Histogram)
      requires Bounds(h.bounds) && |h.counts| == |h.bounds|
      ensures r == Counted(h, v)
    {
      hide Bounds, LowerBound;
      r := h.(count := h.count + 1);
      var k := FindBucket(r.bounds, v);
      if k < |r.bounds| {
        r := r.(counts := r.counts[k := r.counts[k] + 1]);
      }
    }

    method Observe(name: Name, v: Double)
      requires Valid()
      modifies this
      ensures Valid() && events == old(events) + [Observes(name, v)]
    {
      var h := HistogramFor(name);
      assert Bounds(h.bounds) && |h.counts| == |h.bounds|;
      hide Summarises, Bounds, Counted, WithBounds;
      h := Count(h, v);
      histograms := histograms[name := h];
      events := events + [Observes(name, v)];
      assert events[..|events| - 1] == old(events);
    }

    /** The running totals, as the rendering loop writes them out. */
    method RenderBuckets(name: Name) returns (shown: seq<nat>)
      requires Valid()
      ensures shown == Cumulative(Find(histograms, name))
    {
      RunSummarises(events, name);
      var h := Find(histograms, name);
      shown := [];
      var total := 0;
      for i := 0 to |h.bounds|
        invariant |shown| == i && total == Sum(h.counts[..i])
        invariant forall j :: 0 <= j < i ==> shown[j] == UpTo(h.counts, j)
      {
        assert h.counts[..i + 1][..i] == h.counts[..i];
        total := total + h.counts[i];
        shown := shown + [total];
      }
    }
  }
}
