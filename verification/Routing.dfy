/** routers/base.go, latency.go, round_robin.go, tpmrpm.go: the filter pipeline, the three choices made
    at its end, and the cooldown that keeps a deployment out of all of them. */
module Routing {
  import opened Averages
  import opened Options
  import FW = FailureWindow
  import RR = RoundRobin

  datatype DeploymentConfig = DeploymentConfig(tags: seq<string>, weight: real, tpmLimit: int, rpmLimit: int)

  datatype Extended = Extended(id: string, providerName: string, config: DeploymentConfig)

  datatype Stats = Stats(
    totalRequests: nat, successCount: nat, failureCount: nat, lastRequestTime: int, avgLatencyMs: real,
    cooldownUntil: int,
    ewmaLatencyMs: real, ewmaAvgTTFTMs: real, ewmaSuccessRate: real,
    latencyHistory: seq<real>, ttftHistory: seq<real>,
    currentMinuteKey: int, currentMinuteTPM: nat, currentMinuteRPM: nat)

  datatype Request = Request(streaming: bool, tags: seq<string>, inputTokens: int)

  datatype Error =
    | NoAvailableDeployment
    | NoDeploymentsWithTag
    | RandomPanic    // not returned: an index is drawn from an empty list, and the call panics

  datatype Result<T> = Ok(value: T) | Err(error: Error)

  // ---------------------------------------------------------------- filters

  /** What a filter asks of a deployment. */
  datatype Criterion =
    | Healthy(stats: map<string, Stats>, now: int)
    | Matching(tags: seq<string>)
    | Tagged(tag: string)
    | Within(limits: map<string, Stats>, inputTokens: int)
    | From(provider: string)

  predicate Meets(d: Extended, c: Criterion) {
    match c
    case Healthy(stats, now) => d.id !in stats || now > stats[d.id].cooldownUntil
    case Matching(tags) => exists t :: t in d.config.tags && t in tags
    case Tagged(tag) => tag in d.config.tags
    case Within(stats, tokens) =>
      d.id !in stats ||
      (&& !(d.config.tpmLimit > 0 && stats[d.id].currentMinuteTPM + tokens > d.config.tpmLimit)
       && !(d.config.rpmLimit > 0 && stats[d.id].currentMinuteRPM + 1 > d.config.rpmLimit))
    case From(provider) => d.providerName == provider
  }

  /** The deployments that meet a criterion, in order. */
  function Keep(ds: seq<Extended>, c: Criterion): seq<Extended> {
    if ds == [] then []
    else Keep(ds[..|ds| - 1], c) + if Meets(ds[|ds| - 1], c) then [ds[|ds| - 1]] else []
  }

  lemma {:induction false} KeepIn(ds: seq<Extended>, c: Criterion, d: Extended)
    ensures d in Keep(ds, c) <==> d in ds && Meets(d, c)
  {
    if ds != [] {
      KeepIn(ds[..|ds| - 1], c, d);
      assert ds == ds[..|ds| - 1] + [ds[|ds| - 1]];
    }
  }

  method Filter(ds: seq<Extended>, c: Criterion) returns (kept: seq<Extended>)
    ensures kept == Keep(ds, c)
    ensures forall d :: d in kept <==> d in ds && Meets(d, c)
  {
    kept := [];
    for i := 0 to |ds|
      invariant kept == Keep(ds[..i], c)
    {
      assert ds[..i + 1][..i] == ds[..i];
      if Meets(ds[i], c) {
        kept := kept + [ds[i]];
      }
    }
    assert ds[..|ds|] == ds;
    forall d
      ensures d in kept <==> d in ds && Meets(d, c)
    {
      KeepIn(ds, c, d);
    }
  }

  /** Those with a requested tag, failing that those tagged as default, failing that none; without tags in the
      request, those tagged as default, failing that all. */
  function ByTags(ds: seq<Extended>, tags: seq<string>): seq<Extended> {
    var defaults := Keep(ds, Tagged("default"));
    if tags == [] then
      if defaults != [] then defaults else ds
    else if Keep(ds, Matching(tags)) != [] then Keep(ds, Matching(tags))
    else defaults
  }

  method FilterByTags(ds: seq<Extended>, tags: seq<string>) returns (kept: seq<Extended>)
    ensures kept == ByTags(ds, tags)
    ensures forall d <- kept :: d in ds
    ensures tags != [] ==> forall d <- kept :: Meets(d, Matching(tags)) || Meets(d, Tagged("default"))
  {
    var defaults := Filter(ds, Tagged("default"));
    if |tags| == 0 {
      return if |defaults| > 0 then defaults else ds;
    }
    var matched := Filter(ds, Matching(tags));
    if |matched| > 0 {
      return matched;
    }
    if |defaults| > 0 {
      return defaults;
    }
    return [];
  }

  method FilterByDefaultProvider(ds: seq<Extended>, provider: string) returns (kept: seq<Extended>)
    ensures kept == if provider == "" || Keep(ds, From(provider)) == [] then ds else Keep(ds, From(provider))
    ensures forall d <- kept :: d in ds
    ensures ds != [] ==> kept != []
  {
    if |ds| == 0 || provider == "" {
      assert ds == [] ==> Keep(ds, From(provider)) == [];
      return ds;
    }
    var preferred := Filter(ds, From(provider));
    if |preferred| > 0 {
      return preferred;
    }
    return ds;
  }

  /** What the filters shared by every router leave of the deployments. */
  function Pool(ds: seq<Extended>, stats: map<string, Stats>, now: int, tags: seq<string>): Result<seq<Extended>> {
    var healthy := Keep(ds, Healthy(stats, now));
    var tagged := if tags == [] then healthy else ByTags(healthy, tags);
    if healthy == [] then Err(NoAvailableDeployment)
    else if tagged == [] then Err(NoDeploymentsWithTag)
    else Ok(tagged)
  }

  method FindPool(ds: seq<Extended>, stats: map<string, Stats>, now: int, tags: seq<string>)
    returns (pool: Result<seq<Extended>>)
    ensures pool == Pool(ds, stats, now, tags)
    ensures pool.Ok? ==> pool.value != []
  {
    var healthy := Filter(ds, Healthy(stats, now));
    if |healthy| == 0 {
      return Err(NoAvailableDeployment);
    }
    if |tags| > 0 {
      healthy := FilterByTags(healthy, tags);
      if |healthy| == 0 {
        return Err(NoDeploymentsWithTag);
      }
    }
    return Ok(healthy);
  }

  ghost predicate Suits(d: Extended, ds: seq<Extended>, stats: map<string, Stats>, now: int, tags: seq<string>) {
    && d in ds && Meets(d, Healthy(stats, now))
    && (|| tags == []
        || SharesTag(d, tags)
        || ("default" in d.config.tags && NoneMatch(ds, stats, now, tags)))
  }

  ghost predicate SharesTag(d: Extended, tags: seq<string>) {
    exists t <- tags :: t in d.config.tags
  }

  ghost predicate NoneMatch(ds: seq<Extended>, stats: map<string, Stats>, now: int, tags: seq<string>) {
    forall e <- ds :: Meets(e, Healthy(stats, now)) ==> !SharesTag(e, tags)
  }

  lemma MatchingMeans(d: Extended, tags: seq<string>)
    ensures Meets(d, Matching(tags)) <==> SharesTag(d, tags)
  {
  }

  lemma KeepNone(ds: seq<Extended>, c: Criterion)
    ensures Keep(ds, c) == [] <==> forall d <- ds :: !Meets(d, c)
  {
    if Keep(ds, c) != [] {
      KeepIn(ds, c, Keep(ds, c)[0]);
    } else {
      forall d | d in ds
        ensures !Meets(d, c)
      {
        KeepIn(ds, c, d);
      }
    }
  }

  lemma NoMatchLeft(ds: seq<Extended>, stats: map<string, Stats>, now: int, tags: seq<string>)
    ensures Keep(Keep(ds, Healthy(stats, now)), Matching(tags)) == [] <==> NoneMatch(ds, stats, now, tags)
  {
    var healthy := Keep(ds, Healthy(stats, now));
    KeepNone(healthy, Matching(tags));
    forall d
      ensures d in healthy <==> d in ds && Meets(d, Healthy(stats, now))
      ensures Meets(d, Matching(tags)) <==> SharesTag(d, tags)
    {
      KeepIn(ds, Healthy(stats, now), d);
      MatchingMeans(d, tags);
    }
  }

  lemma ByTagsSuits(ds: seq<Extended>, stats: map<string, Stats>, now: int, tags: seq<string>, d: Extended)
    requires tags != []
    ensures d in ByTags(Keep(ds, Healthy(stats, now)), tags) <==> Suits(d, ds, stats, now, tags)
  {
    var healthy := Keep(ds, Healthy(stats, now));
    KeepIn(ds, Healthy(stats, now), d);
    KeepIn(healthy, Matching(tags), d);
    KeepIn(healthy, Tagged("default"), d);
    MatchingMeans(d, tags);
    NoMatchLeft(ds, stats, now, tags);
  }

  /** The pool is what suits the request, and it fails exactly when nothing does: for want of a healthy
      deployment first, for want of a tag otherwise. */
  lemma PoolSuits(ds: seq<Extended>, stats: map<string, Stats>, now: int, tags: seq<string>, d: Extended)
    ensures var pool := Pool(ds, stats, now, tags);
      && (pool.Ok? ==> (d in pool.value <==> Suits(d, ds, stats, now, tags)))
      && (pool.Err? ==> !Suits(d, ds, stats, now, tags))
      && (pool == Err(NoAvailableDeployment) <==> forall e <- ds :: !Meets(e, Healthy(stats, now)))
  {
    KeepIn(ds, Healthy(stats, now), d);
    KeepNone(ds, Healthy(stats, now));
    if tags != [] {
      ByTagsSuits(ds, stats, now, tags, d);
    }
  }

  // ---------------------------------------------------------------- shuffling and sorting

  datatype Candidate = Candidate(deployment: Extended, latency: real, successRate: real)

  function Swapped<T>(s: seq<T>, i: nat, j: nat): (r: seq<T>)
    requires i < |s| && j < |s|
  {
    s[i := s[j]][j := s[i]]
  }

  method Swap<T>(a: array<T>, i: nat, j: nat)
    requires i < a.Length && j < a.Length
    modifies a
    ensures a[..] == Swapped(old(a[..]), i, j)
  {
    a[i], a[j] := a[j], a[i];
  }

  /** What a shuffle with the given draws makes of a list, from index `n` down. */
  function Shuffled<T>(s: seq<T>, draws: nat -> nat, n: nat): (r: seq<T>)
    requires n <= |s|
    decreases n
  {
    if n <= 1 then s else Shuffled(Swapped(s, n - 1, draws(n) % n), draws, n - 1)
  }

  lemma {:induction false} ShuffledSame<T>(s: seq<T>, draws: nat -> nat, n: nat)
    requires n <= |s|
    ensures |Shuffled(s, draws, n)| == |s| && multiset(Shuffled(s, draws, n)) == multiset(s)
    decreases n
  {
    if n > 1 {
      ShuffledSame(Swapped(s, n - 1, draws(n) % n), draws, n - 1);
    }
  }

  method Shuffle<T>(a: array<T>, draws: nat -> nat)
    modifies a
    ensures a[..] == Shuffled(old(a[..]), draws, a.Length)
  {
    var n := a.Length;
    while n > 1
      invariant 0 <= n <= a.Length
      invariant Shuffled(a[..], draws, n) == Shuffled(old(a[..]), draws, a.Length)
    {
      Swap(a, n - 1, draws(n) % n);
      n := n - 1;
    }
  }

  lemma ShuffledIn<T>(s: seq<T>, draws: nat -> nat, n: nat, x: T)
    requires n <= |s|
    ensures x in Shuffled(s, draws, n) <==> x in s
  {
    ShuffledSame(s, draws, n);
    assert x in Shuffled(s, draws, n) <==> x in multiset(Shuffled(s, draws, n));
  }

  function Insert(s: seq<Candidate>, x: Candidate): (r: seq<Candidate>)
    ensures |r| == |s| + 1
  {
    if s != [] && x.latency < s[|s| - 1].latency then Insert(s[..|s| - 1], x) + [s[|s| - 1]] else s + [x]
  }

  function Sorted(s: seq<Candidate>): (r: seq<Candidate>)
    ensures |r| == |s|
  {
    if s == [] then [] else Insert(Sorted(s[..|s| - 1]), s[|s| - 1])
  }

  lemma {:induction false} InsertSame(s: seq<Candidate>, x: Candidate)
    ensures multiset(Insert(s, x)) == multiset(s) + multiset{x}
  {
    if s != [] && x.latency < s[|s| - 1].latency {
      InsertSame(s[..|s| - 1], x);
      assert s == s[..|s| - 1] + [s[|s| - 1]];
    }
  }

  lemma {:induction false} SortedSame(s: seq<Candidate>)
    ensures multiset(Sorted(s)) == multiset(s)
  {
    if s != [] {
      SortedSame(s[..|s| - 1]);
      InsertSame(Sorted(s[..|s| - 1]), s[|s| - 1]);
      assert s == s[..|s| - 1] + [s[|s| - 1]];
    }
  }

  ghost predicate Ordered(s: seq<Candidate>) {
    forall i, j :: 0 <= i < j < |s| ==> s[i].latency <= s[j].latency
  }

  /** The candidates of latency `v`, in order. */
  ghost function Ties(s: seq<Candidate>, v: real): seq<Candidate> {
    if s == [] then []
    else Ties(s[..|s| - 1], v) + if s[|s| - 1].latency == v then [s[|s| - 1]] else []
  }

  lemma {:induction false} InsertOrdered(s: seq<Candidate>, x: Candidate)
    requires Ordered(s)
    ensures Ordered(Insert(s, x))
    ensures Insert(s, x)[|s|].latency ==
      if s != [] && x.latency < s[|s| - 1].latency then s[|s| - 1].latency else x.latency
  {
    if s != [] && x.latency < s[|s| - 1].latency {
      InsertOrdered(s[..|s| - 1], x);
    }
  }

  lemma {:induction false} InsertTies(s: seq<Candidate>, x: Candidate, v: real)
    ensures Ties(Insert(s, x), v) == Ties(s, v) + if x.latency == v then [x] else []
  {
    if s != [] && x.latency < s[|s| - 1].latency {
      var front := s[..|s| - 1];
      InsertTies(front, x, v);
      assert Insert(s, x)[..|s|] == Insert(front, x);
    } else {
      assert (s + [x])[..|s|] == s;
    }
  }

  /** Sorting orders by latency and keeps the order of equals. */
  lemma {:induction false} SortedIsStable(s: seq<Candidate>, v: real)
    ensures Ordered(Sorted(s))
    ensures Ties(Sorted(s), v) == Ties(s, v)
  {
    if s != [] {
      SortedIsStable(s[..|s| - 1], v);
      InsertOrdered(Sorted(s[..|s| - 1]), s[|s| - 1]);
      InsertTies(Sorted(s[..|s| - 1]), s[|s| - 1], v);
    }
  }

  /** While element `i` of `s` slides down, `x` stands at `j` and what it has passed is one place up. */
  ghost predicate Sliding(now: seq<Candidate>, was: seq<Candidate>, i: nat, j: nat) {
    && j <= i < |was| == |now|
    && now == was[..j] + [was[i]] + was[j..i] + was[i + 1..]
    && Insert(was[..i], was[i]) == Insert(was[..j], was[i]) + was[j..i]
  }

  lemma SlideStarts(was: seq<Candidate>, i: nat)
    requires i < |was|
    ensures Sliding(was, was, i, i)
  {
  }

  lemma SlideOn(now: seq<Candidate>, was: seq<Candidate>, i: nat, j: nat)
    requires Sliding(now, was, i, j) && j > 0 && now[j].latency < now[j - 1].latency
    ensures Sliding(Swapped(now, j, j - 1), was, i, j - 1)
  {
    assert was[..j][..j - 1] == was[..j - 1] && was[j - 1..i] == [was[j - 1]] + was[j..i];
  }

  lemma SlideEnds(now: seq<Candidate>, was: seq<Candidate>, i: nat, j: nat)
    requires Sliding(now, was, i, j) && (j > 0 ==> now[j].latency >= now[j - 1].latency)
    ensures now == Insert(was[..i], was[i]) + was[i + 1..]
  {
    assert j > 0 ==> was[..j][j - 1] == now[j - 1];
    assert Insert(was[..j], was[i]) == was[..j] + [was[i]];
  }

  method SlideDown(a: array<Candidate>, i: nat)
    requires i < a.Length
    modifies a
    ensures a[..] == Insert(old(a[..])[..i], old(a[i])) + old(a[..])[i + 1..]
  {
    var j := i;
    ghost var was := a[..];
    SlideStarts(was, i);
    while j > 0 && a[j].latency < a[j - 1].latency
      invariant 0 <= j <= i && Sliding(a[..], was, i, j)
    {
      SlideOn(a[..], was, i, j);
      Swap(a, j, j - 1);
      j := j - 1;
    }
    SlideEnds(a[..], was, i, j);
  }

  ghost predicate SortedTo(now: seq<Candidate>, was: seq<Candidate>, i: nat) {
    i <= |was| == |now| && now == Sorted(was[..i]) + was[i..]
  }

  lemma SortOn(now: seq<Candidate>, was: seq<Candidate>, i: nat)
    requires SortedTo(now, was, i) && i < |was|
    ensures SortedTo(Insert(now[..i], now[i]) + now[i + 1..], was, i + 1)
  {
    assert now[..i] == Sorted(was[..i]) && now[i] == was[i] && now[i + 1..] == was[i + 1..];
    assert was[..i + 1][..i] == was[..i];
  }

  method SortStable(a: array<Candidate>)
    modifies a
    ensures a[..] == Sorted(old(a[..]))
  {
    ghost var was := a[..];
    assert SortedTo(was, was, 0);
    for i := 0 to a.Length
      invariant SortedTo(a[..], was, i)
    {
      SortOn(a[..], was, i);
      SlideDown(a, i);
    }
    assert was[..a.Length] == was;
  }

  // ---------------------------------------------------------------- choice by weight

  /** The sum of the first `i` values. */
  function Prefix(ws: seq<real>, i: nat): real
    requires i <= |ws|
  {
    if i == 0 then 0.0 else Prefix(ws, i - 1) + ws[i - 1]
  }

  lemma {:induction false} PrefixMonotone(ws: seq<real>, i: nat, j: nat)
    requires i <= j <= |ws| && forall w <- ws :: w >= 0.0
    ensures Prefix(ws, i) <= Prefix(ws, j)
    decreases j
  {
    if i < j {
      PrefixMonotone(ws, i, j - 1);
      assert ws[j - 1] in ws;
    }
  }

  /** The half-open interval of targets that belongs to weight `i`; its length is that weight. */
  ghost predicate InInterval(ws: seq<real>, i: nat, target: real)
    requires i < |ws|
  {
    Prefix(ws, i) <= target < Prefix(ws, i) + ws[i]
  }

  /** Weights that are not negative give disjoint intervals. */
  lemma IntervalsDisjoint(ws: seq<real>, i: nat, j: nat, target: real)
    requires i < |ws| && j < |ws| && forall w <- ws :: w >= 0.0
    requires InInterval(ws, i, target) && InInterval(ws, j, target)
    ensures i == j
  {
    if i < j {
      PrefixMonotone(ws, i + 1, j);
    } else if j < i {
      PrefixMonotone(ws, j + 1, i);
    }
  }

  /** The first index at which the running sum passes the target; without negative weights, the one whose
      interval holds it. */
  method ByTarget(ws: seq<real>, target: real) returns (at: nat)
    requires 0.0 <= target < Prefix(ws, |ws|)
    ensures at < |ws| && target < Prefix(ws, at + 1)
    ensures InInterval(ws, at, target)
    ensures (forall w <- ws :: w >= 0.0) ==> forall i: nat | i < |ws| :: InInterval(ws, i, target) <==> i == at
  {
    var running := 0.0;
    at := 0;
    while at < |ws| && running + ws[at] <= target
      invariant at <= |ws| && running == Prefix(ws, at) <= target
    {
      running := running + ws[at];
      at := at + 1;
    }
    if forall w <- ws :: w >= 0.0 {
      forall i: nat | i < |ws| && InInterval(ws, i, target)
        ensures i == at
      {
        IntervalsDisjoint(ws, i, at, target);
      }
    }
  }

  /** base * rate^2 / latency, with a floor of one millisecond. */
  function Weight(c: Candidate, custom: bool): real {
    var latency := if c.latency <= 0.0 then 1.0 else c.latency;
    var base := if custom then c.deployment.config.weight else 1.0;
    base * (c.successRate * c.successRate) / latency
  }

  function Weights(cs: seq<Candidate>, custom: bool): (ws: seq<real>)
    ensures |ws| == |cs| && forall i :: 0 <= i < |cs| ==> ws[i] == Weight(cs[i], custom)
  {
    seq(|cs|, i requires 0 <= i < |cs| => Weight(cs[i], custom))
  }

  ghost predicate Custom(cs: seq<Candidate>) {
    exists i :: 0 <= i < |cs| && cs[i].deployment.config.weight > 0.0
  }

  lemma WeightSign(c: Candidate, custom: bool)
    requires c.deployment.config.weight >= 0.0
    ensures Weight(c, custom) >= 0.0
    ensures Weight(c, custom) == 0.0 <==> c.successRate == 0.0 || (custom && c.deployment.config.weight == 0.0)
  {
    var latency := if c.latency <= 0.0 then 1.0 else c.latency;
    var base := if custom then c.deployment.config.weight else 1.0;
    var rate := if c.successRate < 0.0 then -c.successRate else c.successRate;
    assert rate * rate == c.successRate * c.successRate;
    Product(rate, rate);
    Product(base, rate * rate);
    Quotient(base * (rate * rate), latency);
  }

  lemma Product(x: real, y: real)
    requires x >= 0.0 && y >= 0.0
    ensures x * y >= 0.0 && (x * y == 0.0 <==> x == 0.0 || y == 0.0)
  {
    if x > 0.0 && y > 0.0 {
      assert x * y > 0.0;
    }
  }

  lemma Quotient(x: real, y: real)
    requires x >= 0.0 && y > 0.0
    ensures x / y >= 0.0 && (x / y == 0.0 <==> x == 0.0)
  {
    assert x / y * y == x;
  }

  method HasCustomWeights(cs: seq<Candidate>) returns (custom: bool)
    ensures custom <==> Custom(cs)
  {
    for i := 0 to |cs|
      invariant forall k :: 0 <= k < i ==> cs[k].deployment.config.weight <= 0.0
    {
      if cs[i].deployment.config.weight > 0.0 {
        return true;
      }
    }
    return false;
  }

  method Weigh(cs: seq<Candidate>, custom: bool) returns (ws: seq<real>, total: real)
    ensures ws == Weights(cs, custom) && total == Prefix(ws, |ws|)
  {
    ws, total := [], 0.0;
    ghost var all := Weights(cs, custom);
    for i := 0 to |cs|
      invariant ws == all[..i] && total == Prefix(all, i)
    {
      ws, total := ws + [Weight(cs[i], custom)], total + Weight(cs[i], custom);
    }
  }

  // ---------------------------------------------------------------- latency router

  function Average(history: seq<real>): real {
    if history == [] then 0.0 else Prefix(history, |history|) / |history| as real
  }

  method CalculateAverageLatency(history: seq<real>) returns (average: real)
    ensures average == Average(history) && average * |history| as real == Prefix(history, |history|)
    ensures history == [] ==> average == 0.0
  {
    if |history| == 0 {
      return 0.0;
    }
    var sum := 0.0;
    for i := 0 to |history|
      invariant sum == Prefix(history, i)
    {
      sum := sum + history[i];
    }
    Undivided(sum, |history| as real);
    return sum / |history| as real;
  }

  function LatencyOf(d: Extended, stats: map<string, Stats>, streaming: bool): real {
    if d.id !in stats then 0.0
    else if streaming && stats[d.id].ewmaAvgTTFTMs > 0.0 then stats[d.id].ewmaAvgTTFTMs
    else if !streaming && stats[d.id].ewmaLatencyMs > 0.0 then stats[d.id].ewmaLatencyMs
    else if streaming && |stats[d.id].ttftHistory| > 0 then Average(stats[d.id].ttftHistory)
    else Average(stats[d.id].latencyHistory)
  }

  function RateOf(d: Extended, stats: map<string, Stats>): real {
    if d.id in stats then stats[d.id].ewmaSuccessRate else 1.0
  }

  function Measured(pool: seq<Extended>, stats: map<string, Stats>, streaming: bool): (cs: seq<Candidate>)
    ensures |cs| == |pool|
    ensures forall i :: 0 <= i < |pool| ==>
      cs[i] == Candidate(pool[i], LatencyOf(pool[i], stats, streaming), RateOf(pool[i], stats))
  {
    seq(|pool|, i requires 0 <= i < |pool| =>
      Candidate(pool[i], LatencyOf(pool[i], stats, streaming), RateOf(pool[i], stats)))
  }

  ghost predicate Plain(s: Stats) {
    (forall x <- s.latencyHistory :: x >= 0.0) && (forall x <- s.ttftHistory :: x >= 0.0)
  }

  /** Recorded latencies are not negative. */
  ghost predicate AllPlain(stats: map<string, Stats>) {
    forall id <- stats :: Plain(stats[id])
  }

  lemma AverageNonNegative(history: seq<real>)
    requires forall x <- history :: x >= 0.0
    ensures Average(history) >= 0.0
  {
    if history != [] {
      PrefixMonotone(history, 0, |history|);
      Quotient(Prefix(history, |history|), |history| as real);
    }
  }

  lemma LatencyNonNegative(d: Extended, stats: map<string, Stats>, streaming: bool)
    requires AllPlain(stats)
    ensures LatencyOf(d, stats, streaming) >= 0.0
  {
    if d.id in stats {
      assert Plain(stats[d.id]);
      AverageNonNegative(stats[d.id].latencyHistory);
      AverageNonNegative(stats[d.id].ttftHistory);
    }
  }

  /** The history a latency is averaged from if there is no moving average. */
  ghost function UsedHistory(s: Stats, streaming: bool): seq<real> {
    if streaming && s.ttftHistory != [] then s.ttftHistory else s.latencyHistory
  }

  ghost function MovingAverage(s: Stats, streaming: bool): real {
    if streaming then s.ewmaAvgTTFTMs else s.ewmaLatencyMs
  }

  lemma {:induction false} PrefixBetween(xs: seq<real>, i: nat, lo: real, hi: real)
    requires i <= |xs| && forall x <- xs :: lo <= x <= hi
    ensures lo * i as real <= Prefix(xs, i) <= hi * i as real
    decreases i
  {
    if i > 0 {
      PrefixBetween(xs, i - 1, lo, hi);
      assert xs[i - 1] in xs;
      assert lo * i as real == lo * (i - 1) as real + lo && hi * i as real == hi * (i - 1) as real + hi;
    }
  }

  lemma QuotientBetween(sum: real, n: real, lo: real, hi: real)
    requires n > 0.0 && lo * n <= sum <= hi * n
    ensures lo <= sum / n <= hi
  {
    assert sum / n * n == sum;
  }

  lemma AverageBetween(history: seq<real>, lo: real, hi: real)
    requires history != [] && forall x <- history :: lo <= x <= hi
    ensures lo <= Average(history) <= hi
  {
    PrefixBetween(history, |history|, lo, hi);
    QuotientBetween(Prefix(history, |history|), |history| as real, lo, hi);
  }

  lemma AverageZero(history: seq<real>)
    requires forall x <- history :: x >= 0.0
    ensures Average(history) == 0.0 <==> forall x <- history :: x == 0.0
  {
    if forall x <- history :: x == 0.0 {
      if history != [] {
        AverageBetween(history, 0.0, 0.0);
      }
    } else {
      var k :| 0 <= k < |history| && history[k] > 0.0;
      PrefixMonotone(history, 0, k);
      PrefixMonotone(history, k + 1, |history|);
      Quotient(Prefix(history, |history|), |history| as real);
    }
  }

  /** A latency is never negative; it is zero exactly if nothing but zeros was measured; it is the moving average of the
      requested kind where there is one, and else lies within any bounds of the recorded values. */
  lemma LatencyMeans(d: Extended, stats: map<string, Stats>, streaming: bool, lo: real, hi: real)
    requires AllPlain(stats)
    ensures LatencyOf(d, stats, streaming) >= 0.0
    ensures LatencyOf(d, stats, streaming) == 0.0 <==>
      || d.id !in stats
      || (&& MovingAverage(stats[d.id], streaming) <= 0.0
          && forall x <- UsedHistory(stats[d.id], streaming) :: x == 0.0)
    ensures d.id in stats && MovingAverage(stats[d.id], streaming) > 0.0 ==>
      LatencyOf(d, stats, streaming) == MovingAverage(stats[d.id], streaming)
    ensures d.id in stats && MovingAverage(stats[d.id], streaming) <= 0.0 ==>
      var history := UsedHistory(stats[d.id], streaming);
      history != [] && (forall x <- history :: lo <= x <= hi) ==> lo <= LatencyOf(d, stats, streaming) <= hi
  {
    LatencyNonNegative(d, stats, streaming);
    if d.id in stats {
      var history := UsedHistory(stats[d.id], streaming);
      assert Plain(stats[d.id]);
      AverageZero(history);
      if history != [] && forall x <- history :: lo <= x <= hi {
        AverageBetween(history, lo, hi);
      }
    }
  }

  /** The random numbers one pick draws: for the shuffle, as a fraction and as an index. */
  datatype Draws = Draws(shuffle: nat -> nat, fraction: real, index: nat)

  ghost predicate Drawn(draws: Draws) {
    0.0 <= draws.fraction < 1.0
  }

  /** The candidates up to a threshold, in order. */
  function Near(cs: seq<Candidate>, threshold: real): seq<Candidate> {
    if cs == [] then []
    else Near(cs[..|cs| - 1], threshold) + if cs[|cs| - 1].latency <= threshold then [cs[|cs| - 1]] else []
  }

  lemma {:induction false} NearIn(cs: seq<Candidate>, threshold: real, c: Candidate)
    ensures c in Near(cs, threshold) <==> c in cs && c.latency <= threshold
  {
    if cs != [] {
      NearIn(cs[..|cs| - 1], threshold, c);
      assert cs == cs[..|cs| - 1] + [cs[|cs| - 1]];
    }
  }

  method WithinBuffer(cs: seq<Candidate>, threshold: real) returns (valid: seq<Candidate>)
    ensures valid == Near(cs, threshold)
  {
    valid := [];
    for i := 0 to |cs|
      invariant valid == Near(cs[..i], threshold)
    {
      assert cs[..i + 1][..i] == cs[..i];
      if cs[i].latency <= threshold {
        valid := valid + [cs[i]];
      }
    }
    assert cs[..|cs|] == cs;
  }

  /** Where a drawn fraction lands in the total. */
  function Target(fraction: real, total: real): (target: real)
    ensures 0.0 <= fraction < 1.0 && total > 0.0 ==> 0.0 <= target < total
  {
    assert total > 0.0 && fraction < 1.0 ==> (1.0 - fraction) * total > 0.0;
    fraction * total
  }

  ghost function Shares(valid: seq<Candidate>): seq<real> {
    Weights(valid, Custom(valid))
  }

  /** The length of an interval, times the latency in milliseconds or one if that is not positive, is the square of the
      success rate, times the custom weight if any candidate has one. */
  lemma IntervalLength(valid: seq<Candidate>, i: nat)
    requires i < |valid|
    ensures var c := valid[i];
      Shares(valid)[i] * (if c.latency <= 0.0 then 1.0 else c.latency) ==
        (if exists k :: 0 <= k < |valid| && valid[k].deployment.config.weight > 0.0 then c.deployment.config.weight
         else 1.0) * (c.successRate * c.successRate)
  {
    var c := valid[i];
    var latency := if c.latency <= 0.0 then 1.0 else c.latency;
    var base := if Custom(valid) then c.deployment.config.weight else 1.0;
    Undivided(base * (c.successRate * c.successRate), latency);
  }

  lemma Undivided(x: real, y: real)
    requires y != 0.0
    ensures x / y * y == x
  {
  }

  /** With equal rates and weights the lengths are inversely proportional to the latencies, so the faster one's is at
      least as long. */
  lemma FasterIsLonger(valid: seq<Candidate>, i: nat, j: nat)
    requires i < |valid| && j < |valid| && 0.0 < valid[i].latency <= valid[j].latency
    requires valid[i].successRate == valid[j].successRate
    requires valid[i].deployment.config.weight == valid[j].deployment.config.weight >= 0.0
    ensures Shares(valid)[i] * valid[i].latency == Shares(valid)[j] * valid[j].latency
    ensures Shares(valid)[i] >= Shares(valid)[j]
  {
    SameMerit(valid, i, j);
    LengthNonNegative(valid, i);
    LengthNonNegative(valid, j);
    SmallerFactor(Shares(valid)[i], valid[i].latency, Shares(valid)[j], valid[j].latency);
  }

  lemma SameMerit(valid: seq<Candidate>, i: nat, j: nat)
    requires i < |valid| && j < |valid| && valid[i].latency > 0.0 && valid[j].latency > 0.0
    requires valid[i].successRate == valid[j].successRate
    requires valid[i].deployment.config.weight == valid[j].deployment.config.weight
    ensures Shares(valid)[i] * valid[i].latency == Shares(valid)[j] * valid[j].latency
  {
    IntervalLength(valid, i);
    IntervalLength(valid, j);
  }

  lemma LengthNonNegative(valid: seq<Candidate>, i: nat)
    requires i < |valid| && valid[i].deployment.config.weight >= 0.0
    ensures Shares(valid)[i] >= 0.0
  {
    WeightSign(valid[i], Custom(valid));
  }

  lemma SmallerFactor(x: real, p: real, y: real, q: real)
    requires 0.0 < p <= q && x >= 0.0 && y >= 0.0 && x * p == y * q
    ensures x >= y
  {
    assert y * q <= x * q;
  }

  /** With equal latencies and weights the lengths go as the squares of the success rates. */
  lemma LongerByRate(valid: seq<Candidate>, i: nat, j: nat)
    requires i < |valid| && j < |valid| && valid[i].latency == valid[j].latency
    requires valid[i].deployment.config.weight == valid[j].deployment.config.weight
    ensures var p, q := valid[i].successRate * valid[i].successRate, valid[j].successRate * valid[j].successRate;
      Shares(valid)[i] * q == Shares(valid)[j] * p
  {
    var base := if Custom(valid) then valid[i].deployment.config.weight else 1.0;
    var latency := if valid[i].latency <= 0.0 then 1.0 else valid[i].latency;
    var p, q := valid[i].successRate * valid[i].successRate, valid[j].successRate * valid[j].successRate;
    InProportion(base, p, q, latency);
  }

  lemma InProportion(base: real, p: real, q: real, y: real)
    requires y > 0.0
    ensures base * p / y * q == base * q / y * p
  {
    var u, v := base * p / y, base * q / y;
    Undivided(base * p, y);
    Undivided(base * q, y);
    assert u * q * y == v * p * y;
  }

  /** With equal latencies and rates, and custom weights, the lengths go as these. */
  lemma LongerByWeight(valid: seq<Candidate>, i: nat, j: nat)
    requires i < |valid| && j < |valid| && valid[i].latency == valid[j].latency
    requires valid[i].successRate == valid[j].successRate && Custom(valid)
    ensures Shares(valid)[i] * valid[j].deployment.config.weight == Shares(valid)[j] * valid[i].deployment.config.weight
  {
    var w, v := valid[i].deployment.config.weight, valid[j].deployment.config.weight;
    var latency := if valid[i].latency <= 0.0 then 1.0 else valid[i].latency;
    var rate := valid[i].successRate * valid[i].successRate;
    Turned(w, rate);
    Turned(v, rate);
    InProportion(rate, w, v, latency);
  }

  lemma Turned(x: real, y: real)
    ensures x * y == y * x
  {
  }

  ghost function Total(valid: seq<Candidate>): real {
    Prefix(Shares(valid), |valid|)
  }

  /** `picked` is the candidate whose interval the drawn target falls in. */
  ghost predicate ByWeight(valid: seq<Candidate>, draws: Draws, picked: Candidate)
    requires valid != []
  {
    if Total(valid) > 0.0 then
      exists at: nat | at < |valid| ::
        picked == valid[at] && InInterval(Shares(valid), at, Target(draws.fraction, Total(valid)))
    else picked == valid[draws.index % |valid|]
  }

  method ChooseByWeight(valid: seq<Candidate>, draws: Draws) returns (picked: Candidate)
    requires valid != [] && Drawn(draws)
    ensures ByWeight(valid, draws, picked)
  {
    var custom := HasCustomWeights(valid);
    var ws, total := Weigh(valid, custom);
    if total > 0.0 {
      var at := ByTarget(ws, Target(draws.fraction, total));
      return valid[at];
    }
    return valid[draws.index % |valid|];
  }

  /** With weights that are not negative: the interval of a candidate decides, both ways; a candidate without
      weight is not picked while the total is positive; and the total is positive once any weight is. The target is the
      drawn fraction of the total. */
  lemma WeightDecides(valid: seq<Candidate>, draws: Draws, picked: Candidate, i: nat, target: real)
    requires i < |valid| && forall c <- valid :: c.deployment.config.weight >= 0.0
    requires target == draws.fraction * Total(valid)
    ensures ByWeight(valid, draws, picked) && Total(valid) > 0.0 ==>
      (InInterval(Shares(valid), i, target) ==> picked == valid[i]) && Weight(picked, Custom(valid)) > 0.0
    ensures Weight(valid[i], Custom(valid)) > 0.0 ==> Total(valid) > 0.0
  {
    TargetMeans(draws.fraction, Total(valid), target);
    IntervalDecides(valid, draws, picked, i, target);
  }

  lemma TargetMeans(fraction: real, total: real, target: real)
    requires target == fraction * total
    ensures target == Target(fraction, total)
  {
  }

  lemma IntervalDecides(valid: seq<Candidate>, draws: Draws, picked: Candidate, i: nat, target: real)
    requires i < |valid| && forall c <- valid :: c.deployment.config.weight >= 0.0
    requires target == Target(draws.fraction, Total(valid))
    ensures ByWeight(valid, draws, picked) && Total(valid) > 0.0 ==>
      (InInterval(Shares(valid), i, target) ==> picked == valid[i]) && Weight(picked, Custom(valid)) > 0.0
    ensures Weight(valid[i], Custom(valid)) > 0.0 ==> Total(valid) > 0.0
  {
    SharesNonNegative(valid);
    var ws := Shares(valid);
    PrefixMonotone(ws, 0, i);
    PrefixMonotone(ws, i + 1, |ws|);
    if ByWeight(valid, draws, picked) && Total(valid) > 0.0 {
      var at: nat :| at < |valid| && picked == valid[at] && InInterval(ws, at, target);
      if InInterval(ws, i, target) {
        IntervalsDisjoint(ws, i, at, target);
      }
    }
  }

  lemma SharesNonNegative(valid: seq<Candidate>)
    requires forall c <- valid :: c.deployment.config.weight >= 0.0
    ensures forall w <- Shares(valid) :: w >= 0.0
  {
    var ws := Shares(valid);
    forall w | w in ws
      ensures w >= 0.0
    {
      var k :| 0 <= k < |ws| && ws[k] == w;
      WeightSign(valid[k], Custom(valid));
    }
  }

  ghost function Threshold(lowest: real, buffer: real): real {
    lowest + buffer * lowest
  }

  /** What is picked from candidates in order of latency. */
  ghost predicate Choice(cs: seq<Candidate>, buffer: real, draws: Draws, picked: Candidate) {
    && cs != []
    && if cs[0].latency == 0.0 then picked == cs[draws.index % |cs|]
       else
         var valid := Near(cs, Threshold(cs[0].latency, buffer));
         valid != [] && ByWeight(valid, draws, picked)
  }

  /** The candidates chosen from are exactly those within (1 + buffer) times the lowest latency. */
  lemma NearMeans(cs: seq<Candidate>, buffer: real, c: Candidate)
    requires cs != []
    ensures c in Near(cs, Threshold(cs[0].latency, buffer)) <==>
      c in cs && c.latency <= (1.0 + buffer) * cs[0].latency
  {
    NearIn(cs, Threshold(cs[0].latency, buffer), c);
    ThresholdMeans(cs[0].latency, buffer);
  }

  /** The threshold over a latency is (1 + buffer) times that latency. */
  lemma ThresholdMeans(latency: real, buffer: real)
    ensures Threshold(latency, buffer) == (1.0 + buffer) * latency
  {
  }

  lemma LowestIsNear(cs: seq<Candidate>, buffer: real)
    requires cs != [] && cs[0].latency >= 0.0 && buffer >= 0.0
    ensures cs[0] in Near(cs, Threshold(cs[0].latency, buffer))
  {
    Product(buffer, cs[0].latency);
    NearIn(cs, Threshold(cs[0].latency, buffer), cs[0]);
  }

  lemma BelowLowest(lowest: real, buffer: real)
    requires lowest > 0.0 && buffer < 0.0
    ensures Threshold(lowest, buffer) < lowest
  {
  }

  lemma {:induction false} NoneNear(cs: seq<Candidate>, threshold: real)
    requires forall c <- cs :: c.latency > threshold
    ensures Near(cs, threshold) == []
  {
    if cs != [] {
      NoneNear(cs[..|cs| - 1], threshold);
    }
  }

  /** With a positive lowest latency nothing is near exactly if the buffer is negative. */
  lemma NearEmptyIff(cs: seq<Candidate>, buffer: real)
    requires cs != [] && Ordered(cs) && cs[0].latency > 0.0
    ensures Near(cs, Threshold(cs[0].latency, buffer)) == [] <==> buffer < 0.0
  {
    if buffer >= 0.0 {
      LowestIsNear(cs, buffer);
    } else {
      BelowLowest(cs[0].latency, buffer);
      NoneNear(cs, Threshold(cs[0].latency, buffer));
    }
  }

  /** The choice, or none where the source draws an index from an empty list: with a negative buffer and a positive
      lowest latency. */
  method Choose(cs: seq<Candidate>, buffer: real, draws: Draws) returns (picked: Option<Candidate>)
    requires cs != [] && Ordered(cs) && cs[0].latency >= 0.0 && Drawn(draws)
    ensures picked.None? <==> buffer < 0.0 && cs[0].latency > 0.0
    ensures picked.Some? ==> Choice(cs, buffer, draws, picked.value)
  {
    var lowest := cs[0].latency;
    if lowest == 0.0 {
      return Some(cs[draws.index % |cs|]);
    }
    NearEmptyIff(cs, buffer);
    var valid := WithinBuffer(cs, lowest + buffer * lowest);
    if |valid| == 0 {
      return None;
    }
    var c := ChooseByWeight(valid, draws);
    return Some(c);
  }

  lemma AtMostBuffer(lowest: real, latency: real, buffer: real)
    requires lowest <= latency && buffer >= 0.0
    ensures Threshold(lowest, buffer) <= Threshold(latency, buffer)
  {
    Product(buffer, latency - lowest);
  }

  /** A pick is a candidate, and none is so fast that the pick is over the buffer slower. */
  lemma ChoiceIsNear(cs: seq<Candidate>, buffer: real, draws: Draws, picked: Candidate, c: Candidate)
    requires Ordered(cs) && cs != [] && Choice(cs, buffer, draws, picked)
    requires c in cs && (cs[0].latency > 0.0 ==> buffer >= 0.0)
    ensures picked in cs
    ensures cs[0].latency > 0.0 ==> picked.latency <= Threshold(c.latency, buffer)
  {
    if cs[0].latency != 0.0 {
      var valid := Near(cs, Threshold(cs[0].latency, buffer));
      assert picked in valid;
      NearIn(cs, Threshold(cs[0].latency, buffer), picked);
    }
    if cs[0].latency > 0.0 {
      AtMostBuffer(cs[0].latency, c.latency, buffer);
    }
  }

  function Lineup(pool: seq<Extended>, stats: map<string, Stats>, streaming: bool, draws: Draws): (cs: seq<Candidate>)
  {
    Sorted(Shuffled(Measured(pool, stats, streaming), draws.shuffle, |pool|))
  }

  lemma LineupIsPool(pool: seq<Extended>, stats: map<string, Stats>, streaming: bool, draws: Draws)
    ensures var cs := Lineup(pool, stats, streaming, draws);
      && |cs| == |pool| && Ordered(cs) && multiset(cs) == multiset(Measured(pool, stats, streaming))
  {
    var measured := Measured(pool, stats, streaming);
    ShuffledSame(measured, draws.shuffle, |pool|);
    SortedSame(Shuffled(measured, draws.shuffle, |pool|));
    SortedIsStable(Shuffled(measured, draws.shuffle, |pool|), 0.0);
  }

  lemma InLineup(pool: seq<Extended>, stats: map<string, Stats>, streaming: bool, draws: Draws, c: Candidate)
    ensures c in Lineup(pool, stats, streaming, draws) <==>
      && c.deployment in pool
      && c == Candidate(c.deployment, LatencyOf(c.deployment, stats, streaming), RateOf(c.deployment, stats))
  {
    LineupIsPool(pool, stats, streaming, draws);
    var cs, measured := Lineup(pool, stats, streaming, draws), Measured(pool, stats, streaming);
    assert c in cs <==> c in multiset(cs);
    assert c in measured <==> c in multiset(measured);
    if c.deployment in pool {
      var i :| 0 <= i < |pool| && pool[i] == c.deployment;
      assert measured[i] == Candidate(pool[i], LatencyOf(pool[i], stats, streaming), RateOf(pool[i], stats));
    }
  }

  method Measure(pool: seq<Extended>, stats: map<string, Stats>, streaming: bool) returns (a: array<Candidate>)
    ensures fresh(a) && a[..] == Measured(pool, stats, streaming)
  {
    var cs := [];
    for i := 0 to |pool|
      invariant cs == Measured(pool, stats, streaming)[..i]
    {
      var latency := MeasureOne(pool[i], stats, streaming);
      cs := cs + [Candidate(pool[i], latency, RateOf(pool[i], stats))];
    }
    a := new Candidate[|pool|](i requires 0 <= i < |pool| => cs[i]);
  }

  method MeasureOne(d: Extended, stats: map<string, Stats>, streaming: bool) returns (latency: real)
    ensures latency == LatencyOf(d, stats, streaming)
  {
    if d.id !in stats {
      return 0.0;
    }
    var s := stats[d.id];
    if streaming && s.ewmaAvgTTFTMs > 0.0 {
      return s.ewmaAvgTTFTMs;
    } else if !streaming && s.ewmaLatencyMs > 0.0 {
      return s.ewmaLatencyMs;
    } else if streaming && |s.ttftHistory| > 0 {
      latency := CalculateAverageLatency(s.ttftHistory);
    } else if |s.latencyHistory| > 0 {
      latency := CalculateAverageLatency(s.latencyHistory);
    } else {
      return 0.0;
    }
  }

  /** `d` is the weighted choice among `ds`, and none of `ds` is so fast that `d` is over the buffer slower. */
  ghost predicate ChosenByLatency(buffer: real, ds: seq<Extended>, stats: map<string, Stats>, streaming: bool,
                                  draws: Draws, d: Extended)
  {
    && d in ds
    && Choice(Lineup(ds, stats, streaming, draws), buffer, draws,
              Candidate(d, LatencyOf(d, stats, streaming), RateOf(d, stats)))
    && (AllMeasured(ds, stats, streaming) ==>
          forall e <- ds :: LatencyOf(d, stats, streaming) <= Threshold(LatencyOf(e, stats, streaming), buffer))
  }

  ghost predicate AllMeasured(ds: seq<Extended>, stats: map<string, Stats>, streaming: bool) {
    forall e <- ds :: LatencyOf(e, stats, streaming) > 0.0
  }

  lemma LowestMeasured(pool: seq<Extended>, stats: map<string, Stats>, streaming: bool, draws: Draws)
    requires pool != [] && AllPlain(stats)
    ensures var cs := Lineup(pool, stats, streaming, draws);
      cs != [] && cs[0].latency >= 0.0 && (cs[0].latency > 0.0 <==> AllMeasured(pool, stats, streaming))
  {
    var cs := Lineup(pool, stats, streaming, draws);
    LineupIsPool(pool, stats, streaming, draws);
    InLineup(pool, stats, streaming, draws, cs[0]);
    LatencyNonNegative(cs[0].deployment, stats, streaming);
    forall e | e in pool
      ensures cs[0].latency <= LatencyOf(e, stats, streaming)
    {
      InLineup(pool, stats, streaming, draws, Candidate(e, LatencyOf(e, stats, streaming), RateOf(e, stats)));
    }
  }

  lemma PickedIsChosen(pool: seq<Extended>, stats: map<string, Stats>, streaming: bool, buffer: real, draws: Draws,
                       picked: Candidate)
    requires pool != [] && AllPlain(stats) && Choice(Lineup(pool, stats, streaming, draws), buffer, draws, picked)
    requires AllMeasured(pool, stats, streaming) ==> buffer >= 0.0
    ensures ChosenByLatency(buffer, pool, stats, streaming, draws, picked.deployment)
  {
    var cs := Lineup(pool, stats, streaming, draws);
    LineupIsPool(pool, stats, streaming, draws);
    LowestMeasured(pool, stats, streaming, draws);
    ChoiceIsNear(cs, buffer, draws, picked, cs[0]);
    InLineup(pool, stats, streaming, draws, picked);
    forall e | e in pool && AllMeasured(pool, stats, streaming)
      ensures picked.latency <= Threshold(LatencyOf(e, stats, streaming), buffer)
    {
      var c := Candidate(e, LatencyOf(e, stats, streaming), RateOf(e, stats));
      InLineup(pool, stats, streaming, draws, c);
      ChoiceIsNear(cs, buffer, draws, picked, c);
    }
  }

  /** The pick of the latency router from the deployments its filters leave; it panics exactly with a negative buffer
      while every one of them has a positive latency. */
  method PickByLatency(pool: seq<Extended>, stats: map<string, Stats>, streaming: bool, buffer: real, draws: Draws)
    returns (r: Result<Extended>)
    requires pool != [] && AllPlain(stats) && Drawn(draws)
    ensures r.Err? <==> buffer < 0.0 && AllMeasured(pool, stats, streaming)
    ensures r.Err? ==> r.error == RandomPanic
    ensures r.Ok? ==> ChosenByLatency(buffer, pool, stats, streaming, draws, r.value)
  {
    var a := Measure(pool, stats, streaming);
    Shuffle(a, draws.shuffle);
    SortStable(a);
    LineupIsPool(pool, stats, streaming, draws);
    LowestMeasured(pool, stats, streaming, draws);
    var picked := Choose(a[..], buffer, draws);
    if picked.None? {
      return Err(RandomPanic);
    }
    PickedIsChosen(pool, stats, streaming, buffer, draws, picked.value);
    return Ok(picked.value.deployment);
  }

  // ---------------------------------------------------------------- TPM/RPM router

  const DEFAULT_ESTIMATE := 100

  datatype Usage = Usage(deployment: Extended, tpm: nat, rpm: nat)

  function UsageOf(d: Extended, stats: map<string, Stats>): Usage {
    if d.id in stats then Usage(d, stats[d.id].currentMinuteTPM, stats[d.id].currentMinuteRPM) else Usage(d, 0, 0)
  }

  /** One more request of this size keeps the deployment below its limits. */
  predicate Fits(u: Usage, inputTokens: int) {
    var tokens := if inputTokens == 0 then DEFAULT_ESTIMATE else inputTokens;
    && !(u.deployment.config.tpmLimit > 0 && u.tpm + tokens > u.deployment.config.tpmLimit)
    && !(u.deployment.config.rpmLimit > 0 && u.rpm + 1 >= u.deployment.config.rpmLimit)
  }

  ghost predicate Eligible(d: Extended, pool: seq<Extended>, stats: map<string, Stats>, inputTokens: int) {
    d in pool && Fits(UsageOf(d, stats), inputTokens)
  }

  /** Some deployment of the default provider is eligible. */
  ghost predicate ProviderServes(pool: seq<Extended>, stats: map<string, Stats>, inputTokens: int, provider: string) {
    provider != "" && exists d :: Eligible(d, pool, stats, inputTokens) && d.providerName == provider
  }

  ghost predicate Preferred(d: Extended, pool: seq<Extended>, stats: map<string, Stats>,
                            inputTokens: int, provider: string)
  {
    && Eligible(d, pool, stats, inputTokens)
    && (ProviderServes(pool, stats, inputTokens, provider) ==> d.providerName == provider)
  }

  method CurrentUsage(pool: seq<Extended>, stats: map<string, Stats>) returns (a: array<Usage>)
    ensures fresh(a) && a.Length == |pool| && forall i :: 0 <= i < |pool| ==> a[i] == UsageOf(pool[i], stats)
  {
    a := new Usage[|pool|](i requires 0 <= i < |pool| => UsageOf(pool[i], stats));
  }

  /** The deployments below their limits, whatever the order in which they are looked at. */
  method FindEligible(pool: seq<Extended>, stats: map<string, Stats>, inputTokens: int, draws: Draws)
    returns (eligible: seq<Usage>, deployments: seq<Extended>)
    ensures |deployments| == |eligible| && forall i :: 0 <= i < |eligible| ==>
      eligible[i] == UsageOf(deployments[i], stats)
    ensures forall d :: d in deployments <==> Eligible(d, pool, stats, inputTokens)
  {
    var a := CurrentUsage(pool, stats);
    ghost var was := a[..];
    Shuffle(a, draws.shuffle);
    eligible, deployments := [], [];
    ShuffledSame(was, draws.shuffle, |pool|);
    for i := 0 to a.Length
      invariant |deployments| == |eligible| && forall k :: 0 <= k < |eligible| ==>
        deployments[k] == eligible[k].deployment
      invariant forall u :: u in eligible <==> u in a[..i] && Fits(u, inputTokens)
    {
      assert a[..i + 1] == a[..i] + [a[i]];
      if Fits(a[i], inputTokens) {
        eligible, deployments := eligible + [a[i]], deployments + [a[i].deployment];
      }
    }
    assert a[..a.Length] == a[..];
    AllLookedAt(pool, stats, inputTokens, draws, was, eligible, deployments);
  }

  lemma {:induction false} AllLookedAt(pool: seq<Extended>, stats: map<string, Stats>, inputTokens: int, draws: Draws,
                    usage: seq<Usage>, eligible: seq<Usage>, deployments: seq<Extended>)
    requires |usage| == |pool| && forall i :: 0 <= i < |pool| ==> usage[i] == UsageOf(pool[i], stats)
    requires forall u :: u in eligible <==> u in Shuffled(usage, draws.shuffle, |pool|) && Fits(u, inputTokens)
    requires |deployments| == |eligible| && forall k :: 0 <= k < |eligible| ==> deployments[k] == eligible[k].deployment
    ensures forall i :: 0 <= i < |eligible| ==> eligible[i] == UsageOf(deployments[i], stats)
    ensures forall d :: d in deployments <==> Eligible(d, pool, stats, inputTokens)
  {
    forall i | 0 <= i < |eligible|
      ensures eligible[i] == UsageOf(deployments[i], stats) && Eligible(deployments[i], pool, stats, inputTokens)
    {
      assert eligible[i] in eligible;
      ShuffledIn(usage, draws.shuffle, |pool|, eligible[i]);
    }
    forall d | Eligible(d, pool, stats, inputTokens)
      ensures d in deployments
    {
      var i :| 0 <= i < |pool| && pool[i] == d;
      assert usage[i] == UsageOf(d, stats);
      ShuffledIn(usage, draws.shuffle, |pool|, usage[i]);
      var k :| 0 <= k < |eligible| && eligible[k] == UsageOf(d, stats);
      assert deployments[k] == d;
    }
  }

  /** The eligible deployment of the default provider, or of any if that has none, with the least used tokens. */
  method LowestUsage(pool: seq<Extended>, stats: map<string, Stats>, inputTokens: int, provider: string, draws: Draws)
    returns (r: Result<Extended>)
    ensures r.Err? ==> r.error == NoAvailableDeployment
    ensures r.Err? <==> forall d <- pool :: !Eligible(d, pool, stats, inputTokens)
    ensures r.Ok? ==> Eligible(r.value, pool, stats, inputTokens)
    ensures r.Ok? ==>
      var c, u, tokens := r.value.config, UsageOf(r.value, stats), if inputTokens == 0 then 100 else inputTokens;
      (c.tpmLimit > 0 ==> u.tpm + tokens <= c.tpmLimit) && (c.rpmLimit > 0 ==> u.rpm + 1 < c.rpmLimit)
    ensures r.Err? ==> forall d <- pool ::
      var c, u, tokens := d.config, UsageOf(d, stats), if inputTokens == 0 then 100 else inputTokens;
      0 < c.tpmLimit < u.tpm + tokens || 0 < c.rpmLimit <= u.rpm + 1
    ensures r.Ok? ==> exists p :: Preferred(p, pool, stats, inputTokens, provider) && p.id == r.value.id
    ensures r.Ok? ==> forall p :: Preferred(p, pool, stats, inputTokens, provider) ==>
      UsageOf(r.value, stats).tpm <= UsageOf(p, stats).tpm
  {
    var eligible, deployments := FindEligible(pool, stats, inputTokens, draws);
    if |eligible| == 0 {
      return Err(NoAvailableDeployment);
    }
    assert Eligible(deployments[0], pool, stats, inputTokens);
    var preferred := PreferredAmong(deployments, pool, stats, inputTokens, provider);
    var best := LeastTokens(eligible, deployments, preferred, stats);
    return Ok(best);
  }

  method PreferredAmong(deployments: seq<Extended>, ghost pool: seq<Extended>, ghost stats: map<string, Stats>,
                        ghost inputTokens: int, provider: string)
    returns (preferred: seq<Extended>)
    requires deployments != [] && forall d :: d in deployments <==> Eligible(d, pool, stats, inputTokens)
    ensures preferred != [] && |preferred| <= |deployments|
    ensures |preferred| == |deployments| ==> preferred == deployments
    ensures forall d :: d in preferred <==> Preferred(d, pool, stats, inputTokens, provider)
  {
    preferred := FilterByDefaultProvider(deployments, provider);
    KeepShorter(deployments, From(provider));
    KeepNone(deployments, From(provider));
    forall d
      ensures d in Keep(deployments, From(provider)) <==> d in deployments && d.providerName == provider
    {
      KeepIn(deployments, From(provider), d);
    }
  }

  lemma {:induction false} KeepShorter(ds: seq<Extended>, c: Criterion)
    ensures |Keep(ds, c)| <= |ds|
    ensures |Keep(ds, c)| == |ds| ==> Keep(ds, c) == ds
  {
    if ds != [] {
      KeepShorter(ds[..|ds| - 1], c);
    }
  }

  /** The least used of the eligible deployments that share an ID with a preferred one. */
  method LeastTokens(eligible: seq<Usage>, deployments: seq<Extended>, preferred: seq<Extended>,
                     ghost stats: map<string, Stats>)
    returns (best: Extended)
    requires |deployments| == |eligible| && forall i :: 0 <= i < |eligible| ==>
      eligible[i] == UsageOf(deployments[i], stats)
    requires preferred != [] && (forall p <- preferred :: p in deployments)
    requires |preferred| <= |deployments| && (|preferred| == |deployments| ==> preferred == deployments)
    ensures best in deployments && exists p :: p in preferred && p.id == best.id
    ensures forall p <- preferred :: UsageOf(best, stats).tpm <= UsageOf(p, stats).tpm
  {
    var allowed := set p | p in preferred :: p.id;
    var lowest: int := -1;
    best := preferred[0];
    for i := 0 to |eligible|
      invariant lowest < 0 ==> lowest == -1 && forall k :: 0 <= k < i ==> deployments[k].id !in allowed
      invariant lowest >= 0 ==> best in deployments && best.id in allowed && lowest == UsageOf(best, stats).tpm
      invariant lowest >= 0 ==>
        forall k :: 0 <= k < i && deployments[k].id in allowed ==> lowest <= UsageOf(deployments[k], stats).tpm
    {
      if |preferred| == |deployments| || eligible[i].deployment.id in allowed {
        if lowest < 0 || eligible[i].tpm < lowest {
          lowest, best := eligible[i].tpm, eligible[i].deployment;
        }
      }
    }
    ghost var k :| 0 <= k < |deployments| && deployments[k] == preferred[0];
    assert deployments[k].id in allowed;
  }

  // ---------------------------------------------------------------- the routers over their lifetime

  datatype Config = Config(
    rules: FW.Rules, enableTagFiltering: bool, defaultProvider: string,
    latencyBuffer: real, ewmaAlpha: real, maxLatencyListSize: int)

  const MIN_DURATION := -0x8000_0000_0000_0000   // a duration fits 64 bits

  const NEW_ENTRY := Stats(0, 0, 0, FW.ZERO_TIME, 0.0, FW.ZERO_TIME, 0.0, 0.0, 1.0, [], [], 0, 0, 0)

  function EntryOf(stats: map<string, Stats>, id: string): Stats {
    if id in stats then stats[id] else NEW_ENTRY
  }

  function AppendToHistory(history: seq<real>, value: real, maxSize: int): (r: seq<real>)
    ensures (forall x <- history :: x >= 0.0) && value >= 0.0 ==> forall x <- r :: x >= 0.0
  {
    var limit := if maxSize <= 0 then 10 else maxSize;
    assert |history| >= limit ==> forall x <- history[1..] :: x in history;
    if |history| < limit then history + [value] else history[1..] + [value]
  }

  /** The latest values, as many as fit, in order. */
  ghost function Latest(values: seq<real>, maxSize: int): seq<real> {
    var limit := if maxSize <= 0 then 10 else maxSize;
    if |values| > limit then values[|values| - limit..] else values
  }

  /** A history holds the latest values. */
  lemma HistoryIsTail(values: seq<real>, value: real, maxSize: int)
    ensures AppendToHistory(Latest(values, maxSize), value, maxSize) == Latest(values + [value], maxSize)
  {
  }

  /** The smoothing factor in use. */
  function Factor(alpha: real): real {
    if alpha <= 0.0 then 0.1 else alpha
  }

  function Smooth(alpha: real, sample: real, average: real): real {
    Factor(alpha) * sample + (1.0 - Factor(alpha)) * average
  }

  function WithLatency(s: Stats, config: Config, latencyMs: real): (r: Stats)
    ensures Untouched(s, r) && (Plain(s) && latencyMs >= 0.0 ==> Plain(r))
  {
    s.(latencyHistory := AppendToHistory(s.latencyHistory, latencyMs, config.maxLatencyListSize),
       avgLatencyMs := if s.avgLatencyMs == 0.0 then latencyMs else s.avgLatencyMs * 0.9 + latencyMs * 0.1,
       ewmaLatencyMs :=
         if s.ewmaLatencyMs == 0.0 then latencyMs else Smooth(config.ewmaAlpha, latencyMs, s.ewmaLatencyMs),
       ewmaSuccessRate := Smooth(config.ewmaAlpha, 1.0, s.ewmaSuccessRate))
  }

  function WithTTFT(s: Stats, config: Config, ttftMs: real): (r: Stats)
    ensures Untouched(s, r) && (Plain(s) && ttftMs >= 0.0 ==> Plain(r))
  {
    s.(ttftHistory := AppendToHistory(s.ttftHistory, ttftMs, config.maxLatencyListSize),
       ewmaAvgTTFTMs :=
         if s.ewmaAvgTTFTMs == 0.0 then ttftMs else Smooth(config.ewmaAlpha, ttftMs, s.ewmaAvgTTFTMs))
  }

  function WithUsage(s: Stats, tokens: nat, minute: int): (r: Stats)
    ensures Untouched(s, r) && (Plain(s) ==> Plain(r))
  {
    var t := if s.currentMinuteKey != minute then 0 else s.currentMinuteTPM;
    var n := if s.currentMinuteKey != minute then 0 else s.currentMinuteRPM;
    s.(currentMinuteKey := minute, currentMinuteTPM := t + tokens, currentMinuteRPM := n + 1)
  }

  /** Same cooldown and same counts. */
  ghost predicate Untouched(s: Stats, r: Stats) {
    && r.cooldownUntil == s.cooldownUntil && r.totalRequests == s.totalRequests
    && r.successCount == s.successCount && r.failureCount == s.failureCount
  }

  function AfterSuccess(s: Stats, config: Config, now: int, latencyMs: real, ttftMs: Option<real>, tokens: nat,
                        minute: int)
    : (r: Stats)
    ensures Untouched(s.(totalRequests := s.totalRequests + 1, successCount := s.successCount + 1), r)
    ensures Plain(s) && latencyMs >= 0.0 && (ttftMs.Some? ==> ttftMs.value >= 0.0) ==> Plain(r)
  {
    var counted := s.(totalRequests := s.totalRequests + 1, successCount := s.successCount + 1, lastRequestTime := now);
    var timed := WithLatency(counted, config, latencyMs);
    WithUsage(if ttftMs.Some? then WithTTFT(timed, config, ttftMs.value) else timed, tokens, minute)
  }

  /** The entry after a failure; an immediate cooldown leaves the averages alone. */
  function AfterFailure(s: Stats, config: Config, err: FW.Err, single: bool, started: bool, now: int): (r: Stats)
    requires FW.ImmediateError(config.rules, single, err) ==> started
    ensures r.cooldownUntil == if started then now + config.rules.cooldownPeriod else s.cooldownUntil
    ensures r.totalRequests == s.totalRequests + 1 && r.failureCount == s.failureCount + 1
    ensures r.successCount == s.successCount && (Plain(s) ==> Plain(r))
  {
    var counted := s.(totalRequests := s.totalRequests + 1, failureCount := s.failureCount + 1, lastRequestTime := now);
    var cooled := if started then counted.(cooldownUntil := now + config.rules.cooldownPeriod) else counted;
    if FW.ImmediateError(config.rules, single, err) then cooled
    else
      var slow := FW.AsStatus(err) == Some(408) || FW.AsStatus(err) == Some(504);
      var marked := if !slow then cooled
        else cooled.(latencyHistory := AppendToHistory(cooled.latencyHistory, 1000000.0, config.maxLatencyListSize));
      marked.(ewmaSuccessRate := Smooth(config.ewmaAlpha, 0.0, marked.ewmaSuccessRate))
  }

  /** A moving average stays between what it was and the new sample. */
  lemma SmoothBetween(alpha: real, sample: real, average: real, lo: real, hi: real)
    requires alpha <= 1.0 && lo <= sample <= hi && lo <= average <= hi
    ensures lo <= Smooth(alpha, sample, average) <= hi
  {
    var a := Factor(alpha);
    Product(a, sample - lo);
    Product(1.0 - a, average - lo);
    Product(a, hi - sample);
    Product(1.0 - a, hi - average);
  }

  /** Success rates are rates. */
  ghost predicate Rated(stats: map<string, Stats>) {
    forall id <- stats :: 0.0 <= stats[id].ewmaSuccessRate <= 1.0
  }

  /** Filters by health, by tag and, for a request with an estimate, by limits. */
  function Admitted(ds: seq<Extended>, stats: map<string, Stats>, now: int, tags: seq<string>, inputTokens: int)
    : Result<seq<Extended>>
  {
    var pool := Pool(ds, stats, now, tags);
    if pool.Err? || inputTokens <= 0 then pool
    else if Keep(pool.value, Within(stats, inputTokens)) == [] then Err(NoAvailableDeployment)
    else Ok(Keep(pool.value, Within(stats, inputTokens)))
  }

  lemma AdmittedSuits(ds: seq<Extended>, stats: map<string, Stats>, now: int, tags: seq<string>,
                      inputTokens: int, d: Extended)
    ensures var admitted := Admitted(ds, stats, now, tags, inputTokens);
      var suits := Suits(d, ds, stats, now, tags) && (inputTokens > 0 && d.id in stats ==>
        && (d.config.tpmLimit > 0 ==> stats[d.id].currentMinuteTPM + inputTokens <= d.config.tpmLimit)
        && (d.config.rpmLimit > 0 ==> stats[d.id].currentMinuteRPM < d.config.rpmLimit));
      (admitted.Ok? ==> (d in admitted.value <==> suits)) && (admitted.Err? ==> !suits)
  {
    PoolSuits(ds, stats, now, tags, d);
    var pool := Pool(ds, stats, now, tags);
    if pool.Ok? {
      KeepIn(pool.value, Within(stats, inputTokens), d);
    }
  }

  ghost predicate CooledTo(stats: map<string, Stats>, id: string, until: int) {
    id in stats && stats[id].cooldownUntil >= until
  }

  ghost predicate NeverBack(was: map<string, Stats>, stats: map<string, Stats>) {
    forall id <- was :: CooledTo(stats, id, was[id].cooldownUntil)
  }

  /** No cooldown ends later than one that starts at `clock`. */
  ghost predicate Bounded(stats: map<string, Stats>, clock: int, period: int) {
    forall id <- stats :: stats[id].cooldownUntil <= clock + period
  }

  // ---------------------------------------------------------------- what each router answers

  function Tags(config: Config, request: Request): seq<string> {
    if config.enableTagFiltering then request.tags else []
  }

  /** The deployments of the default provider, or all if it has none here. */
  ghost function Favoured(config: Config, ds: seq<Extended>): seq<Extended> {
    var preferred := Keep(ds, From(config.defaultProvider));
    if config.defaultProvider == "" || preferred == [] then ds else preferred
  }

  ghost predicate LatencyAnswer(config: Config, ds: seq<Extended>, stats: map<string, Stats>, request: Request,
                                now: int, draws: Draws, r: Result<Extended>)
  {
    var admitted := Admitted(ds, stats, now, Tags(config, request), request.inputTokens);
    match r
    case Err(RandomPanic) =>
      && admitted.Ok? && config.latencyBuffer < 0.0
      && AllMeasured(Favoured(config, admitted.value), stats, request.streaming)
    case Err(e) => admitted == Err(e)
    case Ok(d) =>
      && admitted.Ok? && d in admitted.value
      && ChosenByLatency(config.latencyBuffer, Favoured(config, admitted.value), stats, request.streaming, draws, d)
  }

  /** The answer in turn `turn` of the round-robin router. */
  ghost predicate TurnAnswer(config: Config, ds: seq<Extended>, stats: map<string, Stats>, request: Request, now: int,
                             turn: nat, r: Result<Extended>)
  {
    var admitted := Admitted(ds, stats, now, Tags(config, request), request.inputTokens);
    match r
    case Err(e) => admitted == Err(e)
    case Ok(d) =>
      && admitted.Ok? && admitted.value != []
      && d == admitted.value[turn % RR.WORD % |admitted.value|]
  }

  ghost predicate UsageAnswer(config: Config, ds: seq<Extended>, stats: map<string, Stats>, request: Request, now: int,
                              r: Result<Extended>)
  {
    var pool, tokens := Pool(ds, stats, now, Tags(config, request)), request.inputTokens;
    match r
    case Err(e) =>
      || pool == Err(e)
      || (pool.Ok? && e == NoAvailableDeployment && forall d <- pool.value :: !Eligible(d, pool.value, stats, tokens))
    case Ok(d) => pool.Ok? && LeastUsed(config, pool.value, stats, tokens, d)
  }

  /** `d` is eligible, shares its ID with a preferred deployment and has the fewest tokens of all preferred ones. */
  ghost predicate LeastUsed(config: Config, pool: seq<Extended>, stats: map<string, Stats>, inputTokens: int,
                            d: Extended)
  {
    && Eligible(d, pool, stats, inputTokens)
    && (exists p :: Preferred(p, pool, stats, inputTokens, config.defaultProvider) && p.id == d.id)
    && (forall p :: Preferred(p, pool, stats, inputTokens, config.defaultProvider) ==>
          UsageOf(d, stats).tpm <= UsageOf(p, stats).tpm)
  }

  // ---------------------------------------------------------------- a run and its cooldowns

  datatype Kind = ByLatency | RoundRobin | ByUsage

  datatype Op =
    | Success(id: string, now: nat, latencyMs: real, ttftMs: Option<real>, tokens: nat, minute: int)
    | Failure(id: string, now: nat, err: FW.Err, single: bool)
    | Pick(kind: Kind, request: Request, now: nat, draws: Draws)

  ghost predicate Sane(op: Op) {
    match op
    case Success(_, _, latency, ttft, _, _) => latency >= 0.0 && (ttft.Some? ==> ttft.value >= 0.0)
    case Failure(_, _, _, _) => true
    case Pick(_, _, _, draws) => Drawn(draws)
  }

  ghost predicate InOrder(ops: seq<Op>) {
    forall i, j :: 0 <= i < j < |ops| ==> ops[i].now <= ops[j].now
  }

  /** What was reported about a deployment. */
  ghost function LogFor(ops: seq<Op>, id: string): seq<FW.Report> {
    if ops == [] then []
    else
      var last := ops[|ops| - 1];
      LogFor(ops[..|ops| - 1], id)
      + if last.Pick? || last.id != id then [] else [FW.Report(last.now / FW.SECOND, last.Success?)]
  }

  /** Operation `i` is a failure that starts a cooldown: by its status, or by the failure rate in the reports about its
      deployment up to then. */
  ghost predicate StartsAt(rules: FW.Rules, ops: seq<Op>, i: nat) {
    && i < |ops| && ops[i].Failure?
    && FW.StartsOn(rules, ops[i].err, ops[i].single, LogFor(ops[..i + 1], ops[i].id), ops[i].now)
  }

  ghost predicate CoolsAt(rules: FW.Rules, ops: seq<Op>, i: nat, id: string, now: int) {
    StartsAt(rules, ops, i) && ops[i].id == id && now <= ops[i].now + rules.cooldownPeriod
  }

  /** Some failure among `ops` started a cooldown of `id` that is not over. */
  ghost predicate Cooling(rules: FW.Rules, ops: seq<Op>, id: string, now: int) {
    exists i: nat :: CoolsAt(rules, ops, i, id, now)
  }

  /** When the latest cooldown of `id` ends. */
  ghost function Until(rules: FW.Rules, ops: seq<Op>, id: string): int {
    if ops == [] then FW.ZERO_TIME
    else
      var last := |ops| - 1;
      if StartsAt(rules, ops, last) && ops[last].id == id then ops[last].now + rules.cooldownPeriod
      else Until(rules, ops[..last], id)
  }

  lemma StartsEarlier(rules: FW.Rules, ops: seq<Op>, n: nat, i: nat)
    requires i < n <= |ops|
    ensures StartsAt(rules, ops[..n], i) == StartsAt(rules, ops, i)
  {
    assert ops[..n][..i + 1] == ops[..i + 1];
  }

  /** The latest cooldown decides: it is over exactly when all are. */
  lemma {:induction false} UntilIff(rules: FW.Rules, ops: seq<Op>, id: string, now: nat)
    requires InOrder(ops) && forall op <- ops :: op.now <= now
    ensures now <= Until(rules, ops, id) <==> Cooling(rules, ops, id, now)
  {
    if ops != [] {
      var last := |ops| - 1;
      var front := ops[..last];
      UntilIff(rules, front, id, now);
      forall i: nat | i < last
        ensures CoolsAt(rules, front, i, id, now) == CoolsAt(rules, ops, i, id, now)
      {
        StartsEarlier(rules, ops, last, i);
      }
      if Cooling(rules, front, id, now) {
        var i: nat :| CoolsAt(rules, front, i, id, now);
        assert CoolsAt(rules, ops, i, id, now);
      }
      if StartsAt(rules, ops, last) && ops[last].id == id {
        assert now <= Until(rules, ops, id) <==> CoolsAt(rules, ops, last, id, now);
      }
    }
  }

  ghost predicate Answers(config: Config, ds: seq<Extended>, stats: map<string, Stats>, op: Op, turn: nat,
                          r: Result<Extended>)
    requires op.Pick?
  {
    match op.kind
    case ByLatency => LatencyAnswer(config, ds, stats, op.request, op.now, op.draws, r)
    case RoundRobin => TurnAnswer(config, ds, stats, op.request, op.now, turn, r)
    case ByUsage => UsageAnswer(config, ds, stats, op.request, op.now, r)
  }

  /** Whichever router picks, it picks a deployment of the list that is not cooling down. */
  lemma AnswerIsHealthy(config: Config, ds: seq<Extended>, stats: map<string, Stats>, op: Op, turn: nat, d: Extended)
    requires op.Pick? && Answers(config, ds, stats, op, turn, Ok(d))
    ensures d in ds && Meets(d, Healthy(stats, op.now))
  {
    var tags := Tags(config, op.request);
    AdmittedSuits(ds, stats, op.now, tags, op.request.inputTokens, d);
    PoolSuits(ds, stats, op.now, tags, d);
  }

  /** A round-robin pick that found a deployment. */
  ghost predicate TakesTurn(op: Op, pick: Option<Result<Extended>>) {
    op.Pick? && op.kind == RoundRobin && pick.Some? && pick.value.Ok?
  }

  /** How many of the first `n` operations took a turn. */
  ghost function Turns(ops: seq<Op>, picks: seq<Option<Result<Extended>>>, n: nat): nat
    requires n <= |ops| && n <= |picks|
  {
    if n == 0 then 0 else Turns(ops, picks, n - 1) + if TakesTurn(ops[n - 1], picks[n - 1]) then 1 else 0
  }

  lemma {:induction false} TurnsSoFar(ops: seq<Op>, picks: seq<Option<Result<Extended>>>,
                                      pick: Option<Result<Extended>>, n: nat)
    requires n <= |ops| && n <= |picks|
    ensures Turns(ops, picks + [pick], n) == Turns(ops, picks, n)
  {
    if n > 0 {
      TurnsSoFar(ops, picks, pick, n - 1);
    }
  }

  lemma NextPrefix(ops: seq<Op>, n: nat)
    requires n < |ops|
    ensures ops[..n + 1] == ops[..n] + [ops[n]]
  {
  }

  lemma OneMoreTurn(ops: seq<Op>, picks: seq<Option<Result<Extended>>>, pick: Option<Result<Extended>>)
    requires |picks| < |ops|
    ensures Turns(ops, picks + [pick], |picks| + 1) ==
      Turns(ops, picks, |picks|) + if TakesTurn(ops[|picks|], pick) then 1 else 0
  {
    TurnsSoFar(ops, picks, pick, |picks|);
  }

  /** Before operation `j` the statistics were `stats`: in them a deployment is cooling down exactly if a failure
      before `j` says so; and a pick was answered from them, a round-robin pick in its turn. */
  ghost predicate LivedAt(config: Config, ds: seq<Extended>, ops: seq<Op>, j: nat, stats: map<string, Stats>, turn: nat,
                          pick: Option<Result<Extended>>)
    requires j < |ops|
  {
    && (forall id :: Unwell(stats, id, ops[j].now) <==> Cooling(config.rules, ops[..j], id, ops[j].now))
    && MeasuredIn(config, ops[..j], stats)
    && (pick.Some? <==> ops[j].Pick?)
    && (pick.Some? ==> Answers(config, ds, stats, ops[j], turn, pick.value))
  }

  ghost predicate Unwell(stats: map<string, Stats>, id: string, t: int) {
    id in stats && t <= stats[id].cooldownUntil
  }

  /** So it was at each of the first `n` operations, and from one to the next no cooldown moved back. */
  ghost predicate LivedTo(config: Config, ds: seq<Extended>, ops: seq<Op>, n: nat, views: seq<map<string, Stats>>,
                          picks: seq<Option<Result<Extended>>>)
  {
    && n <= |ops| && |picks| == n && |views| == n + 1
    && (forall j: nat | j < n :: LivedAt(config, ds, ops, j, views[j], Turns(ops, picks, j), picks[j]))
    && (forall j: nat | j < n :: NeverBack(views[j], views[j + 1]))
  }

  lemma LivedOne(config: Config, ds: seq<Extended>, ops: seq<Op>, n: nat, views: seq<map<string, Stats>>,
                 picks: seq<Option<Result<Extended>>>, pick: Option<Result<Extended>>, after: map<string, Stats>)
    requires LivedTo(config, ds, ops, n, views, picks) && n < |ops|
    requires LivedAt(config, ds, ops, n, views[n], Turns(ops, picks, n), pick) && NeverBack(views[n], after)
    ensures LivedTo(config, ds, ops, n + 1, views + [after], picks + [pick])
  {
    forall j: nat | j < n + 1
      ensures LivedAt(config, ds, ops, j, (views + [after])[j], Turns(ops, picks + [pick], j), (picks + [pick])[j])
    {
      TurnsSoFar(ops, picks, pick, j);
    }
  }

  ghost predicate Lived(config: Config, ds: seq<Extended>, ops: seq<Op>, views: seq<map<string, Stats>>,
                        picks: seq<Option<Result<Extended>>>)
  {
    LivedTo(config, ds, ops, |ops|, views, picks)
  }

  /** A deployment whose failure started a cooldown is not picked until the period has passed. */
  lemma CooledNotPicked(config: Config, ds: seq<Extended>, ops: seq<Op>, views: seq<map<string, Stats>>,
                        picks: seq<Option<Result<Extended>>>, i: nat, j: nat)
    requires Lived(config, ds, ops, views, picks) && i < j < |ops|
    requires StartsAt(config.rules, ops, i) && picks[j].Some? && picks[j].value.Ok?
    requires picks[j].value.value.id == ops[i].id
    ensures ops[j].now > ops[i].now + config.rules.cooldownPeriod
  {
    var d := picks[j].value.value;
    assert LivedAt(config, ds, ops, j, views[j], Turns(ops, picks, j), picks[j]);
    AnswerIsHealthy(config, ds, views[j], ops[j], Turns(ops, picks, j), d);
    StartsEarlier(config.rules, ops, j, i);
    assert !Unwell(views[j], d.id, ops[j].now);
    assert !CoolsAt(config.rules, ops[..j], i, d.id, ops[j].now);
  }

  /** Without tags or a token estimate, the latency and the round-robin router find no deployment only if every one of
      them is cooling down from a failure that started a cooldown. */
  lemma RefusedOnlyIfAllCool(config: Config, ds: seq<Extended>, ops: seq<Op>, views: seq<map<string, Stats>>,
                             picks: seq<Option<Result<Extended>>>, j: nat, d: Extended)
    requires Lived(config, ds, ops, views, picks) && j < |ops| && ops[j].Pick? && ops[j].kind != ByUsage
    requires Tags(config, ops[j].request) == [] && ops[j].request.inputTokens <= 0
    requires picks[j].Some? && picks[j].value.Err? && picks[j].value.error != RandomPanic && d in ds
    ensures Cooling(config.rules, ops[..j], d.id, ops[j].now)
  {
    assert LivedAt(config, ds, ops, j, views[j], Turns(ops, picks, j), picks[j]);
    AdmittedSuits(ds, views[j], ops[j].now, [], ops[j].request.inputTokens, d);
    assert Unwell(views[j], d.id, ops[j].now);
  }

  /** Operation `op` after `past` adds to the reports and may start a cooldown. */
  lemma OneMoreOp(rules: FW.Rules, past: seq<Op>, op: Op, id: string)
    ensures LogFor(past + [op], id) ==
      LogFor(past, id) + if op.Pick? || op.id != id then [] else [FW.Report(op.now / FW.SECOND, op.Success?)]
    ensures StartsAt(rules, past + [op], |past|) <==>
      op.Failure? && FW.StartsOn(rules, op.err, op.single, LogFor(past + [op], op.id), op.now)
    ensures Until(rules, past + [op], id) ==
      if StartsAt(rules, past + [op], |past|) && op.id == id then op.now + rules.cooldownPeriod
      else Until(rules, past, id)
  {
    assert (past + [op])[..|past|] == past && (past + [op])[..|past| + 1] == past + [op];
  }

  /** How many of the reports are of one kind. */
  ghost function Outcomes(log: seq<FW.Report>, success: bool): nat {
    if log == [] then 0 else Outcomes(log[..|log| - 1], success) + if log[|log| - 1].success == success then 1 else 0
  }

  /** Book and entry of a deployment are what the operations so far make them: its reports, its cooldown, its counts. */
  ghost predicate RecordedAs(rules: FW.Rules, past: seq<Op>, id: string, book: FW.Book, entry: Stats) {
    && book == FW.Book(LogFor(past, id), Until(rules, past, id))
    && entry.cooldownUntil == book.until && entry.totalRequests == |book.log|
    && entry.successCount == Outcomes(book.log, true) && entry.failureCount == Outcomes(book.log, false)
  }

  ghost predicate ReflectedIn(rules: FW.Rules, past: seq<Op>, books: map<string, FW.Book>, stats: map<string, Stats>) {
    forall id :: RecordedAs(rules, past, id, FW.BookOf(books, id), EntryOf(stats, id))
  }

  /** The book after a report. */
  ghost function AfterReport(rules: FW.Rules, book: FW.Book, op: Op): FW.Book
    requires !op.Pick?
  {
    var log := book.log + [FW.Report(op.now / FW.SECOND, op.Success?)];
    var starts := op.Failure? && FW.StartsOn(rules, op.err, op.single, log, op.now);
    FW.Book(log, if starts then op.now + rules.cooldownPeriod else book.until)
  }

  lemma OneMoreReport(rules: FW.Rules, past: seq<Op>, op: Op, book: FW.Book, before: Stats, after: Stats)
    requires !op.Pick? && RecordedAs(rules, past, op.id, book, before)
    requires after.cooldownUntil == AfterReport(rules, book, op).until
    requires after.totalRequests == before.totalRequests + 1
    requires after.successCount == before.successCount + if op.Success? then 1 else 0
    requires after.failureCount == before.failureCount + if op.Failure? then 1 else 0
    ensures RecordedAs(rules, past + [op], op.id, AfterReport(rules, book, op), after)
  {
    OneMoreOp(rules, past, op, op.id);
    var report := FW.Report(op.now / FW.SECOND, op.Success?);
    assert (book.log + [report])[..|book.log|] == book.log;
  }

  lemma ReportReflected(rules: FW.Rules, past: seq<Op>, op: Op, books: map<string, FW.Book>, stats: map<string, Stats>,
                        book: FW.Book, entry: Stats)
    requires ReflectedIn(rules, past, books, stats) && !op.Pick?
    requires RecordedAs(rules, past + [op], op.id, book, entry)
    ensures ReflectedIn(rules, past + [op], books[op.id := book], stats[op.id := entry])
  {
    var books', stats' := books[op.id := book], stats[op.id := entry];
    forall id
      ensures RecordedAs(rules, past + [op], id, FW.BookOf(books', id), EntryOf(stats', id))
    {
      if id != op.id {
        assert RecordedAs(rules, past, id, FW.BookOf(books, id), EntryOf(stats, id));
        OneMoreOp(rules, past, op, id);
      }
    }
  }

  lemma PickReflected(rules: FW.Rules, past: seq<Op>, op: Op, books: map<string, FW.Book>, stats: map<string, Stats>)
    requires ReflectedIn(rules, past, books, stats) && op.Pick?
    ensures ReflectedIn(rules, past + [op], books, stats)
  {
    forall id
      ensures RecordedAs(rules, past + [op], id, FW.BookOf(books, id), EntryOf(stats, id))
    {
      assert RecordedAs(rules, past, id, FW.BookOf(books, id), EntryOf(stats, id));
      OneMoreOp(rules, past, op, id);
    }
  }

  // ---------------------------------------------------------------- what the statistics say of the reports

  /** The reports about a deployment. */
  ghost function ReportsFor(ops: seq<Op>, id: string): seq<Op> {
    if ops == [] then []
    else
      var before, last := ReportsFor(ops[..|ops| - 1], id), ops[|ops| - 1];
      if last.Pick? || last.id != id then before else before + [last]
  }

  lemma OneMoreFor(past: seq<Op>, op: Op, id: string)
    ensures ReportsFor(past + [op], id) ==
      if op.Pick? || op.id != id then ReportsFor(past, id) else ReportsFor(past, id) + [op]
  {
    assert (past + [op])[..|past|] == past;
  }

  /** What a success adds to the usage. */
  datatype Use = Use(minute: int, tokens: nat)

  /** The successes among the reports. */
  ghost function Served(rs: seq<Op>): seq<Use> {
    if rs == [] then []
    else
      var before, last := Served(rs[..|rs| - 1]), rs[|rs| - 1];
      if last.Success? then before + [Use(last.minute, last.tokens)] else before
  }

  datatype Statistic = Latency | FirstToken | Timing | Rating(rules: FW.Rules)

  /** What a report adds to a statistic: the latency of a success, its time to the first token, what goes into the
      latency history, where a gateway timeout counts as 1000 seconds, and one for a success and zero for a failure that
      is no immediate reason to cool down. */
  ghost function Sample(of: Statistic, op: Op): seq<real> {
    match of
    case Latency => if op.Success? then [op.latencyMs] else []
    case FirstToken => if op.Success? && op.ttftMs.Some? then [op.ttftMs.value] else []
    case Timing =>
      if op.Success? then [op.latencyMs]
      else if op.Failure? && FW.AsStatus(op.err) == Some(504) then [1000000.0]
      else []
    case Rating(rules) =>
      if op.Success? then [1.0]
      else if op.Failure? && !FW.ImmediateError(rules, op.single, op.err) then [0.0]
      else []
  }

  ghost function Samples(rs: seq<Op>, of: Statistic): seq<real> {
    if rs == [] then [] else Samples(rs[..|rs| - 1], of) + Sample(of, rs[|rs| - 1])
  }

  /** The tokens of the successes from `m` on, before `n`. */
  ghost function Tokens(served: seq<Use>, m: nat, n: nat): nat
    requires m <= n <= |served|
  {
    if m == n then 0 else Tokens(served, m, n - 1) + served[n - 1].tokens
  }

  lemma {:induction false} TokensSame(served: seq<Use>, use: Use, m: nat, n: nat)
    requires m <= n <= |served|
    ensures Tokens(served + [use], m, n) == Tokens(served, m, n)
  {
    if m < n {
      TokensSame(served, use, m, n - 1);
    }
  }

  /** The usage is that of the latest successes that share a minute: their number and their tokens. */
  ghost predicate UsedAs(served: seq<Use>, key: int, tpm: nat, rpm: nat) {
    var from := |served| - rpm;
    && from >= 0 && (served == [] || rpm > 0) && tpm == Tokens(served, from, |served|)
    && (forall i :: from <= i < |served| ==> served[i].minute == key)
    && (from > 0 ==> served[from - 1].minute != key)
  }

  lemma UsedMore(served: seq<Use>, use: Use, tpm: nat, rpm: nat)
    requires UsedAs(served, use.minute, tpm, rpm)
    ensures UsedAs(served + [use], use.minute, tpm + use.tokens, rpm + 1)
  {
    TokensSame(served, use, |served| - rpm, |served|);
  }

  lemma UsedAnew(served: seq<Use>, use: Use, key: int, tpm: nat, rpm: nat)
    requires UsedAs(served, key, tpm, rpm) && key != use.minute
    ensures UsedAs(served + [use], use.minute, use.tokens, 1)
  {
    TokensSame(served, use, |served|, |served|);
  }

  ghost predicate Timed(config: Config, rs: seq<Op>, entry: Stats) {
    && entry.latencyHistory == Latest(Samples(rs, Timing), config.maxLatencyListSize)
    && entry.ttftHistory == Latest(Samples(rs, FirstToken), config.maxLatencyListSize)
  }

  ghost predicate Smoothed(config: Config, rs: seq<Op>, entry: Stats) {
    var a, latencies, firsts := Factor(config.ewmaAlpha), Samples(rs, Latency), Samples(rs, FirstToken);
    && NoneNegative(latencies) && NoneNegative(firsts)
    && entry.avgLatencyMs == Averaged(0.1, latencies)
    && (a <= 1.0 ==> entry.ewmaLatencyMs == Averaged(a, latencies) && entry.ewmaAvgTTFTMs == Averaged(a, firsts))
  }

  ghost predicate RatedAs(config: Config, rs: seq<Op>, entry: Stats) {
    entry.ewmaSuccessRate == Blend(Factor(config.ewmaAlpha), 1.0, Samples(rs, Rating(config.rules)))
  }

  ghost predicate Loaded(rs: seq<Op>, entry: Stats) {
    UsedAs(Served(rs), entry.currentMinuteKey, entry.currentMinuteTPM, entry.currentMinuteRPM)
  }

  /** Histories, averages, rate and usage are what the reports make them: the latest latencies and first-token times;
      averages and rate as weighted sums with the smoothing factor on the newest sample; the usage of the last
      minute. */
  ghost predicate MeasuredAs(config: Config, rs: seq<Op>, entry: Stats) {
    && Timed(config, rs, entry) && Smoothed(config, rs, entry) && RatedAs(config, rs, entry) && Loaded(rs, entry)
    && entry.lastRequestTime == if rs == [] then FW.ZERO_TIME else rs[|rs| - 1].now
  }

  lemma SamplesSnoc(rs: seq<Op>, op: Op, of: Statistic)
    ensures Samples(rs + [op], of) == Samples(rs, of) + Sample(of, op)
    ensures Sample(of, op) == [] ==> Samples(rs + [op], of) == Samples(rs, of)
  {
    assert (rs + [op])[..|rs|] == rs;
  }

  lemma TimedOne(rs: seq<Op>, op: Op, of: Statistic, history: seq<real>, x: real, maxSize: int)
    requires history == Latest(Samples(rs, of), maxSize) && Sample(of, op) == [x]
    ensures AppendToHistory(history, x, maxSize) == Latest(Samples(rs + [op], of), maxSize)
  {
    SamplesSnoc(rs, op, of);
    HistoryIsTail(Samples(rs, of), x, maxSize);
  }

  lemma SmoothedOne(a: real, rs: seq<Op>, op: Op, of: Statistic, average: real, x: real)
    requires 0.0 < a <= 1.0 && x >= 0.0 && Sample(of, op) == [x]
    requires NoneNegative(Samples(rs, of)) && average == Averaged(a, Samples(rs, of))
    ensures Averaged(a, Samples(rs + [op], of)) == Moved(a, x, average)
  {
    SamplesSnoc(rs, op, of);
    AveragedSnoc(a, Samples(rs, of), x);
  }

  lemma NonNegativeOne(rs: seq<Op>, op: Op, of: Statistic, x: real)
    requires x >= 0.0 && Sample(of, op) == [x] && NoneNegative(Samples(rs, of))
    ensures NoneNegative(Samples(rs + [op], of))
  {
    SamplesSnoc(rs, op, of);
  }

  lemma RatedOne(config: Config, rs: seq<Op>, op: Op, before: Stats, x: real, after: Stats)
    requires RatedAs(config, rs, before) && Sample(Rating(config.rules), op) == [x]
    requires after.ewmaSuccessRate == Smooth(config.ewmaAlpha, x, before.ewmaSuccessRate)
    ensures RatedAs(config, rs + [op], after)
  {
    SamplesSnoc(rs, op, Rating(config.rules));
    RateSnoc(config.ewmaAlpha, Samples(rs, Rating(config.rules)), x);
  }

  lemma RateSnoc(alpha: real, ratings: seq<real>, x: real)
    ensures Blend(Factor(alpha), 1.0, ratings + [x]) == Smooth(alpha, x, Blend(Factor(alpha), 1.0, ratings))
  {
    BlendSnoc(Factor(alpha), 1.0, ratings, x);
  }

  /** What a success does to each statistic. */
  lemma SuccessFields(s: Stats, config: Config, op: Op, r: Stats)
    requires op.Success?
    requires r == AfterSuccess(s, config, op.now, op.latencyMs, op.ttftMs, op.tokens, op.minute)
    ensures r.latencyHistory == AppendToHistory(s.latencyHistory, op.latencyMs, config.maxLatencyListSize)
    ensures r.ttftHistory ==
      if op.ttftMs.Some? then AppendToHistory(s.ttftHistory, op.ttftMs.value, config.maxLatencyListSize)
      else s.ttftHistory
    ensures r.avgLatencyMs == Moved(0.1, op.latencyMs, s.avgLatencyMs)
    ensures r.ewmaLatencyMs == Moved(Factor(config.ewmaAlpha), op.latencyMs, s.ewmaLatencyMs)
    ensures r.ewmaAvgTTFTMs ==
      if op.ttftMs.Some? then Moved(Factor(config.ewmaAlpha), op.ttftMs.value, s.ewmaAvgTTFTMs) else s.ewmaAvgTTFTMs
    ensures r.ewmaSuccessRate == Smooth(config.ewmaAlpha, 1.0, s.ewmaSuccessRate)
    ensures UsesMore(op, s, r) && r.lastRequestTime == op.now
  {
  }

  lemma TimedSuccess(config: Config, rs: seq<Op>, op: Op, before: Stats, after: Stats)
    requires op.Success? && Timed(config, rs, before)
    requires after == AfterSuccess(before, config, op.now, op.latencyMs, op.ttftMs, op.tokens, op.minute)
    ensures Timed(config, rs + [op], after)
  {
    SuccessFields(before, config, op, after);
    TimedOne(rs, op, Timing, before.latencyHistory, op.latencyMs, config.maxLatencyListSize);
    if op.ttftMs.Some? {
      TimedOne(rs, op, FirstToken, before.ttftHistory, op.ttftMs.value, config.maxLatencyListSize);
    } else {
      SamplesSnoc(rs, op, FirstToken);
    }
  }

  lemma SmoothedSuccess(config: Config, rs: seq<Op>, op: Op, before: Stats, after: Stats)
    requires op.Success? && Sane(op) && Smoothed(config, rs, before)
    requires after == AfterSuccess(before, config, op.now, op.latencyMs, op.ttftMs, op.tokens, op.minute)
    ensures Smoothed(config, rs + [op], after)
  {
    var a := Factor(config.ewmaAlpha);
    SuccessFields(before, config, op, after);
    NonNegativeOne(rs, op, Latency, op.latencyMs);
    SmoothedOne(0.1, rs, op, Latency, before.avgLatencyMs, op.latencyMs);
    if op.ttftMs.Some? {
      NonNegativeOne(rs, op, FirstToken, op.ttftMs.value);
    } else {
      SamplesSnoc(rs, op, FirstToken);
    }
    if a <= 1.0 {
      SmoothedOne(a, rs, op, Latency, before.ewmaLatencyMs, op.latencyMs);
      if op.ttftMs.Some? {
        SmoothedOne(a, rs, op, FirstToken, before.ewmaAvgTTFTMs, op.ttftMs.value);
      }
    }
  }

  lemma ServedSnoc(rs: seq<Op>, op: Op)
    ensures Served(rs + [op]) == if op.Success? then Served(rs) + [Use(op.minute, op.tokens)] else Served(rs)
  {
    assert (rs + [op])[..|rs|] == rs;
  }

  /** The usage after a success in its minute. */
  ghost predicate UsesMore(op: Op, before: Stats, after: Stats)
    requires op.Success?
  {
    && after.currentMinuteKey == op.minute
    && if before.currentMinuteKey == op.minute
       then
         && after.currentMinuteTPM == before.currentMinuteTPM + op.tokens
         && after.currentMinuteRPM == before.currentMinuteRPM + 1
       else after.currentMinuteTPM == op.tokens && after.currentMinuteRPM == 1
  }

  lemma LoadedOne(rs: seq<Op>, op: Op, before: Stats, after: Stats)
    requires op.Success? && Loaded(rs, before) && UsesMore(op, before, after)
    ensures Loaded(rs + [op], after)
  {
    var use := Use(op.minute, op.tokens);
    ServedSnoc(rs, op);
    if before.currentMinuteKey == op.minute {
      UsedMore(Served(rs), use, before.currentMinuteTPM, before.currentMinuteRPM);
    } else {
      UsedAnew(Served(rs), use, before.currentMinuteKey, before.currentMinuteTPM, before.currentMinuteRPM);
    }
  }

  lemma RatedSuccess(config: Config, rs: seq<Op>, op: Op, before: Stats, after: Stats)
    requires op.Success? && RatedAs(config, rs, before)
    requires after == AfterSuccess(before, config, op.now, op.latencyMs, op.ttftMs, op.tokens, op.minute)
    ensures RatedAs(config, rs + [op], after)
  {
    SuccessFields(before, config, op, after);
    RatedOne(config, rs, op, before, 1.0, after);
  }

  lemma MeasuredSuccess(config: Config, rs: seq<Op>, op: Op, before: Stats, after: Stats)
    requires op.Success? && Sane(op) && MeasuredAs(config, rs, before)
    requires after == AfterSuccess(before, config, op.now, op.latencyMs, op.ttftMs, op.tokens, op.minute)
    ensures MeasuredAs(config, rs + [op], after)
  {
    TimedSuccess(config, rs, op, before, after);
    SmoothedSuccess(config, rs, op, before, after);
    RatedSuccess(config, rs, op, before, after);
    SuccessFields(before, config, op, after);
    LoadedOne(rs, op, before, after);
  }

  /** What a failure does to each statistic. */
  lemma FailureFields(s: Stats, config: Config, op: Op, started: bool, r: Stats)
    requires op.Failure? && (FW.ImmediateError(config.rules, op.single, op.err) ==> started)
    requires r == AfterFailure(s, config, op.err, op.single, started, op.now)
    ensures r.latencyHistory ==
      if FW.AsStatus(op.err) == Some(504) then AppendToHistory(s.latencyHistory, 1000000.0, config.maxLatencyListSize)
      else s.latencyHistory
    ensures r.ewmaSuccessRate ==
      if FW.ImmediateError(config.rules, op.single, op.err) then s.ewmaSuccessRate
      else Smooth(config.ewmaAlpha, 0.0, s.ewmaSuccessRate)
    ensures r.ttftHistory == s.ttftHistory && r.avgLatencyMs == s.avgLatencyMs
    ensures r.ewmaLatencyMs == s.ewmaLatencyMs && r.ewmaAvgTTFTMs == s.ewmaAvgTTFTMs
    ensures r.currentMinuteKey == s.currentMinuteKey && r.currentMinuteTPM == s.currentMinuteTPM
    ensures r.currentMinuteRPM == s.currentMinuteRPM && r.lastRequestTime == op.now
  {
  }

  lemma TimedFailure(config: Config, rs: seq<Op>, op: Op, started: bool, before: Stats, after: Stats)
    requires op.Failure? && (FW.ImmediateError(config.rules, op.single, op.err) ==> started)
    requires after == AfterFailure(before, config, op.err, op.single, started, op.now) && Timed(config, rs, before)
    ensures Timed(config, rs + [op], after)
  {
    FailureFields(before, config, op, started, after);
    SamplesSnoc(rs, op, FirstToken);
    if FW.AsStatus(op.err) == Some(504) {
      TimedOne(rs, op, Timing, before.latencyHistory, 1000000.0, config.maxLatencyListSize);
    } else {
      SamplesSnoc(rs, op, Timing);
    }
  }

  lemma RatedFailure(config: Config, rs: seq<Op>, op: Op, started: bool, before: Stats, after: Stats)
    requires op.Failure? && (FW.ImmediateError(config.rules, op.single, op.err) ==> started)
    requires after == AfterFailure(before, config, op.err, op.single, started, op.now) && RatedAs(config, rs, before)
    ensures RatedAs(config, rs + [op], after)
  {
    FailureFields(before, config, op, started, after);
    if FW.ImmediateError(config.rules, op.single, op.err) {
      SamplesSnoc(rs, op, Rating(config.rules));
    } else {
      RatedOne(config, rs, op, before, 0.0, after);
    }
  }

  lemma MeasuredFailure(config: Config, rs: seq<Op>, op: Op, started: bool, before: Stats, after: Stats)
    requires op.Failure? && MeasuredAs(config, rs, before)
    requires FW.ImmediateError(config.rules, op.single, op.err) ==> started
    requires after == AfterFailure(before, config, op.err, op.single, started, op.now)
    ensures MeasuredAs(config, rs + [op], after)
  {
    TimedFailure(config, rs, op, started, before, after);
    RatedFailure(config, rs, op, started, before, after);
    FailureFields(before, config, op, started, after);
    SamplesSnoc(rs, op, Latency);
    SamplesSnoc(rs, op, FirstToken);
    ServedSnoc(rs, op);
  }

  /** The statistics of every deployment are what the reports about it make them. */
  ghost predicate MeasuredIn(config: Config, past: seq<Op>, stats: map<string, Stats>) {
    forall id :: MeasuredAs(config, ReportsFor(past, id), EntryOf(stats, id))
  }

  lemma MeasuredOne(config: Config, past: seq<Op>, op: Op, stats: map<string, Stats>, entry: Stats)
    requires MeasuredIn(config, past, stats) && !op.Pick?
    requires MeasuredAs(config, ReportsFor(past, op.id) + [op], entry)
    ensures MeasuredIn(config, past + [op], stats[op.id := entry])
  {
    var stats' := stats[op.id := entry];
    forall id
      ensures MeasuredAs(config, ReportsFor(past + [op], id), EntryOf(stats', id))
    {
      OneMoreFor(past, op, id);
      if id != op.id {
        assert EntryOf(stats', id) == EntryOf(stats, id);
        assert MeasuredAs(config, ReportsFor(past, id), EntryOf(stats, id));
      }
    }
  }

  lemma MeasuredPick(config: Config, past: seq<Op>, op: Op, stats: map<string, Stats>)
    requires MeasuredIn(config, past, stats) && op.Pick?
    ensures MeasuredIn(config, past + [op], stats)
  {
    forall id
      ensures MeasuredAs(config, ReportsFor(past + [op], id), EntryOf(stats, id))
    {
      OneMoreFor(past, op, id);
      assert MeasuredAs(config, ReportsFor(past, id), EntryOf(stats, id));
    }
  }

  lemma NothingMeasured(config: Config, stats: map<string, Stats>)
    requires forall id <- stats :: stats[id] == NEW_ENTRY
    ensures MeasuredIn(config, [], stats)
  {
    BlendNone(Factor(config.ewmaAlpha), 1.0);
    forall id
      ensures MeasuredAs(config, ReportsFor([], id), EntryOf(stats, id))
    {
    }
  }

  lemma LivesAt(config: Config, ds: seq<Extended>, ops: seq<Op>, j: nat, books: map<string, FW.Book>,
                stats: map<string, Stats>, turn: nat, pick: Option<Result<Extended>>)
    requires j < |ops| && InOrder(ops) && ReflectedIn(config.rules, ops[..j], books, stats)
    requires MeasuredIn(config, ops[..j], stats)
    requires (pick.Some? <==> ops[j].Pick?) && (pick.Some? ==> Answers(config, ds, stats, ops[j], turn, pick.value))
    ensures LivedAt(config, ds, ops, j, stats, turn, pick)
  {
    forall id
      ensures Unwell(stats, id, ops[j].now) <==> Cooling(config.rules, ops[..j], id, ops[j].now)
    {
      assert RecordedAs(config.rules, ops[..j], id, FW.BookOf(books, id), EntryOf(stats, id));
      UntilIff(config.rules, ops[..j], id, ops[j].now);
    }
  }

  lemma StepLived(config: Config, ds: seq<Extended>, ops: seq<Op>, n: nat, views: seq<map<string, Stats>>,
                  picks: seq<Option<Result<Extended>>>, pick: Option<Result<Extended>>, after: map<string, Stats>,
                  books: map<string, FW.Book>)
    requires LivedTo(config, ds, ops, n, views, picks) && n < |ops| && InOrder(ops)
    requires ReflectedIn(config.rules, ops[..n], books, views[n]) && MeasuredIn(config, ops[..n], views[n])
    requires NeverBack(views[n], after)
    requires pick.Some? <==> ops[n].Pick?
    requires pick.Some? ==> Answers(config, ds, views[n], ops[n], Turns(ops, picks, n), pick.value)
    ensures LivedTo(config, ds, ops, n + 1, views + [after], picks + [pick])
  {
    LivesAt(config, ds, ops, n, books, views[n], Turns(ops, picks, n), pick);
    LivedOne(config, ds, ops, n, views, picks, pick, after);
  }

  /** The cooldown in an entry is the one its window goes by. */
  ghost predicate Agree(books: map<string, FW.Book>, stats: map<string, Stats>) {
    forall id :: FW.BookOf(books, id).until == EntryOf(stats, id).cooldownUntil
  }

  lemma AgreeAfter(books: map<string, FW.Book>, stats: map<string, Stats>, id: string, book: FW.Book, entry: Stats)
    requires Agree(books, stats) && book.until == entry.cooldownUntil
    ensures Agree(books[id := book], stats[id := entry])
  {
    var books', stats' := books[id := book], stats[id := entry];
    forall i
      ensures FW.BookOf(books', i).until == EntryOf(stats', i).cooldownUntil
    {
      if i != id {
        assert FW.BookOf(books, i).until == EntryOf(stats, i).cooldownUntil;
      }
    }
  }

  class Router {
    const config: Config
    const model: string
    const deployments: seq<Extended>
    const windows: FW.LocalWindows
    var stats: map<string, Stats>
    var counters: RR.State
    ghost var clock: nat

    ghost predicate Valid()
      reads this, windows, windows.owner.Keys
    {
      && config.rules.cooldownPeriod >= MIN_DURATION
      && windows.rules == config.rules && windows.Valid() && windows.latest <= clock / FW.SECOND
      && this !in windows.owner && Metrics() && Agree(windows.books, stats)
    }

    ghost predicate Metrics()
      reads this
    {
      && AllPlain(stats) && Bounded(stats, clock, config.rules.cooldownPeriod) && RR.Inv(counters)
      && (config.ewmaAlpha <= 1.0 ==> Rated(stats))
    }

    /** Windows, cooldowns and counts are what the operations so far make them. */
    ghost predicate Reflects(past: seq<Op>)
      reads this`stats, windows`books
    {
      ReflectedIn(config.rules, past, windows.books, stats) && MeasuredIn(config, past, stats)
    }

    constructor (config: Config, model: string, deployments: seq<Extended>)
      requires config.rules.cooldownPeriod >= MIN_DURATION
      ensures Valid() && Reflects([]) && clock == 0 && fresh(windows) && fresh(windows.owner.Keys)
      ensures this.config == config && this.model == model && this.deployments == deployments
      ensures forall id :: id in stats <==> exists d :: d in deployments && d.id == id
      ensures forall id <- stats :: stats[id] == NEW_ENTRY
      ensures counters == RR.INITIAL
    {
      this.config, this.model, this.deployments, counters, clock := config, model, deployments, RR.INITIAL, 0;
      var entries := map d | d in deployments :: d.id := NEW_ENTRY;
      stats := entries;
      windows := new FW.LocalWindows(config.rules);
      NothingMeasured(config, entries);
    }

    method ReportSuccess(id: string, now: nat, latencyMs: real, ttftMs: Option<real>, tokens: nat, minute: int)
      requires Valid() && clock <= now && latencyMs >= 0.0 && (ttftMs.Some? ==> ttftMs.value >= 0.0)
      modifies this`stats, this`clock, windows, windows.owner.Keys
      ensures Valid() && clock == now && fresh(windows.owner.Keys - old(windows.owner.Keys))
      ensures stats ==
        old(stats)[id := AfterSuccess(EntryOf(old(stats), id), config, now, latencyMs, ttftMs, tokens, minute)]
      ensures var book := FW.BookOf(old(windows.books), id);
        windows.books == old(windows.books)[id := book.(log := book.log + [FW.Report(now / FW.SECOND, true)])]
      ensures NeverBack(old(stats), stats)
    {
      ghost var books := windows.books;
      windows.RecordSuccess(id, now);
      SuccessKeepsMetrics(id, now, latencyMs, ttftMs, tokens, minute);
      var entry := AfterSuccess(EntryOf(stats, id), config, now, latencyMs, ttftMs, tokens, minute);
      AgreeAfter(books, stats, id, windows.books[id], entry);
      stats, clock := stats[id := entry], now;
    }

    lemma SuccessKeepsMetrics(id: string, now: nat, latencyMs: real, ttftMs: Option<real>, tokens: nat, minute: int)
      requires Metrics() && clock <= now && latencyMs >= 0.0 && (ttftMs.Some? ==> ttftMs.value >= 0.0)
      requires config.rules.cooldownPeriod >= MIN_DURATION
      ensures var later :=
          stats[id := AfterSuccess(EntryOf(stats, id), config, now, latencyMs, ttftMs, tokens, minute)];
        && AllPlain(later) && Bounded(later, now, config.rules.cooldownPeriod)
        && (config.ewmaAlpha <= 1.0 ==> Rated(later)) && NeverBack(stats, later)
    {
      if config.ewmaAlpha <= 1.0 {
        SmoothBetween(config.ewmaAlpha, 1.0, EntryOf(stats, id).ewmaSuccessRate, 0.0, 1.0);
      }
    }

    method ReportFailure(id: string, now: nat, err: FW.Err, single: bool) returns (started: bool)
      requires Valid() && clock <= now
      modifies this`stats, this`clock, windows, windows.owner.Keys
      ensures Valid() && clock == now && fresh(windows.owner.Keys - old(windows.owner.Keys))
      ensures var book := FW.BookOf(old(windows.books), id);
        && windows.books == old(windows.books)[id := FW.AfterFailing(config.rules, book, now, started)]
        && (started <==>
              FW.StartsOn(config.rules, err, single, book.log + [FW.Report(now / FW.SECOND, false)], now))
      ensures stats == old(stats)[id := AfterFailure(EntryOf(old(stats), id), config, err, single, started, now)]
      ensures NeverBack(old(stats), stats)
    {
      ghost var books := windows.books;
      started := windows.RecordFailure(id, now, err, single);
      FailureKeepsMetrics(id, now, err, single, started);
      var entry := AfterFailure(EntryOf(stats, id), config, err, single, started, now);
      AgreeAfter(books, stats, id, windows.books[id], entry);
      stats, clock := stats[id := entry], now;
    }

    lemma FailureKeepsMetrics(id: string, now: nat, err: FW.Err, single: bool, started: bool)
      requires Metrics() && clock <= now && config.rules.cooldownPeriod >= MIN_DURATION
      requires FW.ImmediateError(config.rules, single, err) ==> started
      ensures var later := stats[id := AfterFailure(EntryOf(stats, id), config, err, single, started, now)];
        && AllPlain(later) && Bounded(later, now, config.rules.cooldownPeriod)
        && (config.ewmaAlpha <= 1.0 ==> Rated(later)) && NeverBack(stats, later)
    {
      if config.ewmaAlpha <= 1.0 {
        SmoothBetween(config.ewmaAlpha, 0.0, EntryOf(stats, id).ewmaSuccessRate, 0.0, 1.0);
      }
    }

    method Admit(request: Request, now: int) returns (r: Result<seq<Extended>>)
      ensures r == Admitted(deployments, stats, now, Tags(config, request), request.inputTokens)
      ensures r.Ok? ==> r.value != []
    {
      r := FindPool(deployments, stats, now, Tags(config, request));
      if r.Ok? && request.inputTokens > 0 {
        var within := Filter(r.value, Within(stats, request.inputTokens));
        r := if |within| == 0 then Err(NoAvailableDeployment) else Ok(within);
      }
    }

    /** The latency router: the weighted choice near the fastest of what suits the request, from the default provider
        if that serves. */
    method PickLatency(request: Request, now: int, draws: Draws) returns (r: Result<Extended>)
      requires AllPlain(stats) && Drawn(draws)
      ensures LatencyAnswer(config, deployments, stats, request, now, draws, r)
    {
      var admitted := Admit(request, now);
      if admitted.Err? {
        return Err(admitted.error);
      }
      var favoured := FilterByDefaultProvider(admitted.value, config.defaultProvider);
      r := PickByLatency(favoured, stats, request.streaming, config.latencyBuffer, draws);
    }

    /** The round-robin router: the ticket modulo the number of deployments that suit the request. */
    method PickRoundRobin(request: Request, now: int) returns (r: Result<Extended>)
      requires RR.Inv(counters)
      modifies this`counters
      ensures RR.Inv(counters)
      ensures TurnAnswer(config, deployments, stats, request, now, RR.Taken(old(counters.picks), model), r)
      ensures r.Err? ==> counters == old(counters)
      ensures r.Ok? ==>
        var n := |Admitted(deployments, stats, now, Tags(config, request), request.inputTokens).value|;
        var index := RR.Taken(old(counters.picks), model) % RR.WORD % n;
        counters.picks == old(counters.picks) + [RR.Pick(model, n, index)]
      ensures RR.Taken(counters.picks, model) == RR.Taken(old(counters.picks), model) + if r.Ok? then 1 else 0
    {
      var admitted := Admit(request, now);
      if admitted.Err? {
        return Err(admitted.error);
      }
      ghost var before := counters.picks;
      RR.NextIndexTakes(counters, model, |admitted.value|);
      counters := RR.NextIndex(counters, model, |admitted.value|);
      RR.TakenSnoc(before, counters.picks[|counters.picks| - 1], model);
      return Ok(admitted.value[counters.picks[|counters.picks| - 1].index]);
    }

    /** The TPM/RPM router. */
    method PickUsage(request: Request, now: int, draws: Draws) returns (r: Result<Extended>)
      ensures UsageAnswer(config, deployments, stats, request, now, r)
    {
      var pool := FindPool(deployments, stats, now, Tags(config, request));
      if pool.Err? {
        return Err(pool.error);
      }
      r := LowestUsage(pool.value, stats, request.inputTokens, config.defaultProvider, draws);
    }

    method Choose(op: Op) returns (r: Result<Extended>)
      requires Valid() && op.Pick? && Sane(op)
      modifies this`counters
      ensures Valid() && Answers(config, deployments, stats, op, RR.Taken(old(counters.picks), model), r)
      ensures RR.Taken(counters.picks, model) ==
        RR.Taken(old(counters.picks), model) + if TakesTurn(op, Some(r)) then 1 else 0
    {
      match op.kind {
        case ByLatency => r := PickLatency(op.request, op.now, op.draws);
        case RoundRobin => r := PickRoundRobin(op.request, op.now);
        case ByUsage => r := PickUsage(op.request, op.now, op.draws);
      }
    }

    method Step(op: Op, ghost past: seq<Op>) returns (pick: Option<Result<Extended>>)
      requires Valid() && Reflects(past) && Sane(op) && clock <= op.now
      modifies this, windows, windows.owner.Keys
      ensures Valid() && Reflects(past + [op]) && clock <= op.now
      ensures fresh(windows.owner.Keys - old(windows.owner.Keys)) && NeverBack(old(stats), stats)
      ensures pick.Some? <==> op.Pick?
      ensures pick.Some? ==>
        Answers(config, deployments, old(stats), op, RR.Taken(old(counters.picks), model), pick.value)
      ensures RR.Taken(counters.picks, model) ==
        RR.Taken(old(counters.picks), model) + if TakesTurn(op, pick) then 1 else 0
    {
      match op {
        case Success(_, _, _, _, _, _) =>
          TakeSuccess(op, past);
          return None;
        case Failure(_, _, _, _) =>
          TakeFailure(op, past);
          return None;
        case Pick(_, _, _, _) =>
          var r := Choose(op);
          PickReflected(config.rules, past, op, windows.books, stats);
          MeasuredPick(config, past, op, stats);
          return Some(r);
      }
    }

    method TakeSuccess(op: Op, ghost past: seq<Op>)
      requires Valid() && Reflects(past) && op.Success? && Sane(op) && clock <= op.now
      modifies this`stats, this`clock, windows, windows.owner.Keys
      ensures Valid() && Reflects(past + [op]) && clock == op.now
      ensures fresh(windows.owner.Keys - old(windows.owner.Keys)) && NeverBack(old(stats), stats)
    {
      ghost var books, before := windows.books, stats;
      ReportSuccess(op.id, op.now, op.latencyMs, op.ttftMs, op.tokens, op.minute);
      OneMoreReport(config.rules, past, op, FW.BookOf(books, op.id), EntryOf(before, op.id), stats[op.id]);
      ReportReflected(config.rules, past, op, books, before, windows.books[op.id], stats[op.id]);
      MeasuredSuccess(config, ReportsFor(past, op.id), op, EntryOf(before, op.id), stats[op.id]);
      MeasuredOne(config, past, op, before, stats[op.id]);
    }

    method TakeFailure(op: Op, ghost past: seq<Op>)
      requires Valid() && Reflects(past) && op.Failure? && clock <= op.now
      modifies this`stats, this`clock, windows, windows.owner.Keys
      ensures Valid() && Reflects(past + [op]) && clock == op.now
      ensures fresh(windows.owner.Keys - old(windows.owner.Keys)) && NeverBack(old(stats), stats)
    {
      ghost var books, before := windows.books, stats;
      var started := ReportFailure(op.id, op.now, op.err, op.single);
      OneMoreReport(config.rules, past, op, FW.BookOf(books, op.id), EntryOf(before, op.id), stats[op.id]);
      ReportReflected(config.rules, past, op, books, before, windows.books[op.id], stats[op.id]);
      MeasuredFailure(config, ReportsFor(past, op.id), op, started, EntryOf(before, op.id), stats[op.id]);
      MeasuredOne(config, past, op, before, stats[op.id]);
    }

    /** A router's whole life, from a new one on: at every moment exactly the deployments with a failure that started a
        cooldown, by its status or by the failure rate, are cooling down until the period is over, and every pick is
        made from the others, a round-robin pick in its turn. */
    method Run(ops: seq<Op>) returns (picks: seq<Option<Result<Extended>>>, ghost views: seq<map<string, Stats>>)
      requires Valid() && Reflects([]) && RR.Taken(counters.picks, model) == 0
      requires InOrder(ops) && forall op <- ops :: Sane(op) && clock <= op.now
      modifies this, windows, windows.owner.Keys
      ensures Valid() && Reflects(ops) && Lived(config, deployments, ops, views, picks)
      ensures views[0] == old(stats) && views[|ops|] == stats
    {
      picks, views := [], [stats];
      assert ops[..0] == [];
      for n := 0 to |ops|
        invariant Valid() && Reached(ops, n, views, picks) && views[0] == old(stats)
        invariant fresh(windows.owner.Keys - old(windows.owner.Keys))
      {
        var pick := Advance(ops, n, views, picks);
        picks, views := picks + [pick], views + [stats];
      }
      assert ops[..|ops|] == ops;
    }

    /** The first `n` operations are done. */
    ghost predicate Reached(ops: seq<Op>, n: nat, views: seq<map<string, Stats>>, picks: seq<Option<Result<Extended>>>)
      reads this`stats, this`clock, this`counters, windows`books
    {
      && n <= |ops| && Reflects(ops[..n]) && (n < |ops| ==> clock <= ops[n].now)
      && LivedTo(config, deployments, ops, n, views, picks) && views[n] == stats
      && RR.Taken(counters.picks, model) == Turns(ops, picks, n)
    }

    method Advance(ops: seq<Op>, n: nat, ghost views: seq<map<string, Stats>>,
                   ghost picks: seq<Option<Result<Extended>>>)
      returns (pick: Option<Result<Extended>>)
      requires Valid() && n < |ops| && Reached(ops, n, views, picks) && InOrder(ops) && Sane(ops[n])
      modifies this, windows, windows.owner.Keys
      ensures Valid() && Reached(ops, n + 1, views + [stats], picks + [pick])
      ensures fresh(windows.owner.Keys - old(windows.owner.Keys))
    {
      ghost var books := windows.books;
      pick := Step(ops[n], ops[..n]);
      NextPrefix(ops, n);
      StepLived(config, deployments, ops, n, views, picks, pick, stats, books);
      OneMoreTurn(ops, picks, pick);
    }
  }
}
