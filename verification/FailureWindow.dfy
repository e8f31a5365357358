/** routers/base.go and routers/redis_scripts.go: the sliding failure window, kept once as a ring of
    per-minute buckets in memory and once as expiring per-bucket keys in Redis, both measured
    against the plain log of what happened. */
module FailureWindow {
  import opened Options

  const SECOND: nat := 1_000_000_000   // clock readings are nanoseconds since the epoch
  const WINDOW: nat := 5               // defaultFailureWindowMinutes
  const BUCKET_SECONDS: nat := 60      // defaultFailureBucketSeconds
  const SINGLE_MIN_REQUESTS: int := 1000
  const ZERO_TIME: int := -62_135_596_800_000_000_000   // the start of year 1, before any cooldown

  // ---------------------------------------------------------------- the event log

  /** One reported request: the Unix second it was reported in, and whether it succeeded. */
  datatype Report = Report(second: nat, success: bool)

  ghost predicate NotAfter(log: seq<Report>, second: nat) {
    forall e <- log :: e.second <= second
  }

  /** How many reports with the given outcome fall in buckets `lo` to `hi` of `size` seconds each. */
  ghost function CountIn(log: seq<Report>, size: nat, success: bool, lo: int, hi: int): nat
    requires size > 0
  {
    if log == [] then 0
    else
      var e := log[|log| - 1];
      CountIn(log[..|log| - 1], size, success, lo, hi)
      + if e.success == success && lo <= e.second / size <= hi then 1 else 0
  }

  lemma CountSnoc(log: seq<Report>, e: Report, size: nat, success: bool, lo: int, hi: int)
    requires size > 0
    ensures CountIn(log + [e], size, success, lo, hi)
      == CountIn(log, size, success, lo, hi) + if e.success == success && lo <= e.second / size <= hi then 1 else 0
  {
    assert (log + [e])[..|log|] == log;
  }

  lemma {:induction false} CountSplit(log: seq<Report>, size: nat, success: bool, lo: int, mid: int, hi: int)
    requires size > 0 && lo - 1 <= mid <= hi
    ensures CountIn(log, size, success, lo, hi) ==
      CountIn(log, size, success, lo, mid) + CountIn(log, size, success, mid + 1, hi)
  {
    if log != [] {
      CountSplit(log[..|log| - 1], size, success, lo, mid, hi);
    }
  }

  lemma {:induction false} CountNone(log: seq<Report>, size: nat, success: bool, lo: int, hi: int)
    requires size > 0 && forall e <- log :: !(lo <= e.second / size <= hi)
    ensures CountIn(log, size, success, lo, hi) == 0
  {
    if log != [] {
      assert log[|log| - 1] in log;
      CountNone(log[..|log| - 1], size, success, lo, hi);
    }
  }

  // ---------------------------------------------------------------- the ring of minutes

  datatype Bucket = Bucket(minute: nat, success: nat, failure: nat)

  function Minute(second: nat): nat {
    second / BUCKET_SECONDS
  }

  /** The count of one minute. */
  ghost function InMinute(log: seq<Report>, success: bool, minute: int): nat {
    CountIn(log, BUCKET_SECONDS, success, minute, minute)
  }

  /** The slot holds the latest minute of its residue that the log speaks of, with that minute's
      counts; or it is blank, and the log has no such minute. */
  ghost predicate SlotInv(slot: Bucket, idx: nat, log: seq<Report>, latest: nat) {
    && slot.minute <= Minute(latest)
    && (forall e <- log :: Minute(e.second) % WINDOW == idx ==> Minute(e.second) <= slot.minute)
    && (if slot.minute % WINDOW == idx
        then slot.success == InMinute(log, true, slot.minute) && slot.failure == InMinute(log, false, slot.minute)
        else slot == Bucket(0, 0, 0) && forall e <- log :: Minute(e.second) % WINDOW != idx)
  }

  /** The reports in minutes `lo` to `hi` whose minute leaves a remainder below `k`. */
  ghost function CountBelow(log: seq<Report>, success: bool, lo: int, hi: int, k: nat): nat {
    if log == [] then 0
    else
      var e := log[|log| - 1];
      CountBelow(log[..|log| - 1], success, lo, hi, k)
      + if e.success == success && lo <= Minute(e.second) <= hi && Minute(e.second) % WINDOW < k then 1 else 0
  }

  /** The one minute of remainder `idx` among the last WINDOW minutes. */
  function MinuteFor(current: nat, idx: nat): int {
    current - (current - idx) % WINDOW
  }

  lemma {:induction false} NextResidue(log: seq<Report>, success: bool, current: nat, idx: nat)
    requires idx < WINDOW
    ensures CountBelow(log, success, current - WINDOW + 1, current, idx + 1)
      == CountBelow(log, success, current - WINDOW + 1, current, idx) + InMinute(log, success, MinuteFor(current, idx))
  {
    if log != [] {
      NextResidue(log[..|log| - 1], success, current, idx);
    }
  }

  lemma {:induction false} AllResidues(log: seq<Report>, success: bool, lo: int, hi: int)
    ensures CountBelow(log, success, lo, hi, WINDOW) == CountIn(log, BUCKET_SECONDS, success, lo, hi)
    ensures CountBelow(log, success, lo, hi, 0) == 0
  {
    if log != [] {
      AllResidues(log[..|log| - 1], success, lo, hi);
    }
  }

  /** A slot contributes exactly the reports of the window minute it stands for. */
  lemma SlotContribution(slot: Bucket, idx: nat, log: seq<Report>, latest: nat, now: nat, success: bool)
    requires idx < WINDOW && latest <= now && SlotInv(slot, idx, log, latest)
    ensures InMinute(log, success, MinuteFor(Minute(now), idx))
      == if slot.minute >= Minute(now) - WINDOW + 1 then (if success then slot.success else slot.failure) else 0
  {
    var w := MinuteFor(Minute(now), idx);
    OnlyMinute(Minute(now), idx, slot.minute);
    if slot.minute % WINDOW != idx || slot.minute < Minute(now) - WINDOW + 1 {
      CountNone(log, BUCKET_SECONDS, success, w, w);
    }
  }

  lemma OnlyMinute(current: nat, idx: nat, m: nat)
    requires idx < WINDOW
    ensures var w := MinuteFor(current, idx);
      && w % WINDOW == idx && current - WINDOW + 1 <= w <= current
      && (m % WINDOW == idx && current - WINDOW + 1 <= m <= current ==> m == w)
  {
  }

  lemma SlotAfter(slot: Bucket, idx: nat, log: seq<Report>, latest: nat, e: Report)
    requires idx < WINDOW && latest <= e.second && SlotInv(slot, idx, log, latest) && NotAfter(log, latest)
    ensures var m := Minute(e.second);
      var cleared := if slot.minute == m then slot else Bucket(m, 0, 0);
      var bumped := if e.success then cleared.(success := cleared.success + 1)
                    else cleared.(failure := cleared.failure + 1);
      SlotInv(if m % WINDOW == idx then bumped else slot, idx, log + [e], e.second)
  {
    var m := Minute(e.second);
    CountSnoc(log, e, BUCKET_SECONDS, true, m, m);
    CountSnoc(log, e, BUCKET_SECONDS, false, m, m);
    CountSnoc(log, e, BUCKET_SECONDS, true, slot.minute, slot.minute);
    CountSnoc(log, e, BUCKET_SECONDS, false, slot.minute, slot.minute);
    if m % WINDOW == idx && slot.minute != m {
      CountNone(log, BUCKET_SECONDS, true, m, m);
      CountNone(log, BUCKET_SECONDS, false, m, m);
    }
  }

  class FailureRing {
    const buckets: array<Bucket>
    ghost var log: seq<Report>
    ghost var latest: nat

    ghost predicate Valid()
      reads this, buckets
    {
      && buckets.Length == WINDOW
      && NotAfter(log, latest)
      && forall i :: 0 <= i < WINDOW ==> SlotInv(buckets[i], i, log, latest)
    }

    constructor ()
      ensures Valid() && fresh(buckets) && log == [] && latest == 0
    {
      buckets := new Bucket[WINDOW](_ => Bucket(0, 0, 0));
      log, latest := [], 0;
    }

    method RecordWindow(second: nat, success: bool)
      requires Valid() && latest <= second
      modifies this, buckets
      ensures Valid() && latest == second && log == old(log) + [Report(second, success)]
    {
      var minute := Minute(second);
      var idx := minute % WINDOW;
      forall i | 0 <= i < WINDOW {
        SlotAfter(buckets[i], i, log, latest, Report(second, success));
      }
      if buckets[idx].minute != minute {
        buckets[idx] := Bucket(minute, 0, 0);
      }
      if success {
        buckets[idx] := buckets[idx].(success := buckets[idx].success + 1);
      } else {
        buckets[idx] := buckets[idx].(failure := buckets[idx].failure + 1);
      }
      log, latest := log + [Report(second, success)], second;
    }

    /** The totals are exact: every report of the last five minutes, each counted once. */
    method WindowTotals(second: nat) returns (successTotal: nat, failureTotal: nat)
      requires Valid() && latest <= second
      ensures successTotal == CountIn(log, BUCKET_SECONDS, true, Minute(second) - WINDOW + 1, Minute(second))
      ensures failureTotal == CountIn(log, BUCKET_SECONDS, false, Minute(second) - WINDOW + 1, Minute(second))
    {
      var current := Minute(second);
      var cutoff := current - (WINDOW - 1);
      successTotal, failureTotal := 0, 0;
      AllResidues(log, true, cutoff, current);
      AllResidues(log, false, cutoff, current);
      for i := 0 to buckets.Length
        invariant successTotal == CountBelow(log, true, cutoff, current, i)
        invariant failureTotal == CountBelow(log, false, cutoff, current, i)
      {
        SlotContribution(buckets[i], i, log, latest, second, true);
        SlotContribution(buckets[i], i, log, latest, second, false);
        NextResidue(log, true, current, i);
        NextResidue(log, false, current, i);
        if buckets[i].minute >= cutoff {
          successTotal := successTotal + buckets[i].success;
          failureTotal := failureTotal + buckets[i].failure;
        }
      }
    }
  }

  // ---------------------------------------------------------------- the cooldown rule

  /** An error as the router meets it: an LLMError, some other error, or a wrapper around either. */
  datatype Err = LLMError(status: int) | Plain | Wrapped(inner: Err)

  /** errors.As: looks through wrappers. */
  function AsStatus(err: Err): Option<int> {
    match err
    case LLMError(status) => Some(status)
    case Plain => None
    case Wrapped(inner) => AsStatus(inner)
  }

  /** A type assertion: sees only the outermost error; zero where it finds none. */
  function AssertedStatus(err: Err): int {
    if err.LLMError? then err.status else 0
  }

  datatype Rules = Rules(
    threshold: real, minRequests: int, singleMinRequests: int, immediateOn429: bool, cooldownPeriod: int)

  /** Statuses that start a cooldown at once. */
  predicate Immediate(rules: Rules, single: bool, status: int) {
    status == 401 || status == 404 || status == 408 || (status == 429 && rules.immediateOn429 && !single)
  }

  /** The error has such a status, found through wrapping. */
  predicate ImmediateError(rules: Rules, single: bool, err: Err) {
    AsStatus(err).Some? && Immediate(rules, single, AsStatus(err).value)
  }

  /** The failure-rate rule over exact window counts. */
  predicate RateTrips(rules: Rules, single: bool, successes: nat, failures: nat) {
    var total := successes + failures;
    && total > 0
    && if single then total >= rules.singleMinRequests && failures == total
       else total >= rules.minRequests && failures as real / total as real > rules.threshold
  }

  /** The failure-rate rule over the log, seen at second `now` through a window of `window` buckets. */
  ghost predicate Trips(rules: Rules, single: bool, log: seq<Report>, window: nat, size: nat, now: nat)
    requires size > 0
  {
    var b := now / size;
    RateTrips(rules, single, CountIn(log, size, true, b - window + 1, b), CountIn(log, size, false, b - window + 1, b))
  }

  /** A single deployment trips exactly if there are requests, enough of them, and no success among them. */
  lemma SingleTripsIff(rules: Rules, successes: nat, failures: nat)
    ensures RateTrips(rules, true, successes, failures) <==>
      failures > 0 && failures >= rules.singleMinRequests && successes == 0
  {
  }

  /** A single deployment with a success in its window is not cooled down by rate. */
  lemma SuccessSpares(rules: Rules, log: seq<Report>, e: Report, window: nat, size: nat, now: nat)
    requires size > 0 && e in log && e.success && now / size - window < e.second / size <= now / size
    ensures !Trips(rules, true, log, window, size, now)
  {
    var hi := now / size;
    CountsOne(log, e, size, hi - window + 1, hi);
    SingleTripsIff(rules, CountIn(log, size, true, hi - window + 1, hi),
                   CountIn(log, size, false, hi - window + 1, hi));
  }

  lemma {:induction false} CountsOne(log: seq<Report>, e: Report, size: nat, lo: int, hi: int)
    requires size > 0 && e in log && lo <= e.second / size <= hi
    ensures CountIn(log, size, e.success, lo, hi) > 0
  {
    var n := |log| - 1;
    if log[n] != e {
      assert e in log[..n];
      CountsOne(log[..n], e, size, lo, hi);
    }
  }

  /** A failure that is the last report of `log` starts a cooldown: by its status, found through wrapping, or by the
      failure-rate rule with the fixed window and threshold of local mode. */
  ghost predicate StartsOn(rules: Rules, err: Err, single: bool, log: seq<Report>, now: nat) {
    || ImmediateError(rules, single, err)
    || Trips(rules.(singleMinRequests := SINGLE_MIN_REQUESTS), single, log, WINDOW, BUCKET_SECONDS, now / SECOND)
  }

  // ---------------------------------------------------------------- local mode

  class LocalStats {
    const rules: Rules
    const ring: FailureRing
    var cooldownUntil: int

    ghost predicate Valid()
      reads this, ring, ring.buckets
    {
      ring.Valid()
    }

    /** The window and the cooldown stand for `book`. */
    ghost predicate Keeps(rules: Rules, book: Book, latest: nat)
      reads this, ring, ring.buckets
    {
      Valid() && this.rules == rules && ring.log == book.log && cooldownUntil == book.until && ring.latest <= latest
    }

    constructor (rules: Rules)
      ensures Valid() && fresh(ring) && fresh(ring.buckets) && this.rules == rules && ring.log == [] && ring.latest == 0
      ensures cooldownUntil == ZERO_TIME
    {
      this.rules := rules;
      ring := new FailureRing();
      cooldownUntil := ZERO_TIME;
    }

    method ReportSuccess(now: nat)
      requires Valid() && ring.latest <= now / SECOND
      modifies ring, ring.buckets
      ensures Valid() && ring.latest == now / SECOND && ring.log == old(ring.log) + [Report(now / SECOND, true)]
    {
      ring.RecordWindow(now / SECOND, true);
    }

    /** Whether a cooldown starts is decided by the error and by the exact window counts, this failure included. */
    method ReportFailure(now: nat, err: Err, single: bool) returns (started: bool)
      requires Valid() && ring.latest <= now / SECOND
      modifies this, ring, ring.buckets
      ensures Valid() && ring.latest == now / SECOND && ring.log == old(ring.log) + [Report(now / SECOND, false)]
      ensures started <==> StartsOn(rules, err, single, ring.log, now)
      ensures cooldownUntil == if started then now + rules.cooldownPeriod else old(cooldownUntil)
    {
      ring.RecordWindow(now / SECOND, false);
      var status := AsStatus(err);
      if status.Some? {
        if rules.immediateOn429 && status.value == 429 && !single {
          cooldownUntil := now + rules.cooldownPeriod;
          return true;
        }
        if status.value == 401 || status.value == 404 || status.value == 408 {
          cooldownUntil := now + rules.cooldownPeriod;
          return true;
        }
      }
      started := ShouldCooldown(now, single);
      if started {
        cooldownUntil := now + rules.cooldownPeriod;
      }
    }

    method ShouldCooldown(now: nat, single: bool) returns (trips: bool)
      requires Valid() && ring.latest <= now / SECOND
      ensures trips ==
        Trips(rules.(singleMinRequests := SINGLE_MIN_REQUESTS), single, ring.log, WINDOW, BUCKET_SECONDS, now / SECOND)
    {
      var successTotal, failureTotal := ring.WindowTotals(now / SECOND);
      var total := successTotal + failureTotal;
      if total == 0 {
        return false;
      }
      if single {
        return total >= SINGLE_MIN_REQUESTS && failureTotal == total;
      }
      if total < rules.minRequests {
        return false;
      }
      return failureTotal as real / total as real > rules.threshold;
    }
  }

  /** What is kept about one deployment: the reports about it, and when its cooldown ends. */
  datatype Book = Book(log: seq<Report>, until: int)

  const BLANK := Book([], ZERO_TIME)

  function BookOf(books: map<string, Book>, id: string): Book {
    if id in books then books[id] else BLANK
  }

  /** The failure windows and cooldowns of all deployments, made on first use. */
  class LocalWindows {
    const rules: Rules
    var entries: map<string, LocalStats>
    ghost var books: map<string, Book>
    ghost var latest: nat
    ghost var owner: map<object, string>   // whose window an object belongs to

    ghost predicate Owns(id: string)
      requires id in entries
      reads this
    {
      var entry := entries[id];
      && entry in owner && entry.ring in owner && entry.ring.buckets in owner
      && owner[entry] == id && owner[entry.ring] == id && owner[entry.ring.buckets] == id
    }

    /** The window of `id` is its own and stands for the book of `id`. */
    ghost predicate Sound(id: string)
      reads this, owner.Keys
    {
      id in entries ==> id in books && Owns(id) && entries[id].Keeps(rules, books[id], latest)
    }

    ghost predicate Valid()
      reads this, owner.Keys
    {
      this !in owner && entries.Keys == books.Keys && forall id {:trigger Sound(id)} :: Sound(id)
    }

    constructor (rules: Rules)
      ensures Valid() && owner == map[] && this.rules == rules && books == map[] && latest == 0
    {
      this.rules, entries, books, latest, owner := rules, map[], map[], 0, map[];
    }

    method GetOrCreate(id: string)
      requires Valid()
      modifies this`entries, this`books, this`owner
      ensures Valid() && fresh(owner.Keys - old(owner.Keys)) && id in entries
      ensures books == old(books)[id := BookOf(old(books), id)]
    {
      if id in entries {
        assert books[id := BookOf(books, id)] == books;
        return;
      }
      var entry := new LocalStats(rules);
      Add(id, entry);
    }

    method Add(id: string, entry: LocalStats)
      requires Valid() && id !in entries && entry.Keeps(rules, BLANK, 0)
      requires entry !in owner && entry.ring !in owner && entry.ring.buckets !in owner
      modifies this`entries, this`books, this`owner
      ensures Valid() && owner.Keys == old(owner.Keys) + {entry, entry.ring, entry.ring.buckets}
      ensures entries == old(entries)[id := entry] && books == old(books)[id := BLANK]
    {
      entries, books := entries[id := entry], books[id := BLANK];
      owner := owner[entry := id][entry.ring := id][entry.ring.buckets := id];
      assert Sound(id);
      forall other | other != id
        ensures Sound(other)
      {
        assert old(Sound(other));
      }
    }

    method RecordSuccess(id: string, now: nat)
      requires Valid() && latest <= now / SECOND
      modifies this, owner.Keys
      ensures Valid() && fresh(owner.Keys - old(owner.Keys)) && latest == now / SECOND
      ensures var book := BookOf(old(books), id);
        books == old(books)[id := book.(log := book.log + [Report(now / SECOND, true)])]
    {
      GetOrCreate(id);
      AddSuccess(id, now);
    }

    method AddSuccess(id: string, now: nat)
      requires Valid() && latest <= now / SECOND && id in books
      modifies this`books, this`latest, owner.Keys
      ensures Valid() && latest == now / SECOND
      ensures books == old(books)[id := old(books)[id].(log := old(books)[id].log + [Report(now / SECOND, true)])]
    {
      assert Sound(id);
      entries[id].ReportSuccess(now);
      books := books[id := books[id].(log := books[id].log + [Report(now / SECOND, true)])];
      latest := now / SECOND;
      forall other
        ensures Sound(other)
      {
        assert old(Sound(other));
      }
    }

    method RecordFailure(id: string, now: nat, err: Err, single: bool) returns (started: bool)
      requires Valid() && latest <= now / SECOND
      modifies this, owner.Keys
      ensures Valid() && fresh(owner.Keys - old(owner.Keys)) && latest == now / SECOND
      ensures var book := BookOf(old(books), id);
        && books == old(books)[id := AfterFailing(rules, book, now, started)]
        && (started <==> StartsOn(rules, err, single, book.log + [Report(now / SECOND, false)], now))
    {
      ghost var was, book := books, BookOf(books, id);
      GetOrCreate(id);
      assert books[id] == book;
      started := AddFailure(id, now, err, single);
      assert books == was[id := AfterFailing(rules, book, now, started)];
    }

    method AddFailure(id: string, now: nat, err: Err, single: bool) returns (started: bool)
      requires Valid() && latest <= now / SECOND && id in books
      modifies this`books, this`latest, owner.Keys
      ensures Valid() && latest == now / SECOND
      ensures books == old(books)[id := AfterFailing(rules, old(books)[id], now, started)]
      ensures started <==> StartsOn(rules, err, single, old(books)[id].log + [Report(now / SECOND, false)], now)
    {
      assert Sound(id);
      started := entries[id].ReportFailure(now, err, single);
      books := books[id := AfterFailing(rules, books[id], now, started)];
      latest := now / SECOND;
      forall other
        ensures Sound(other)
      {
        assert old(Sound(other));
      }
    }
  }

  ghost function AfterFailing(rules: Rules, book: Book, now: nat, started: bool): Book {
    Book(book.log + [Report(now / SECOND, false)], if started then now + rules.cooldownPeriod else book.until)
  }

  // ---------------------------------------------------------------- Redis mode

  /** A counter key: its value and the second from which it no longer exists. */
  datatype Key = Key(value: nat, expiresAt: nat)

  type Keys = map<int, Key>

  /** GET: nothing if the key was never set or has expired. */
  function Get(keys: Keys, bucket: int, now: nat): Option<nat> {
    if bucket in keys && now < keys[bucket].expiresAt then Some(keys[bucket].value) else None
  }

  /** INCRBY 1, then EXPIRE. */
  function IncrExpire(keys: Keys, bucket: int, now: nat, ttl: nat): Keys {
    var before := Get(keys, bucket, now);
    keys[bucket := Key(1 + if before.Some? then before.value else 0, now + ttl)]
  }

  /** Every bucket the log speaks of has its count, under a key that outlives the window it matters in. */
  ghost predicate KeysInv(keys: Keys, log: seq<Report>, success: bool, window: nat, size: nat)
    requires size > 0
  {
    && (forall e <- log :: e.success == success ==> e.second / size in keys)
    && (forall b <- keys ::
          keys[b].value == CountIn(log, size, success, b, b) && keys[b].expiresAt >= (b + window + 1) * size)
  }

  /** A key is alive as long as its bucket can be in the window. */
  lemma AliveInWindow(b: int, now: nat, window: nat, size: nat, expiresAt: nat)
    requires size > 0 && expiresAt >= (b + window + 1) * size && now / size <= b + window
    ensures now < expiresAt
  {
    assert now < (now / size + 1) * size;
    assert (now / size + 1) * size <= (b + window + 1) * size;
  }

  lemma GetIsCount(keys: Keys, log: seq<Report>, success: bool, window: nat, size: nat, b: int, now: nat)
    requires size > 0 && KeysInv(keys, log, success, window, size) && now / size <= b + window
    ensures var v := Get(keys, b, now);
      CountIn(log, size, success, b, b) == if v.Some? then v.value else 0
  {
    if b in keys {
      AliveInWindow(b, now, window, size, keys[b].expiresAt);
    } else {
      CountOther(log, size, success, b);
    }
  }

  lemma {:induction false} CountOther(log: seq<Report>, size: nat, success: bool, b: int)
    requires size > 0 && forall e <- log :: e.success == success ==> e.second / size != b
    ensures CountIn(log, size, success, b, b) == 0
  {
    if log != [] {
      assert log[|log| - 1] in log;
      CountOther(log[..|log| - 1], size, success, b);
    }
  }

  lemma IncrKeeps(keys: Keys, log: seq<Report>, window: nat, size: nat, e: Report)
    requires size > 0 && KeysInv(keys, log, e.success, window, size)
    ensures KeysInv(IncrExpire(keys, e.second / size, e.second, window * size + size), log + [e], e.success, window,
                    size)
  {
    var b := e.second / size;
    GetIsCount(keys, log, e.success, window, size, b, e.second);
    var keys' := IncrExpire(keys, b, e.second, window * size + size);
    assert keys'[b].expiresAt >= (b + window + 1) * size by {
      assert (b + window + 1) * size == b * size + (window * size + size);
    }
    forall c | c in keys'
      ensures keys'[c].value == CountIn(log + [e], size, e.success, c, c)
    {
      CountSnoc(log, e, size, e.success, c, c);
    }
  }

  lemma OtherKeeps(keys: Keys, log: seq<Report>, success: bool, window: nat, size: nat, e: Report)
    requires size > 0 && KeysInv(keys, log, success, window, size) && e.success != success
    ensures KeysInv(keys, log + [e], success, window, size)
  {
    forall c | c in keys
      ensures keys[c].value == CountIn(log + [e], size, success, c, c)
    {
      CountSnoc(log, e, size, success, c, c);
    }
  }

  class RedisStats {
    const rules: Rules
    const failureWindowMins: int
    const failureBucketSecs: int
    var successes: Keys
    var failures: Keys
    var cooldown: Option<Key>
    ghost var log: seq<Report>

    function WindowSize(): (n: nat)
      ensures n > 0
    {
      if failureWindowMins <= 0 then WINDOW else failureWindowMins
    }

    function BucketSeconds(): (n: nat)
      ensures n > 0
    {
      if failureBucketSecs <= 0 then BUCKET_SECONDS else failureBucketSecs
    }

    function BucketTTLSeconds(): nat {
      WindowSize() * BucketSeconds() + BucketSeconds()
    }

    ghost predicate Valid()
      reads this
    {
      && KeysInv(successes, log, true, WindowSize(), BucketSeconds())
      && KeysInv(failures, log, false, WindowSize(), BucketSeconds())
    }

    constructor (rules: Rules, failureWindowMins: int, failureBucketSecs: int)
      ensures Valid() && log == [] && cooldown == None
      ensures this.rules == rules
      ensures this.failureWindowMins == failureWindowMins && this.failureBucketSecs == failureBucketSecs
    {
      this.rules, this.failureWindowMins, this.failureBucketSecs := rules, failureWindowMins, failureBucketSecs;
      successes, failures, cooldown, log := map[], map[], None, [];
    }

    method RecordSuccess(now: nat)
      requires Valid()
      modifies this
      ensures Valid() && log == old(log) + [Report(now, true)] && cooldown == old(cooldown)
    {
      IncrKeeps(successes, log, WindowSize(), BucketSeconds(), Report(now, true));
      OtherKeeps(failures, log, false, WindowSize(), BucketSeconds(), Report(now, true));
      successes := IncrExpire(successes, now / BucketSeconds(), now, BucketTTLSeconds());
      log := log + [Report(now, true)];
    }

    /** The script's loop over the window; the totals are the log's, whatever the window and bucket size. */
    method Totals(now: nat) returns (totalSuccess: nat, totalFailure: nat)
      requires Valid()
      ensures var b := now / BucketSeconds();
        && totalSuccess == CountIn(log, BucketSeconds(), true, b - WindowSize() + 1, b)
        && totalFailure == CountIn(log, BucketSeconds(), false, b - WindowSize() + 1, b)
    {
      var current := now / BucketSeconds();
      totalSuccess, totalFailure := 0, 0;
      CountEmpty(log, BucketSeconds(), true, current + 1, current);
      CountEmpty(log, BucketSeconds(), false, current + 1, current);
      for i := 0 to WindowSize()
        invariant totalSuccess == CountIn(log, BucketSeconds(), true, current - i + 1, current)
        invariant totalFailure == CountIn(log, BucketSeconds(), false, current - i + 1, current)
      {
        var bucket := current - i;
        GetIsCount(successes, log, true, WindowSize(), BucketSeconds(), bucket, now);
        GetIsCount(failures, log, false, WindowSize(), BucketSeconds(), bucket, now);
        CountSplit(log, BucketSeconds(), true, bucket, bucket, current);
        CountSplit(log, BucketSeconds(), false, bucket, bucket, current);
        var s := Get(successes, bucket, now);
        if s.Some? {
          totalSuccess := totalSuccess + s.value;
        }
        var f := Get(failures, bucket, now);
        if f.Some? {
          totalFailure := totalFailure + f.value;
        }
      }
    }

    method RecordFailure(now: nat, err: Err, single: bool) returns (started: bool)
      requires Valid()
      modifies this
      ensures Valid() && log == old(log) + [Report(now, false)]
      ensures started <==>
        && rules.cooldownPeriod / SECOND > 0
        && (|| Immediate(rules, single, AssertedStatus(err))
            || Trips(rules, single, log, WindowSize(), BucketSeconds(), now))
      ensures cooldown == if started
        then Some(Key(now + rules.cooldownPeriod / SECOND, now + rules.cooldownPeriod / SECOND + 10)) else old(cooldown)
    {
      var status := AssertedStatus(err);
      var cooldownSeconds := rules.cooldownPeriod / SECOND;
      IncrKeeps(failures, log, WindowSize(), BucketSeconds(), Report(now, false));
      OtherKeeps(successes, log, true, WindowSize(), BucketSeconds(), Report(now, false));
      failures := IncrExpire(failures, now / BucketSeconds(), now, BucketTTLSeconds());
      log := log + [Report(now, false)];
      var totalSuccess, totalFailure := Totals(now);
      var total := totalSuccess + totalFailure;
      var should := false;
      if status == 401 || status == 404 || status == 408 {
        should := true;
      }
      if status == 429 && rules.immediateOn429 && !single {
        should := true;
      }
      if !should {
        if single {
          if total >= rules.singleMinRequests && totalFailure == total && total > 0 {
            should := true;
          }
        } else {
          if total >= rules.minRequests && total > 0 {
            if totalFailure as real / total as real > rules.threshold {
              should := true;
            }
          }
        }
      }
      started := should && cooldownSeconds > 0;
      if started {
        cooldown := Some(Key(now + cooldownSeconds, now + cooldownSeconds + 10));
      }
    }
  }

  lemma {:induction false} CountEmpty(log: seq<Report>, size: nat, success: bool, lo: int, hi: int)
    requires size > 0 && lo > hi
    ensures CountIn(log, size, success, lo, hi) == 0
  {
    if log != [] {
      CountEmpty(log[..|log| - 1], size, success, lo, hi);
    }
  }

  // ---------------------------------------------------------------- both modes on one history

  datatype Happening = Succeeded | FailedWith(err: Err, single: bool)

  datatype Occurrence = Occurrence(now: nat, what: Happening)

  ghost predicate ClockRuns(history: seq<Occurrence>) {
    forall i, j :: 0 <= i < j < |history| ==> history[i].now <= history[j].now
  }

  ghost function LogOf(history: seq<Occurrence>): seq<Report> {
    if history == [] then []
    else
      var o := history[|history| - 1];
      LogOf(history[..|history| - 1]) + [Report(o.now / SECOND, o.what.Succeeded?)]
  }

  /** The failure-rate rule at the moment of occurrence `i`. */
  ghost predicate TripsAt(rules: Rules, history: seq<Occurrence>, i: nat)
    requires i < |history| && history[i].what.FailedWith?
  {
    Trips(rules, history[i].what.single, LogOf(history[..i + 1]), WINDOW, BUCKET_SECONDS, history[i].now / SECOND)
  }

  /** There is no reason to cool down; or the period is a second or more and the reason is not
      merely a status hidden inside a wrapped error. */
  predicate Comparable(rules: Rules, err: Err, single: bool, trips: bool) {
    trips || ImmediateError(rules, single, err) ==> rules.cooldownPeriod >= SECOND && (err.LLMError? || trips)
  }

  /** What in-memory stats and the Redis script make of occurrence `i`. */
  ghost predicate LocalStarts(rules: Rules, history: seq<Occurrence>, i: nat)
    requires i < |history|
  {
    var what := history[i].what;
    && what.FailedWith?
    && (ImmediateError(rules, what.single, what.err) || TripsAt(rules, history, i))
  }

  ghost predicate RedisStarts(rules: Rules, history: seq<Occurrence>, i: nat)
    requires i < |history|
  {
    var what := history[i].what;
    && what.FailedWith?
    && rules.cooldownPeriod / SECOND > 0
    && (Immediate(rules, what.single, AssertedStatus(what.err)) || TripsAt(rules, history, i))
  }

  /** On every failure of every history the two modes agree exactly when the case is comparable: in
      particular always, with a period of a second or more and an error that is not wrapped. */
  lemma AgreeIff(rules: Rules, history: seq<Occurrence>, i: nat)
    requires i < |history| && history[i].what.FailedWith?
    ensures var what := history[i].what;
      && ((LocalStarts(rules, history, i) <==> RedisStarts(rules, history, i))
          <==> Comparable(rules, what.err, what.single, TripsAt(rules, history, i)))
      && (rules.cooldownPeriod >= SECOND && !what.err.Wrapped? ==>
            (LocalStarts(rules, history, i) <==> RedisStarts(rules, history, i)))
      && (RedisStarts(rules, history, i) ==> LocalStarts(rules, history, i))
  {
    assert rules.cooldownPeriod / SECOND > 0 <==> rules.cooldownPeriod >= SECOND;
  }

  /** The history ends in this failure, under a clock that does not run back. */
  ghost predicate EndsIn(history: seq<Occurrence>, err: Err, single: bool) {
    history != [] && ClockRuns(history) && history[|history| - 1].what == FailedWith(err, single)
  }

  ghost predicate AgreeOnLast(rules: Rules, history: seq<Occurrence>)
    requires history != []
  {
    LocalStarts(rules, history, |history| - 1) <==> RedisStarts(rules, history, |history| - 1)
  }

  /** With a period of a second or more: the error hides no immediate status in a wrapper, or the rate rule starts a
      cooldown on every failure anyway. With a shorter one: nothing can start a cooldown at all. */
  predicate AlwaysAgree(rules: Rules, err: Err, single: bool) {
    var immediate := ImmediateError(rules, single, err);
    if rules.cooldownPeriod >= SECOND then
      err.LLMError? || !immediate || (!single && rules.minRequests <= 1 && rules.threshold <= 0.0)
    else !immediate && !single && rules.threshold >= 1.0
  }

  /** Successes, then failures, all at time zero. */
  ghost function Mixed(successes: nat, failures: nat, err: Err, single: bool): seq<Occurrence>
    decreases failures, successes
  {
    if failures > 0 then Mixed(successes, failures - 1, err, single) + [Occurrence(0, FailedWith(err, single))]
    else if successes > 0 then Mixed(successes - 1, 0, err, single) + [Occurrence(0, Succeeded)]
    else []
  }

  lemma OneMoreAtZero(h: seq<Occurrence>, o: Occurrence, success: bool)
    requires o.now == 0
    ensures CountIn(LogOf(h + [o]), BUCKET_SECONDS, success, -4, 0) ==
      CountIn(LogOf(h), BUCKET_SECONDS, success, -4, 0) + if o.what.Succeeded? == success then 1 else 0
  {
    assert (h + [o])[..|h|] == h;
    CountSnoc(LogOf(h), Report(0, o.what.Succeeded?), BUCKET_SECONDS, success, -4, 0);
  }

  lemma {:induction false} MixedCounts(successes: nat, failures: nat, err: Err, single: bool, success: bool)
    ensures var h := Mixed(successes, failures, err, single);
      && CountIn(LogOf(h), BUCKET_SECONDS, success, -4, 0) == (if success then successes else failures)
      && forall o <- h :: o.now == 0
    decreases failures, successes
  {
    if failures > 0 {
      MixedCounts(successes, failures - 1, err, single, success);
      OneMoreAtZero(Mixed(successes, failures - 1, err, single), Occurrence(0, FailedWith(err, single)), success);
    } else if successes > 0 {
      MixedCounts(successes - 1, 0, err, single, success);
      OneMoreAtZero(Mixed(successes - 1, 0, err, single), Occurrence(0, Succeeded), success);
    }
  }

  /** What the rate rule makes of the last of such failures. */
  lemma MixedTrips(rules: Rules, successes: nat, failures: nat, err: Err, single: bool)
    requires failures > 0
    ensures var h := Mixed(successes, failures, err, single);
      && h != [] && EndsIn(h, err, single)
      && (TripsAt(rules, h, |h| - 1) <==> RateTrips(rules, single, successes, failures))
  {
    var h := Mixed(successes, failures, err, single);
    MixedCounts(successes, failures, err, single, true);
    MixedCounts(successes, failures, err, single, false);
    assert h[..|h|] == h;
  }

  lemma RateAtMostOne(successes: nat, failures: nat)
    requires failures > 0
    ensures 0.0 < failures as real / (successes + failures) as real <= 1.0
    ensures successes == 0 ==> failures as real / failures as real == 1.0
  {
  }

  lemma RateBelow(threshold: real) returns (successes: nat)
    requires threshold > 0.0
    ensures 1.0 / (successes + 1) as real <= threshold
  {
    successes := (1.0 / threshold).Floor;
    var total := (successes + 1) as real;
    assert total * threshold >= 1.0 by {
      assert total >= 1.0 / threshold;
    }
    assert 1.0 / total <= threshold;
  }

  /** The last failure of any history counts in its own window. */
  lemma {:induction false} LastCounts(history: seq<Occurrence>, err: Err, single: bool)
    requires EndsIn(history, err, single)
    ensures var now := history[|history| - 1].now / SECOND;
      CountIn(LogOf(history), BUCKET_SECONDS, false, now / BUCKET_SECONDS - WINDOW + 1, now / BUCKET_SECONDS) > 0
  {
    var now := history[|history| - 1].now / SECOND;
    CountSnoc(LogOf(history[..|history| - 1]), Report(now, false), BUCKET_SECONDS, false,
              now / BUCKET_SECONDS - WINDOW + 1, now / BUCKET_SECONDS);
  }

  lemma AlwaysAgreeHolds(rules: Rules, history: seq<Occurrence>, err: Err, single: bool)
    requires EndsIn(history, err, single) && AlwaysAgree(rules, err, single)
    ensures AgreeOnLast(rules, history)
  {
    var i := |history| - 1;
    var b := history[i].now / SECOND / BUCKET_SECONDS;
    AgreeIff(rules, history, i);
    LastCounts(history, err, single);
    assert history[..i + 1] == history;
    RateAtMostOne(CountIn(LogOf(history), BUCKET_SECONDS, true, b - WINDOW + 1, b),
                  CountIn(LogOf(history), BUCKET_SECONDS, false, b - WINDOW + 1, b));
  }

  /** A history on which the two modes differ, where the condition does not hold. */
  lemma DifferSomewhere(rules: Rules, err: Err, single: bool) returns (history: seq<Occurrence>)
    requires rules.singleMinRequests == SINGLE_MIN_REQUESTS && !AlwaysAgree(rules, err, single)
    ensures EndsIn(history, err, single) && !AgreeOnLast(rules, history)
  {
    var successes, failures := 0, 1;
    if rules.cooldownPeriod < SECOND {
      failures := if single then SINGLE_MIN_REQUESTS else if rules.minRequests >= 1 then rules.minRequests else 1;
    } else if !single && rules.minRequests <= 1 && rules.threshold < 1.0 {
      successes := RateBelow(rules.threshold);
    }
    history := Mixed(successes, failures, err, single);
    MixedTrips(rules, successes, failures, err, single);
    RateAtMostOne(successes, failures);
    AgreeIff(rules, history, |history| - 1);
  }

  /** For a given configuration and error, local and Redis mode agree on every history that ends in it if and only if
      a condition on the two alone holds. */
  lemma AgreeOnAllIff(rules: Rules, err: Err, single: bool)
    requires rules.singleMinRequests == SINGLE_MIN_REQUESTS
    ensures (forall history :: EndsIn(history, err, single) ==> AgreeOnLast(rules, history))
      <==> AlwaysAgree(rules, err, single)
  {
    if AlwaysAgree(rules, err, single) {
      forall history | EndsIn(history, err, single)
        ensures AgreeOnLast(rules, history)
      {
        AlwaysAgreeHolds(rules, history, err, single);
      }
    } else {
      var history := DifferSomewhere(rules, err, single);
    }
  }

  /** A wrapped 401 cools a deployment down in memory and not in Redis. */
  lemma WrappedErrorsDiffer()
    ensures var rules := Rules(0.5, 5, SINGLE_MIN_REQUESTS, true, 60 * SECOND);
      var history := [Occurrence(0, FailedWith(Wrapped(LLMError(401)), false))];
      LocalStarts(rules, history, 0) && !RedisStarts(rules, history, 0)
  {
    var rules := Rules(0.5, 5, SINGLE_MIN_REQUESTS, true, 60 * SECOND);
    var history := [Occurrence(0, FailedWith(Wrapped(LLMError(401)), false))];
    assert history[..1] == history && history[..0] == [];
    var only := Report(0, false);
    assert LogOf(history) == [] + [only];
    CountSnoc([], only, BUCKET_SECONDS, true, -4, 0);
    CountSnoc([], only, BUCKET_SECONDS, false, -4, 0);
    assert !TripsAt(rules, history, 0);
  }

  ghost predicate InLockstep(l: LocalStats, r: RedisStats, rules: Rules, history: seq<Occurrence>)
    reads l, l.ring, l.ring.buckets, r
  {
    && l.rules == rules && r.rules == rules && l.Valid() && r.Valid()
    && r.WindowSize() == WINDOW && r.BucketSeconds() == BUCKET_SECONDS
    && l.ring.log == LogOf(history) == r.log
    && l.ring.latest == if history == [] then 0 else history[|history| - 1].now / SECOND
  }

  lemma LogGrows(past: seq<Occurrence>, o: Occurrence)
    ensures LogOf(past + [o]) == LogOf(past) + [Report(o.now / SECOND, o.what.Succeeded?)]
    ensures (past + [o])[..|past| + 1] == past + [o]
  {
    assert (past + [o])[..|past|] == past && (past + [o])[..|past| + 1] == past + [o];
  }

  method FeedSuccess(l: LocalStats, r: RedisStats, rules: Rules, ghost past: seq<Occurrence>, o: Occurrence)
    requires InLockstep(l, r, rules, past) && o.what.Succeeded?
    requires past != [] ==> past[|past| - 1].now <= o.now
    modifies l, l.ring, l.ring.buckets, r
    ensures InLockstep(l, r, rules, past + [o])
  {
    LogGrows(past, o);
    l.ReportSuccess(o.now);
    r.RecordSuccess(o.now / SECOND);
  }

  method FeedFailure(l: LocalStats, r: RedisStats, rules: Rules, ghost past: seq<Occurrence>, o: Occurrence)
    returns (local: bool, redis: bool)
    requires InLockstep(l, r, rules, past) && rules.singleMinRequests == SINGLE_MIN_REQUESTS && o.what.FailedWith?
    requires past != [] ==> past[|past| - 1].now <= o.now
    modifies l, l.ring, l.ring.buckets, r
    ensures InLockstep(l, r, rules, past + [o])
    ensures local == LocalStarts(rules, past + [o], |past|) && redis == RedisStarts(rules, past + [o], |past|)
  {
    LogGrows(past, o);
    local := l.ReportFailure(o.now, o.what.err, o.what.single);
    redis := r.RecordFailure(o.now / SECOND, o.what.err, o.what.single);
  }

  method FeedBoth(l: LocalStats, r: RedisStats, rules: Rules, ghost past: seq<Occurrence>, o: Occurrence)
    returns (local: bool, redis: bool)
    requires InLockstep(l, r, rules, past) && rules.singleMinRequests == SINGLE_MIN_REQUESTS
    requires past != [] ==> past[|past| - 1].now <= o.now
    modifies l, l.ring, l.ring.buckets, r
    ensures InLockstep(l, r, rules, past + [o])
    ensures local == LocalStarts(rules, past + [o], |past|) && redis == RedisStarts(rules, past + [o], |past|)
  {
    if o.what.Succeeded? {
      FeedSuccess(l, r, rules, past, o);
      return false, false;
    }
    local, redis := FeedFailure(l, r, rules, past, o);
  }

  /** The decisions recorded so far are the ones the two rules prescribe. */
  ghost predicate Decided(rules: Rules, history: seq<Occurrence>, local: seq<bool>, redis: seq<bool>) {
    && |local| == |redis| == |history|
    && (forall i :: 0 <= i < |history| ==> local[i] == LocalStarts(rules, history, i))
    && (forall i :: 0 <= i < |history| ==> redis[i] == RedisStarts(rules, history, i))
  }

  lemma DecidedSnoc(rules: Rules, history: seq<Occurrence>, o: Occurrence, local: seq<bool>, redis: seq<bool>,
                    a: bool, b: bool)
    requires Decided(rules, history, local, redis)
    requires a == LocalStarts(rules, history + [o], |history|) && b == RedisStarts(rules, history + [o], |history|)
    ensures Decided(rules, history + [o], local + [a], redis + [b])
  {
    var more := history + [o];
    forall i | 0 <= i < |history|
      ensures LocalStarts(rules, more, i) == LocalStarts(rules, history, i)
      ensures RedisStarts(rules, more, i) == RedisStarts(rules, history, i)
    {
      assert more[..i + 1] == history[..i + 1];
      StartsOnPrefix(rules, more, i);
      StartsOnPrefix(rules, history, i);
    }
  }

  lemma StartsOnPrefix(rules: Rules, history: seq<Occurrence>, i: nat)
    requires i < |history|
    ensures LocalStarts(rules, history[..i + 1], i) == LocalStarts(rules, history, i)
    ensures RedisStarts(rules, history[..i + 1], i) == RedisStarts(rules, history, i)
  {
    assert history[..i + 1][..i + 1] == history[..i + 1];
  }

  /** Feeds one history to in-memory stats and to a Redis store with the same rules and the default
      window: the decisions are those of LocalStarts and RedisStarts, which AgreeIff compares, and the same
      throughout with a period of a second or more and no wrapped error. */
  method DecideAlike(rules: Rules, history: seq<Occurrence>) returns (local: seq<bool>, redis: seq<bool>)
    requires ClockRuns(history) && rules.singleMinRequests == SINGLE_MIN_REQUESTS
    ensures Decided(rules, history, local, redis)
    ensures rules.cooldownPeriod >= SECOND && NoneWrapped(history) ==> local == redis
  {
    local, redis := [], [];
    var l := new LocalStats(rules);
    var r := new RedisStats(rules, 0, 0);
    for i := 0 to |history|
      invariant InLockstep(l, r, rules, history[..i]) && Decided(rules, history[..i], local, redis)
      invariant fresh(l) && fresh(r) && fresh(l.ring) && fresh(l.ring.buckets)
    {
      assert history[..i] + [history[i]] == history[..i + 1];
      var a, b := FeedBoth(l, r, rules, history[..i], history[i]);
      DecidedSnoc(rules, history[..i], history[i], local, redis, a, b);
      local, redis := local + [a], redis + [b];
    }
    assert history[..|history|] == history;
    SameDecisions(rules, history, local, redis);
  }

  ghost predicate NoneWrapped(history: seq<Occurrence>) {
    forall i :: 0 <= i < |history| && history[i].what.FailedWith? ==> !history[i].what.err.Wrapped?
  }

  lemma SameDecisions(rules: Rules, history: seq<Occurrence>, local: seq<bool>, redis: seq<bool>)
    requires Decided(rules, history, local, redis)
    ensures rules.cooldownPeriod >= SECOND && NoneWrapped(history) ==> local == redis
  {
    forall i | 0 <= i < |history| && rules.cooldownPeriod >= SECOND && NoneWrapped(history)
      ensures local[i] == redis[i]
    {
      if history[i].what.FailedWith? {
        AgreeIff(rules, history, i);
      }
    }
  }
}
