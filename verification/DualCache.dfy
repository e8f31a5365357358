/** caches/dual/dual.go: instances with a local tier each, sharing one remote tier. */
module DualCache {
  import opened Options
  import opened MemoryCache

  // ---------------------------------------------------------------- the remote tier and its history

  datatype RemoteEntry = RemoteEntry(value: Value, expiresAt: nat)

  type Contents = map<string, RemoteEntry>

  /** The remote tier's contents from a moment on, until the next snapshot. */
  datatype Snapshot = Snapshot(time: nat, contents: Contents)

  ghost predicate Shows(s: Snapshot, key: string, value: Value, at: int) {
    s.time <= at && key in s.contents && s.contents[key].value == value && at < s.contents[key].expiresAt
  }

  /** At instant `at` the remote value of `key` was `value`. */
  ghost predicate HeldAt(history: seq<Snapshot>, key: string, value: Value, at: int) {
    exists i :: 0 <= i < |history| && Shows(history[i], key, value, at) && Until(history, i, at)
  }

  /** Snapshot `i` was the latest until `at`. */
  ghost predicate Until(history: seq<Snapshot>, i: nat, at: int) {
    i + 1 < |history| ==> at <= history[i + 1].time
  }

  /** At some instant no longer than `ttl` before `now`, the remote value of `key` was `value`. */
  ghost predicate Recent(history: seq<Snapshot>, key: string, value: Value, now: int, ttl: int) {
    exists at :: now - ttl < at <= now && HeldAt(history, key, value, at)
  }

  /** Every value in the answer to a request at `now` was its key's remote value less than `ttl` before. */
  ghost predicate AllRecent(history: seq<Snapshot>, answer: map<string, Value>, now: int, ttl: int) {
    forall k <- answer :: Recent(history, k, answer[k], now, ttl)
  }

  lemma OneMoreRecent(history: seq<Snapshot>, answer: map<string, Value>, now: int, ttl: int, key: string, value: Value)
    requires AllRecent(history, answer, now, ttl) && Recent(history, key, value, now, ttl)
    ensures AllRecent(history, answer[key := value], now, ttl)
  {
  }

  /** `longer` goes on from `history` with snapshots taken at `now`. */
  ghost predicate Extends(history: seq<Snapshot>, longer: seq<Snapshot>, now: nat) {
    && |history| <= |longer| && longer[..|history|] == history
    && forall i :: |history| <= i < |longer| ==> longer[i].time == now
  }

  lemma ExtendsItself(history: seq<Snapshot>, now: nat)
    ensures Extends(history, history, now)
  {
    assert history[..|history|] == history;
  }

  lemma HeldStays(history: seq<Snapshot>, longer: seq<Snapshot>, now: nat, key: string, value: Value, at: int)
    requires HeldAt(history, key, value, at) && at <= now && Extends(history, longer, now)
    ensures HeldAt(longer, key, value, at)
  {
    var i :| 0 <= i < |history| && Shows(history[i], key, value, at) && Until(history, i, at);
    assert longer[i] == history[i];
    assert i + 1 < |history| ==> longer[i + 1] == history[i + 1];
    assert Until(longer, i, at);
  }

  lemma HeldLast(history: seq<Snapshot>, key: string, value: Value, at: int)
    requires history != [] && Shows(history[|history| - 1], key, value, at)
    ensures HeldAt(history, key, value, at)
  {
    assert Until(history, |history| - 1, at);
  }

  ghost predicate Alive(contents: Contents, k: string, now: int) {
    k in contents && now < contents[k].expiresAt
  }

  ghost predicate FoundAt(contents: Contents, keys: seq<string>, n: nat, now: int, found: map<string, Value>,
                          k: string)
    requires n <= |keys|
  {
    && (k in found <==> k in keys[..n] && Alive(contents, k, now))
    && (k in found ==> found[k] == contents[k].value)
  }

  /** `found` has exactly those of the first `n` keys that have not expired, with their values. */
  ghost predicate AllFound(contents: Contents, keys: seq<string>, n: nat, now: int, found: map<string, Value>)
    requires n <= |keys|
  {
    forall k {:trigger FoundAt(contents, keys, n, now, found, k)} :: FoundAt(contents, keys, n, now, found, k)
  }

  lemma FoundOne(contents: Contents, keys: seq<string>, i: nat, now: int, found: map<string, Value>,
                 value: Option<Value>)
    requires i < |keys| && AllFound(contents, keys, i, now, found)
    requires value == if Alive(contents, keys[i], now) then Some(contents[keys[i]].value) else None
    ensures AllFound(contents, keys, i + 1, now, if value.Some? then found[keys[i] := value.value] else found)
  {
    var n, more := i + 1, if value.Some? then found[keys[i] := value.value] else found;
    forall k
      ensures FoundAt(contents, keys, n, now, more, k)
    {
      assert FoundAt(contents, keys, i, now, found, k);
      assert keys[..n] == keys[..i] + [keys[i]];
    }
  }

  ghost predicate AllHeld(history: seq<Snapshot>, found: map<string, Value>, at: int) {
    forall k <- found :: HeldAt(history, k, found[k], at)
  }

  class Remote {
    const defaultTTL: nat
    var contents: Contents
    ghost var history: seq<Snapshot>
    var clock: nat                       // the time all instances share, as of the latest operation

    ghost predicate Valid()
      reads this
    {
      && defaultTTL > 0
      && history != [] && history[|history| - 1].contents == contents && history[|history| - 1].time <= clock
    }

    constructor (defaultTTL: nat)
      requires defaultTTL > 0
      ensures Valid() && history == [Snapshot(0, map[])] && clock == 0
    {
      this.defaultTTL := defaultTTL;
      contents, history, clock := map[], [Snapshot(0, map[])], 0;
    }

    predicate Has(key: string, now: nat)
      reads this
    {
      key in contents && now < contents[key].expiresAt
    }

    method Get(key: string) returns (value: Option<Value>)
      requires Valid()
      ensures value.Some? <==> Has(key, clock)
      ensures value.Some? ==> value.value == contents[key].value && HeldAt(history, key, value.value, clock)
    {
      if key in contents && clock < contents[key].expiresAt {
        HeldLast(history, key, contents[key].value, clock);
        return Some(contents[key].value);
      }
      return None;
    }

    method GetMulti(keys: seq<string>) returns (found: map<string, Value>)
      requires Valid()
      ensures AllFound(contents, keys, |keys|, clock, found)
      ensures AllHeld(history, found, clock)
    {
      found := map[];
      for i := 0 to |keys|
        invariant AllFound(contents, keys, i, clock, found)
        invariant AllHeld(history, found, clock)
      {
        var value := Get(keys[i]);
        FoundOne(contents, keys, i, clock, found, value);
        if value.Some? {
          found := found[keys[i] := value.value];
        }
      }
    }

    method Set(key: string, value: Value, ttl: int)
      requires Valid()
      modifies this`contents, this`history
      ensures Valid() && HeldAt(history, key, value, clock) && Extends(old(history), history, clock)
      ensures contents == old(contents)[key := RemoteEntry(value, clock + if ttl <= 0 then defaultTTL else ttl)]
    {
      contents := contents[key := RemoteEntry(value, clock + if ttl <= 0 then defaultTTL else ttl)];
      history := history + [Snapshot(clock, contents)];
      HeldLast(history, key, value, clock);
    }

    method Delete(key: string)
      requires Valid()
      modifies this`contents, this`history
      ensures Valid() && contents == old(contents) - {key} && Extends(old(history), history, clock)
    {
      contents := contents - {key};
      history := history + [Snapshot(clock, contents)];
    }
  }

  // ---------------------------------------------------------------- how fresh a local tier is

  /** Every local entry was the remote value at the instant its time to live began. */
  ghost predicate Fresh(data: map<string, Entry>, history: seq<Snapshot>, ttl: nat, clock: nat) {
    forall k <- data :: FreshEntry(k, data[k], history, ttl, clock)
  }

  ghost predicate FreshEntry(key: string, e: Entry, history: seq<Snapshot>, ttl: nat, clock: nat) {
    e.expiration - ttl <= clock && HeldAt(history, key, e.value, e.expiration - ttl)
  }

  lemma FreshStays(data: map<string, Entry>, history: seq<Snapshot>, longer: seq<Snapshot>, ttl: nat, clock: nat,
                   now: nat)
    requires Fresh(data, history, ttl, clock) && clock <= now && Extends(history, longer, now)
    ensures Fresh(data, longer, ttl, now)
  {
    forall k | k in data
      ensures FreshEntry(k, data[k], longer, ttl, now)
    {
      assert FreshEntry(k, data[k], history, ttl, clock);
      HeldStays(history, longer, now, k, data[k].value, data[k].expiration - ttl);
    }
  }

  lemma HitIsRecent(data: map<string, Entry>, history: seq<Snapshot>, ttl: nat, now: nat, key: string)
    requires Fresh(data, history, ttl, now) && key in data && data[key].expiration > now
    ensures Recent(history, key, data[key].value, now, ttl)
  {
    assert FreshEntry(key, data[key], history, ttl, now);
  }

  /** A local entry that has not expired. */
  ghost predicate Hit(data: map<string, Entry>, k: string, now: int) {
    k in data && data[k].expiration > now
  }

  ghost predicate Stores(data: map<string, Entry>, key: string, entry: Entry) {
    key in data && data[key] == entry
  }

  /** Everything in `after` was in `before`, or is the new entry. */
  ghost predicate AtMostAdds(before: map<string, Entry>, after: map<string, Entry>, key: string, entry: Entry) {
    forall k <- after :: (k in before && after[k] == before[k]) || (k == key && after[k] == entry)
  }

  lemma AddedIsFresh(before: map<string, Entry>, after: map<string, Entry>, key: string, value: Value,
                     history: seq<Snapshot>, ttl: nat, clock: nat)
    requires Fresh(before, history, ttl, clock) && HeldAt(history, key, value, clock)
    requires AtMostAdds(before, after, key, Entry(value, clock + ttl))
    ensures Fresh(after, history, ttl, clock)
  {
    forall k | k in after
      ensures FreshEntry(k, after[k], history, ttl, clock)
    {
      assert k in before && after[k] == before[k] ==> FreshEntry(k, before[k], history, ttl, clock);
    }
  }

  /** The local tier is written before the remote one. */
  lemma WrittenIsFresh(before: map<string, Entry>, after: map<string, Entry>, key: string, value: Value,
                       earlier: seq<Snapshot>, history: seq<Snapshot>, ttl: nat, clock: nat)
    requires Fresh(before, earlier, ttl, clock) && Extends(earlier, history, clock)
    requires HeldAt(history, key, value, clock) && AtMostAdds(before, after, key, Entry(value, clock + ttl))
    ensures Fresh(after, history, ttl, clock)
  {
    FreshStays(before, earlier, history, ttl, clock, clock);
    AddedIsFresh(before, after, key, value, history, ttl, clock);
  }

  lemma FewerAreFresh(before: map<string, Entry>, after: map<string, Entry>, history: seq<Snapshot>, ttl: nat,
                      clock: nat)
    requires Fresh(before, history, ttl, clock) && Submap(after, before)
    ensures Fresh(after, history, ttl, clock)
  {
    forall k | k in after
      ensures FreshEntry(k, after[k], history, ttl, clock)
    {
      assert FreshEntry(k, before[k], history, ttl, clock);
    }
  }

  /** A value found and put in is there, unless it is too large or gave way to a later one. */
  ghost predicate PutAt(after: map<string, Entry>, found: map<string, Value>, done: set<string>, victims: set<string>,
                        expiration: int, maxItemSize: nat, k: string)
  {
    k in done && k in found && |found[k]| <= maxItemSize ==>
      k in victims || Stores(after, k, Entry(found[k], expiration))
  }

  /** An entry that was there before still is, unless it was replaced or gave way. */
  ghost predicate StaysAt(before: map<string, Entry>, after: map<string, Entry>, found: map<string, Value>,
                          done: set<string>, victims: set<string>, maxItemSize: nat, k: string)
  {
    k in before ==>
      || (k in done && k in found && |found[k]| <= maxItemSize)
      || k in victims || Stores(after, k, before[k])
  }

  /** The local tier, `before` until then, after the values of `done` among those found were put in: with room nothing
      gives way. */
  ghost predicate Filled(before: map<string, Entry>, after: map<string, Entry>, found: map<string, Value>,
                         done: set<string>, victims: set<string>, expiration: int, maxItemSize: nat, maxSize: nat)
  {
    && |after| <= |before| + |done| && (|before| + |done| <= maxSize ==> victims == {})
    && (forall k {:trigger PutAt(after, found, done, victims, expiration, maxItemSize, k)} ::
          PutAt(after, found, done, victims, expiration, maxItemSize, k))
    && (forall k {:trigger StaysAt(before, after, found, done, victims, maxItemSize, k)} ::
          StaysAt(before, after, found, done, victims, maxItemSize, k))
  }

  /** A write leaves every other entry, but for one that gives way. */
  ghost predicate LeavesAt(mid: map<string, Entry>, after: map<string, Entry>, key: string, victim: Option<string>,
                           k: string)
  {
    k in mid && k != key ==> victim == Some(k) || Stores(after, k, mid[k])
  }

  /** A write puts its entry in and, at capacity only, makes one other give way; an oversized one changes nothing. */
  ghost predicate Puts(mid: map<string, Entry>, after: map<string, Entry>, key: string, entry: Entry,
                       victim: Option<string>, maxItemSize: nat, maxSize: nat)
  {
    && |after| <= |mid| + 1 && (victim.Some? ==> |mid| >= maxSize)
    && (if |entry.value| <= maxItemSize then Stores(after, key, entry)
        else victim == None && (key in mid ==> Stores(after, key, mid[key])))
    && (forall k {:trigger LeavesAt(mid, after, key, victim, k)} :: LeavesAt(mid, after, key, victim, k))
  }

  /** An entry that has not expired is still there, unless it gave way. */
  ghost predicate SparedAt(before: map<string, Entry>, after: map<string, Entry>, victim: Option<string>, now: int,
                           k: string)
  {
    Hit(before, k, now) ==> victim == Some(k) || Stores(after, k, before[k])
  }

  ghost predicate AllSpared(before: map<string, Entry>, after: map<string, Entry>, victim: Option<string>, now: int) {
    forall k {:trigger SparedAt(before, after, victim, now, k)} :: SparedAt(before, after, victim, now, k)
  }

  lemma SparedBoth(before: map<string, Entry>, mid: map<string, Entry>, after: map<string, Entry>, key: string,
                   victim: Option<string>, now: int)
    requires Unexpired(mid, now) == Unexpired(before, now)
    requires after != mid ==>
      !Hit(before, key, now) &&
      forall k {:trigger LeavesAt(mid, after, key, victim, k)} :: LeavesAt(mid, after, key, victim, k)
    ensures AllSpared(before, after, victim, now)
  {
    forall k
      ensures SparedAt(before, after, victim, now, k)
    {
      if Hit(before, k, now) {
        assert k in Unexpired(before, now);
        assert k in Unexpired(mid, now) && mid[k] == before[k];
        assert after != mid ==> LeavesAt(mid, after, key, victim, k);
      }
    }
  }

  lemma SetPuts(mid: map<string, Entry>, after: map<string, Entry>, key: string, entry: Entry, victim: Option<string>,
                maxItemSize: nat, maxSize: nat)
    requires if |entry.value| > maxItemSize then after == mid && victim == None
      else GivesWay(mid, victim, maxSize) && after == Kept(mid, victim)[key := entry]
    ensures Puts(mid, after, key, entry, victim, maxItemSize, maxSize)
  {
    GrowsByOne(mid, after, key);
  }

  /** Of all keys, `done` are done and `rest` are left. */
  ghost predicate Left(all: set<string>, done: set<string>, rest: set<string>) {
    done <= all && rest == all - done
  }

  lemma OneDone(all: set<string>, done: set<string>, rest: set<string>, key: string)
    requires Left(all, done, rest) && key in rest
    ensures key in all && key !in done && Left(all, done + {key}, rest - {key})
  {
  }

  lemma AllDone(all: set<string>, done: set<string>)
    requires Left(all, done, {})
    ensures done == all
  {
    forall k | k in all
      ensures k in done
    {
      assert k !in all - done;
    }
  }

  /** The hits, and what was found for the keys asked for. */
  ghost predicate AddedAt(contents: Contents, queried: set<string>, now: int, hits: map<string, Value>,
                          result: map<string, Value>, k: string)
  {
    && (k in result <==> k in hits || (k in queried && Alive(contents, k, now)))
    && (k in result ==> result[k] == if k in hits then hits[k] else contents[k].value)
  }

  ghost predicate AllAdded(contents: Contents, queried: set<string>, now: int, hits: map<string, Value>,
                           result: map<string, Value>)
  {
    forall k {:trigger AddedAt(contents, queried, now, hits, result, k)} ::
      AddedAt(contents, queried, now, hits, result, k)
  }

  /** `queried` are exactly the keys of the list. */
  ghost predicate SameKeys(queried: set<string>, keys: seq<string>) {
    forall k :: k in queried <==> k in keys
  }

  lemma FoundIsAdded(contents: Contents, keys: seq<string>, queried: set<string>, now: int, hits: map<string, Value>,
                     found: map<string, Value>)
    requires AllFound(contents, keys, |keys|, now, found) && SameKeys(queried, keys) && hits.Keys !! queried
    ensures AllAdded(contents, queried, now, hits, hits + found)
    ensures found.Keys <= (hits + found).Keys && (hits + found).Keys * queried == found.Keys
    ensures forall k <- found :: (hits + found)[k] == found[k]
  {
    var result := hits + found;
    forall k
      ensures AddedAt(contents, queried, now, hits, result, k) && (k in result && k in queried <==> k in found)
    {
      assert FoundAt(contents, keys, |keys|, now, found, k);
      assert keys[..|keys|] == keys;
    }
  }

  lemma FilledFrom(before: map<string, Entry>, after: map<string, Entry>, found: map<string, Value>,
                   more: map<string, Value>, victims: set<string>, expiration: int, maxItemSize: nat, maxSize: nat)
    requires Filled(before, after, found, found.Keys, victims, expiration, maxItemSize, maxSize)
    requires found.Keys <= more.Keys && forall k <- found :: more[k] == found[k]
    ensures Filled(before, after, more, found.Keys, victims, expiration, maxItemSize, maxSize)
  {
    forall k
      ensures PutAt(after, more, found.Keys, victims, expiration, maxItemSize, k)
      ensures StaysAt(before, after, more, found.Keys, victims, maxItemSize, k)
    {
      assert PutAt(after, found, found.Keys, victims, expiration, maxItemSize, k);
      assert StaysAt(before, after, found, found.Keys, victims, maxItemSize, k);
    }
  }

  lemma NothingFilled(data: map<string, Entry>, found: map<string, Value>, expiration: int, maxItemSize: nat,
                      maxSize: nat)
    ensures Filled(data, data, found, {}, {}, expiration, maxItemSize, maxSize)
  {
  }

  ghost function AsSet(victim: Option<string>): set<string> {
    if victim.Some? then {victim.value} else {}
  }

  lemma FilledOne(before: map<string, Entry>, mid: map<string, Entry>, after: map<string, Entry>,
                  found: map<string, Value>, done: set<string>, victims: set<string>, key: string,
                  victim: Option<string>, expiration: int, maxItemSize: nat, maxSize: nat)
    requires Filled(before, mid, found, done, victims, expiration, maxItemSize, maxSize)
    requires key in found && key !in done
    requires Puts(mid, after, key, Entry(found[key], expiration), victim, maxItemSize, maxSize)
    ensures Filled(before, after, found, done + {key}, victims + AsSet(victim), expiration, maxItemSize, maxSize)
  {
    var all, more := done + {key}, victims + AsSet(victim);
    forall k
      ensures PutAt(after, found, all, more, expiration, maxItemSize, k)
      ensures StaysAt(before, after, found, all, more, maxItemSize, k)
    {
      assert PutAt(mid, found, done, victims, expiration, maxItemSize, k);
      assert StaysAt(before, mid, found, done, victims, maxItemSize, k);
      assert LeavesAt(mid, after, key, victim, k);
    }
  }

  /** A batch entry. */
  datatype Item = Item(key: string, value: Value, ttl: int)

  ghost predicate HeldItem(history: seq<Snapshot>, it: Item, at: int) {
    HeldAt(history, it.key, it.value, at)
  }

  /** The remote tier held each of the first `n` entries at `at`. */
  ghost predicate HeldAll(history: seq<Snapshot>, batch: seq<Item>, n: nat, at: int)
    requires n <= |batch|
  {
    forall j :: 0 <= j < n ==> HeldItem(history, batch[j], at)
  }

  lemma HeldOneMore(history: seq<Snapshot>, longer: seq<Snapshot>, batch: seq<Item>, n: nat, now: nat)
    requires n < |batch| && HeldAll(history, batch, n, now) && Extends(history, longer, now)
    requires HeldItem(longer, batch[n], now)
    ensures HeldAll(longer, batch, n + 1, now)
  {
    forall j | 0 <= j < n
      ensures HeldItem(longer, batch[j], now)
    {
      assert HeldItem(history, batch[j], now);
      HeldStays(history, longer, now, batch[j].key, batch[j].value, now);
    }
  }

  /** Everything in `after` was in `before`, or comes from the first `n` entries of the batch. */
  ghost predicate AddsFrom(before: map<string, Entry>, after: map<string, Entry>, batch: seq<Item>, n: nat,
                           expiration: int)
    requires n <= |batch|
  {
    forall k <- after :: (k in before && after[k] == before[k]) || FromBatch(batch, n, k, after[k], expiration)
  }

  ghost predicate FromBatch(batch: seq<Item>, n: nat, k: string, e: Entry, expiration: int)
    requires n <= |batch|
  {
    exists j :: 0 <= j < n && IsItem(batch[j], k, e, expiration)
  }

  ghost predicate IsItem(it: Item, k: string, e: Entry, expiration: int) {
    it.key == k && e == Entry(it.value, expiration)
  }

  lemma BatchStep(before: map<string, Entry>, mid: map<string, Entry>, after: map<string, Entry>, batch: seq<Item>,
                  i: nat, expiration: int)
    requires i < |batch| && AddsFrom(before, mid, batch, i, expiration)
    requires AtMostAdds(mid, after, batch[i].key, Entry(batch[i].value, expiration))
    ensures AddsFrom(before, after, batch, i + 1, expiration)
  {
    forall k | k in after && !(k in before && after[k] == before[k])
      ensures FromBatch(batch, i + 1, k, after[k], expiration)
    {
      if k in mid && after[k] == mid[k] {
        var j :| 0 <= j < i && IsItem(batch[j], k, after[k], expiration);
      } else {
        assert IsItem(batch[i], k, after[k], expiration);
      }
    }
  }

  lemma BatchIsFresh(before: map<string, Entry>, after: map<string, Entry>, batch: seq<Item>, history: seq<Snapshot>,
                     ttl: nat, clock: nat)
    requires Fresh(before, history, ttl, clock) && AddsFrom(before, after, batch, |batch|, clock + ttl)
    requires HeldAll(history, batch, |batch|, clock)
    ensures Fresh(after, history, ttl, clock)
  {
    forall k | k in after
      ensures FreshEntry(k, after[k], history, ttl, clock)
    {
      if k in before && after[k] == before[k] {
        assert FreshEntry(k, before[k], history, ttl, clock);
      } else {
        var j :| 0 <= j < |batch| && IsItem(batch[j], k, after[k], clock + ttl);
        assert HeldItem(history, batch[j], clock);
      }
    }
  }

  /** None of the entries from `m` on, before `n`, is for `k` and small enough. */
  ghost predicate NoneFits(batch: seq<Item>, m: nat, n: nat, k: string, maxItemSize: nat)
    requires n <= |batch|
  {
    forall j :: m <= j < n ==> batch[j].key != k || |batch[j].value| > maxItemSize
  }

  /** An entry that is small enough, the last of those for its key, is there unless it gave way. */
  ghost predicate ItemIn(after: map<string, Entry>, batch: seq<Item>, n: nat, victims: set<string>, until: int,
                         maxItemSize: nat, i: nat)
    requires i < n <= |batch|
  {
    |batch[i].value| <= maxItemSize && NoneFits(batch, i + 1, n, batch[i].key, maxItemSize) ==>
      batch[i].key in victims || Stores(after, batch[i].key, Entry(batch[i].value, until))
  }

  ghost predicate ItemsIn(after: map<string, Entry>, batch: seq<Item>, n: nat, victims: set<string>, until: int,
                          maxItemSize: nat)
    requires n <= |batch|
  {
    forall i {:trigger ItemIn(after, batch, n, victims, until, maxItemSize, i)} ::
      0 <= i < n ==> ItemIn(after, batch, n, victims, until, maxItemSize, i)
  }

  /** What was there before still is, unless an entry replaced it or it gave way. */
  ghost predicate StaysIn(before: map<string, Entry>, after: map<string, Entry>, batch: seq<Item>, n: nat,
                          victims: set<string>, maxItemSize: nat, k: string)
    requires n <= |batch|
  {
    k in before && NoneFits(batch, 0, n, k, maxItemSize) ==> k in victims || Stores(after, k, before[k])
  }

  /** The local tier, `before` until then, after the first `n` entries; with room nothing gives way. */
  ghost predicate BatchIn(before: map<string, Entry>, after: map<string, Entry>, batch: seq<Item>, n: nat,
                          victims: set<string>, until: int, maxItemSize: nat, maxSize: nat)
    requires n <= |batch|
  {
    && |after| <= |before| + n && (|before| + n <= maxSize ==> victims == {})
    && ItemsIn(after, batch, n, victims, until, maxItemSize)
    && (forall k {:trigger StaysIn(before, after, batch, n, victims, maxItemSize, k)} ::
          StaysIn(before, after, batch, n, victims, maxItemSize, k))
  }

  lemma NothingIn(data: map<string, Entry>, batch: seq<Item>, until: int, maxItemSize: nat, maxSize: nat)
    ensures AddsFrom(data, data, batch, 0, until) && BatchIn(data, data, batch, 0, {}, until, maxItemSize, maxSize)
  {
  }

  lemma FitsOne(batch: seq<Item>, m: nat, n: nat, k: string, maxItemSize: nat)
    requires m <= n < |batch|
    ensures NoneFits(batch, m, n + 1, k, maxItemSize) <==>
      NoneFits(batch, m, n, k, maxItemSize) && (batch[n].key != k || |batch[n].value| > maxItemSize)
  {
  }

  lemma ItemInOne(mid: map<string, Entry>, after: map<string, Entry>, batch: seq<Item>, n: nat, victims: set<string>,
                  victim: Option<string>, until: int, maxItemSize: nat, maxSize: nat, i: nat)
    requires i < n < |batch| && ItemIn(mid, batch, n, victims, until, maxItemSize, i)
    requires Puts(mid, after, batch[n].key, Entry(batch[n].value, until), victim, maxItemSize, maxSize)
    ensures ItemIn(after, batch, n + 1, victims + AsSet(victim), until, maxItemSize, i)
  {
    FitsOne(batch, i + 1, n, batch[i].key, maxItemSize);
    assert LeavesAt(mid, after, batch[n].key, victim, batch[i].key);
  }

  lemma ItemsInOne(mid: map<string, Entry>, after: map<string, Entry>, batch: seq<Item>, n: nat, victims: set<string>,
                   victim: Option<string>, until: int, maxItemSize: nat, maxSize: nat)
    requires n < |batch| && ItemsIn(mid, batch, n, victims, until, maxItemSize)
    requires Puts(mid, after, batch[n].key, Entry(batch[n].value, until), victim, maxItemSize, maxSize)
    ensures ItemsIn(after, batch, n + 1, victims + AsSet(victim), until, maxItemSize)
  {
    var m, more := n + 1, victims + AsSet(victim);
    forall i | 0 <= i < m
      ensures ItemIn(after, batch, m, more, until, maxItemSize, i)
    {
      if i < n {
        assert ItemIn(mid, batch, n, victims, until, maxItemSize, i);
        ItemInOne(mid, after, batch, n, victims, victim, until, maxItemSize, maxSize, i);
      }
    }
  }

  lemma StaysInOne(before: map<string, Entry>, mid: map<string, Entry>, after: map<string, Entry>, batch: seq<Item>,
                   n: nat, victims: set<string>, victim: Option<string>, until: int, maxItemSize: nat, maxSize: nat,
                   k: string)
    requires n < |batch| && StaysIn(before, mid, batch, n, victims, maxItemSize, k)
    requires Puts(mid, after, batch[n].key, Entry(batch[n].value, until), victim, maxItemSize, maxSize)
    ensures StaysIn(before, after, batch, n + 1, victims + AsSet(victim), maxItemSize, k)
  {
    FitsOne(batch, 0, n, k, maxItemSize);
    assert LeavesAt(mid, after, batch[n].key, victim, k);
  }

  lemma BatchInOne(before: map<string, Entry>, mid: map<string, Entry>, after: map<string, Entry>, batch: seq<Item>,
                   n: nat, victims: set<string>, victim: Option<string>, until: int, maxItemSize: nat, maxSize: nat)
    requires n < |batch| && BatchIn(before, mid, batch, n, victims, until, maxItemSize, maxSize)
    requires Puts(mid, after, batch[n].key, Entry(batch[n].value, until), victim, maxItemSize, maxSize)
    ensures BatchIn(before, after, batch, n + 1, victims + AsSet(victim), until, maxItemSize, maxSize)
  {
    var m, more := n + 1, victims + AsSet(victim);
    ItemsInOne(mid, after, batch, n, victims, victim, until, maxItemSize, maxSize);
    forall k
      ensures StaysIn(before, after, batch, m, more, maxItemSize, k)
    {
      assert StaysIn(before, mid, batch, n, victims, maxItemSize, k);
      StaysInOne(before, mid, after, batch, n, victims, victim, until, maxItemSize, maxSize, k);
    }
  }

  /** Of the first `n` entries of a batch, the last for each key is what the remote tier holds; other keys keep
      what they had. */
  ghost predicate Written(batch: seq<Item>, n: nat, before: map<string, RemoteEntry>, after: map<string, RemoteEntry>,
                          now: nat, defaultTTL: nat)
    requires n <= |batch|
  {
    && (forall i :: 0 <= i < n && LastFor(batch, i, n) ==> Holds(after, batch[i], now, defaultTTL))
    && (forall k :: NotIn(batch, n, k) ==> SameAt(before, after, k))
  }

  /** The entry of the batch, for its time to live or the default. */
  ghost predicate Holds(contents: map<string, RemoteEntry>, it: Item, now: nat, defaultTTL: nat) {
    it.key in contents && contents[it.key] == RemoteEntry(it.value, now + if it.ttl <= 0 then defaultTTL else it.ttl)
  }

  ghost predicate SameAt(before: map<string, RemoteEntry>, after: map<string, RemoteEntry>, k: string) {
    (k in before <==> k in after) && (k in before ==> after[k] == before[k])
  }

  ghost predicate LastFor(batch: seq<Item>, i: nat, n: nat)
    requires i < n <= |batch|
  {
    forall j :: i < j < n ==> batch[j].key != batch[i].key
  }

  ghost predicate NotIn(batch: seq<Item>, n: nat, k: string)
    requires n <= |batch|
  {
    forall i :: 0 <= i < n ==> batch[i].key != k
  }

  lemma WrittenOne(batch: seq<Item>, n: nat, before: map<string, RemoteEntry>, mid: map<string, RemoteEntry>,
                   after: map<string, RemoteEntry>, now: nat, defaultTTL: nat)
    requires n < |batch| && Written(batch, n, before, mid, now, defaultTTL)
    requires Holds(after, batch[n], now, defaultTTL) && forall k :: k != batch[n].key ==> SameAt(mid, after, k)
    ensures Written(batch, n + 1, before, after, now, defaultTTL)
  {
    forall i | 0 <= i < n + 1 && LastFor(batch, i, n + 1)
      ensures Holds(after, batch[i], now, defaultTTL)
    {
      if i < n {
        assert LastFor(batch, i, n) && SameAt(mid, after, batch[i].key);
      }
    }
    forall k | NotIn(batch, n + 1, k)
      ensures SameAt(before, after, k)
    {
      assert NotIn(batch, n, k) && SameAt(mid, after, k);
    }
  }

  /** One instance of the cache. */
  class Dual {
    const local: Cache
    const remote: Remote
    const localTTL: nat
    const redisTTL: nat
    const batchThrottleTime: nat
    const maxThrottleEntries: nat
    var lastRedisAccessTime: map<string, nat>

    ghost predicate Valid()
      reads this, local, remote
    {
      && localTTL > 0 && redisTTL > 0
      && local.Valid() && remote.Valid()
      && Fresh(local.data, remote.history, localTTL, remote.clock)
    }

    constructor (local: Cache, remote: Remote, localTTL: int, redisTTL: int, batchThrottleTime: int,
                 maxThrottleEntries: int)
      requires local.Valid() && remote.Valid()
      ensures this.local == local && this.remote == remote && this.redisTTL > 0
      ensures Valid() <==> Fresh(local.data, remote.history, this.localTTL, remote.clock)
      ensures local.data == map[] ==> Valid()
      ensures this.localTTL == if localTTL <= 0 then 300_000_000_000 else localTTL
      ensures this.batchThrottleTime == (if batchThrottleTime <= 0 then 10_000_000_000 else batchThrottleTime)
      ensures lastRedisAccessTime == map[]
    {
      this.local, this.remote := local, remote;
      this.localTTL := if localTTL <= 0 then 300_000_000_000 else localTTL;
      this.redisTTL := if redisTTL <= 0 then 3_600_000_000_000 else redisTTL;
      this.batchThrottleTime := if batchThrottleTime <= 0 then 10_000_000_000 else batchThrottleTime;
      this.maxThrottleEntries := if maxThrottleEntries <= 0 then 10000 else maxThrottleEntries;
      lastRedisAccessTime := map[];
    }

    /** The value was the remote value less than LocalTTL ago. */
    ghost predicate Current(key: string, value: Value)
      reads remote
    {
      Recent(remote.history, key, value, remote.clock, localTTL)
    }

    ghost predicate AllCurrent(answer: map<string, Value>)
      reads remote
    {
      AllRecent(remote.history, answer, remote.clock, localTTL)
    }

    /** Starts an operation at time `now`. */
    method Tick(now: nat)
      requires Valid() && remote.clock <= now
      modifies remote`clock
      ensures Valid() && remote.clock == now
    {
      FreshStays(local.data, remote.history, remote.history, localTTL, remote.clock, now);
      remote.clock := now;
    }

    /** The local tier after a write of its own: nothing but what was there, or the entry written. */
    method SetLocal(key: string, value: Value, ghost until: int) returns (ghost victim: Option<string>)
      requires localTTL > 0 && local.Valid() && until == remote.clock + localTTL
      modifies local
      ensures local.Valid() && AtMostAdds(old(local.data), local.data, key, Entry(value, until))
      ensures PutsHere(old(local.data), key, Entry(value, until), victim)
    {
      ghost var before := local.data;
      victim := local.Set(key, value, localTTL, remote.clock);
      SetPuts(before, local.data, key, Entry(value, until), victim, local.maxItemSize, local.maxSize);
    }

    /** Puts a value the remote tier holds right now into the local tier. */
    method Backfill(key: string, value: Value, ghost until: int) returns (ghost victim: Option<string>)
      requires Valid() && HeldAt(remote.history, key, value, remote.clock) && until == remote.clock + localTTL
      modifies local
      ensures Valid()
      ensures PutsHere(old(local.data), key, Entry(value, until), victim)
    {
      ghost var before := local.data;
      victim := SetLocal(key, value, until);
      AddedIsFresh(before, local.data, key, value, remote.history, localTTL, remote.clock);
    }

    /** The local value if it has not expired, else the remote one, which is then local for LocalTTL unless it is too
        large; other entries that have not expired stay, but for one that gives way at capacity. */
    method Get(key: string, now: nat) returns (value: Option<Value>, ghost victim: Option<string>)
      requires Valid() && remote.clock <= now
      modifies local, remote`clock
      ensures Valid() && remote.clock == now
      ensures value.Some? ==> Current(key, value.value)
      ensures value ==
        if Hit(old(local.data), key, now) then Some(old(local.data)[key].value)
        else if Alive(remote.contents, key, now) then Some(remote.contents[key].value)
        else None
      ensures value.Some? && !Hit(old(local.data), key, now) && |value.value| <= local.maxItemSize ==>
        Stores(local.data, key, Entry(value.value, Expiry(now)))
      ensures victim.Some? ==> |old(local.data)| >= local.maxSize && !Hit(old(local.data), key, now)
      ensures AllSpared(old(local.data), local.data, victim, now) && |local.data| <= |old(local.data)| + 1
    {
      Tick(now);
      ghost var before := local.data;
      value := GetLocal(key);
      ghost var mid := local.data;
      if value.Some? {
        victim := None;
      } else {
        value, victim := Fetch(key, Expiry(now));
      }
      SparedBoth(before, mid, local.data, key, victim, now);
    }

    method GetLocal(key: string) returns (value: Option<Value>)
      requires Valid()
      modifies local
      ensures Valid() && Submap(local.data, old(local.data))
      ensures value ==
        if Hit(old(local.data), key, remote.clock) then Some(old(local.data)[key].value) else None
      ensures value.Some? ==> Current(key, value.value)
      ensures Unexpired(local.data, remote.clock) == Unexpired(old(local.data), remote.clock)
      ensures |local.data| <= |old(local.data)|
    {
      ghost var before := local.data;
      value := local.Get(key, remote.clock);
      FewerAreFresh(before, local.data, remote.history, localTTL, remote.clock);
      SubsetSize(local.data.Keys, before.Keys);
      if value.Some? {
        HitIsRecent(before, remote.history, localTTL, remote.clock, key);
      }
    }

    /** Writes both tiers, the local one first. */
    method Set(key: string, value: Value, ttl: int, now: nat) returns (ghost victim: Option<string>)
      requires Valid() && remote.clock <= now
      modifies local, remote
      ensures Valid() && remote.clock == now && Extends(old(remote.history), remote.history, now)
      ensures remote.contents ==
        old(remote.contents)[key := RemoteEntry(value, now + if ttl <= 0 then redisTTL else ttl)]
      ensures PutsHere(old(local.data), key, Entry(value, Expiry(now)), victim)
    {
      Tick(now);
      victim := SetBoth(key, value, if ttl <= 0 then redisTTL else ttl, Expiry(now));
    }

    /** What a write does to the local tier. */
    ghost predicate PutsHere(before: map<string, Entry>, key: string, entry: Entry, victim: Option<string>)
      reads local`data
    {
      Puts(before, local.data, key, entry, victim, local.maxItemSize, local.maxSize)
    }

    method SetBoth(key: string, value: Value, ttl: nat, ghost until: int) returns (ghost victim: Option<string>)
      requires Valid() && ttl > 0 && until == remote.clock + localTTL
      modifies local, remote`contents, remote`history
      ensures Valid() && Extends(old(remote.history), remote.history, remote.clock)
      ensures remote.contents == old(remote.contents)[key := RemoteEntry(value, remote.clock + ttl)]
      ensures PutsHere(old(local.data), key, Entry(value, until), victim)
    {
      ghost var before := local.data;
      victim := SetLocal(key, value, until);
      SetShared(key, value, ttl, before);
    }

    /** The write to the remote tier, when the local one, `before` until then, is written already. */
    method SetShared(key: string, value: Value, ttl: nat, ghost before: map<string, Entry>)
      requires localTTL > 0 && redisTTL > 0 && ttl > 0 && local.Valid() && remote.Valid()
      requires Fresh(before, remote.history, localTTL, remote.clock)
      requires AtMostAdds(before, local.data, key, Entry(value, remote.clock + localTTL))
      modifies remote`contents, remote`history
      ensures Valid() && Extends(old(remote.history), remote.history, remote.clock)
      ensures remote.contents == old(remote.contents)[key := RemoteEntry(value, remote.clock + ttl)]
    {
      ghost var earlier := remote.history;
      remote.Set(key, value, ttl);
      WrittenIsFresh(before, local.data, key, value, earlier, remote.history, localTTL, remote.clock);
    }

    method Delete(key: string, now: nat)
      requires Valid() && remote.clock <= now
      modifies local, remote
      ensures Valid() && remote.clock == now && Extends(old(remote.history), remote.history, now)
      ensures local.data == old(local.data) - {key} && remote.contents == old(remote.contents) - {key}
    {
      Tick(now);
      ghost var earlier := remote.history;
      local.Delete(key);
      remote.Delete(key);
      FreshStays(local.data, earlier, remote.history, localTTL, now, now);
    }

    /** A turn of the local tier's clean-up loop. */
    method Cleanup(now: nat)
      requires Valid() && remote.clock <= now
      modifies local, remote
      ensures Valid() && remote.clock == now && remote.history == old(remote.history)
      ensures local.data == Unexpired(old(local.data), now)
    {
      Tick(now);
      ghost var before := local.data;
      local.EvictExpired(now);
      FewerAreFresh(before, local.data, remote.history, localTTL, now);
    }

    /** Writes a batch to the local tier, then to the remote one, in order. A later entry for a key may be
        too large for the local tier, which then keeps an earlier one: the remote tier held that too. */
    method SetPipeline(batch: seq<Item>, now: nat) returns (ghost victims: set<string>)
      requires Valid() && remote.clock <= now
      modifies local, remote
      ensures Valid() && remote.clock == now && Extends(old(remote.history), remote.history, now)
      ensures Written(batch, |batch|, old(remote.contents), remote.contents, remote.clock, remote.defaultTTL)
      ensures BatchIn(old(local.data), local.data, batch, |batch|, victims, Expiry(now), local.maxItemSize,
                      local.maxSize)
    {
      Tick(now);
      ghost var before, earlier := local.data, remote.history;
      victims := SetLocalBatch(batch, Expiry(now));
      SetRemoteBatch(batch);
      FreshStays(before, earlier, remote.history, localTTL, now, now);
      BatchIsFresh(before, local.data, batch, remote.history, localTTL, now);
    }

    /** The first `n` entries of a batch were put into the local tier. */
    ghost predicate BatchHere(before: map<string, Entry>, batch: seq<Item>, n: nat, victims: set<string>, until: int)
      requires n <= |batch|
      reads local`data
    {
      && AddsFrom(before, local.data, batch, n, until)
      && BatchIn(before, local.data, batch, n, victims, until, local.maxItemSize, local.maxSize)
    }

    method SetLocalBatch(batch: seq<Item>, ghost until: int) returns (ghost victims: set<string>)
      requires localTTL > 0 && local.Valid() && until == remote.clock + localTTL
      modifies local
      ensures local.Valid() && BatchHere(old(local.data), batch, |batch|, victims, until)
    {
      victims := {};
      ghost var before := local.data;
      NothingIn(before, batch, until, local.maxItemSize, local.maxSize);
      for i := 0 to |batch|
        invariant local.Valid() && BatchHere(before, batch, i, victims, until)
      {
        victims := SetLocalItem(batch, i, before, victims, until);
      }
    }

    method SetLocalItem(batch: seq<Item>, i: nat, ghost before: map<string, Entry>, ghost victims: set<string>,
                        ghost until: int)
      returns (ghost more: set<string>)
      requires localTTL > 0 && local.Valid() && until == remote.clock + localTTL
      requires i < |batch| && BatchHere(before, batch, i, victims, until)
      modifies local
      ensures local.Valid() && BatchHere(before, batch, i + 1, more, until)
    {
      ghost var mid := local.data;
      ghost var victim := SetLocal(batch[i].key, batch[i].value, until);
      BatchStep(before, mid, local.data, batch, i, until);
      BatchInOne(before, mid, local.data, batch, i, victims, victim, until, local.maxItemSize, local.maxSize);
      more := victims + AsSet(victim);
    }

    method SetRemoteBatch(batch: seq<Item>)
      requires remote.Valid()
      modifies remote`contents, remote`history
      ensures remote.Valid() && Extends(old(remote.history), remote.history, remote.clock)
      ensures HeldAll(remote.history, batch, |batch|, remote.clock)
      ensures Written(batch, |batch|, old(remote.contents), remote.contents, remote.clock, remote.defaultTTL)
    {
      for i := 0 to |batch|
        invariant remote.Valid() && Extends(old(remote.history), remote.history, remote.clock)
        invariant HeldAll(remote.history, batch, i, remote.clock)
        invariant Written(batch, i, old(remote.contents), remote.contents, remote.clock, remote.defaultTTL)
      {
        ghost var earlier, before := remote.history, remote.contents;
        SetRemote(batch[i]);
        WrittenOne(batch, i, old(remote.contents), before, remote.contents, remote.clock, remote.defaultTTL);
        HeldOneMore(earlier, remote.history, batch, i, remote.clock);
      }
    }

    method SetRemote(it: Item)
      requires remote.Valid()
      modifies remote`contents, remote`history
      ensures remote.Valid() && Extends(old(remote.history), remote.history, remote.clock)
      ensures HeldItem(remote.history, it, remote.clock)
      ensures Holds(remote.contents, it, remote.clock, remote.defaultTTL)
      ensures forall k :: k != it.key ==> SameAt(old(remote.contents), remote.contents, k)
    {
      remote.Set(it.key, it.value, it.ttl);
    }

    /** A key asked for less than BatchThrottleTime ago is not asked for again. */
    predicate Throttled(times: map<string, nat>, key: string, now: nat) {
      key in times && now - times[key] < batchThrottleTime
    }

    method FilterThrottledKeys(keys: seq<string>) returns (result: seq<string>)
      ensures forall k :: k in result <==> k in keys && !Throttled(lastRedisAccessTime, k, remote.clock)
    {
      result := [];
      for i := 0 to |keys|
        invariant forall k :: k in result <==> k in keys[..i] && !Throttled(lastRedisAccessTime, k, remote.clock)
      {
        assert keys[..i + 1] == keys[..i] + [keys[i]];
        if keys[i] !in lastRedisAccessTime || remote.clock - lastRedisAccessTime[keys[i]] >= batchThrottleTime {
          result := result + [keys[i]];
        }
      }
      assert keys[..|keys|] == keys;
    }

    /** Forgets the access times further back than twice the throttle time, so no key is throttled any differently from
        now on. */
    method CleanupThrottleMap()
      modifies this`lastRedisAccessTime
      ensures forall k :: k in lastRedisAccessTime <==>
        k in old(lastRedisAccessTime) && old(lastRedisAccessTime)[k] >= remote.clock - 2 * batchThrottleTime
      ensures forall k <- lastRedisAccessTime :: lastRedisAccessTime[k] == old(lastRedisAccessTime)[k]
      ensures forall k, t :: t >= remote.clock ==>
        Throttled(lastRedisAccessTime, k, t) == Throttled(old(lastRedisAccessTime), k, t)
    {
      var threshold := remote.clock - 2 * batchThrottleTime;
      var todo := lastRedisAccessTime.Keys;
      while todo != {}
        invariant todo <= old(lastRedisAccessTime).Keys
        invariant forall k <- lastRedisAccessTime ::
          k in old(lastRedisAccessTime) && lastRedisAccessTime[k] == old(lastRedisAccessTime)[k]
        invariant forall k <- old(lastRedisAccessTime) ::
          k !in lastRedisAccessTime <==> k !in todo && old(lastRedisAccessTime)[k] < threshold
        decreases todo
      {
        var key :| key in todo;
        todo := todo - {key};
        if key in lastRedisAccessTime && lastRedisAccessTime[key] < threshold {
          lastRedisAccessTime := lastRedisAccessTime - {key};
        }
      }
    }

    /** The access times after the remote tier was asked for `queried` at `now`: theirs is `now`, and no other has
        changed, though old ones may be forgotten. */
    ghost predicate Noted(before: map<string, nat>, after: map<string, nat>, queried: set<string>, now: int) {
      && (forall k <- queried :: k in after && after[k] == now)
      && (forall k <- after :: k in queried || (k in before && after[k] == before[k]))
      && (forall k <- before :: k in queried || k in after || before[k] < now - 2 * batchThrottleTime)
    }

    /** The keys the remote tier is asked for: those that are not local and not throttled. */
    ghost function Queried(keys: seq<string>, data: map<string, Entry>, times: map<string, nat>, now: nat)
      : set<string>
    {
      set k | k in keys && !Hit(data, k, now) && !Throttled(times, k, now)
    }

    /** The answers: the local values, and the remote ones of the keys asked for. */
    ghost predicate AllAnswered(keys: seq<string>, data: map<string, Entry>, contents: Contents, queried: set<string>,
                                now: int, result: map<string, Value>)
    {
      forall k {:trigger AnswerAt(keys, data, contents, queried, now, result, k)} ::
        AnswerAt(keys, data, contents, queried, now, result, k)
    }

    ghost predicate AnswerAt(keys: seq<string>, data: map<string, Entry>, contents: Contents, queried: set<string>,
                             now: int, result: map<string, Value>, k: string)
    {
      && (k in result <==> (k in keys && Hit(data, k, now)) || (k in queried && Alive(contents, k, now)))
      && (k in result ==> result[k] == if Hit(data, k, now) then data[k].value else contents[k].value)
    }

    /** Every value of the answer was the remote value less than LocalTTL ago. What came from the remote tier is local
        afterwards for LocalTTL, unless it is too large or gave way to a later backfill; the rest of the local tier
        stays; and with room nothing gives way. */
    method GetMulti(keys: seq<string>, now: nat) returns (result: map<string, Value>, ghost victims: set<string>)
      requires Valid() && remote.clock <= now
      modifies this`lastRedisAccessTime, local, remote`clock
      ensures Valid() && remote.clock == now && AllCurrent(result)
      ensures var queried := old(Queried(keys, local.data, lastRedisAccessTime, now));
        && AllAnswered(keys, old(local.data), old(remote.contents), queried, now, result)
        && Noted(old(lastRedisAccessTime), lastRedisAccessTime, queried, now)
        && FilledHere(old(local.data), result, result.Keys * queried, victims, Expiry(now))
    {
      Tick(now);
      ghost var queried := Queried(keys, local.data, lastRedisAccessTime, now);
      result, victims := Answer(keys, now, queried, Expiry(now));
    }

    method Answer(keys: seq<string>, now: nat, ghost queried: set<string>, ghost until: int)
      returns (result: map<string, Value>, ghost victims: set<string>)
      requires Valid() && remote.clock == now && queried == Queried(keys, local.data, lastRedisAccessTime, now)
      requires until == Expiry(now)
      modifies this`lastRedisAccessTime, local
      ensures Valid() && AllCurrent(result)
      ensures AllAnswered(keys, old(local.data), remote.contents, queried, now, result)
      ensures Noted(old(lastRedisAccessTime), lastRedisAccessTime, queried, now)
      ensures FilledHere(old(local.data), result, result.Keys * queried, victims, until)
    {
      var hits, toQuery := AskLocal(keys, now, queried);
      if toQuery == [] {
        NothingQueried(keys, local.data, hits, queried, until, local.maxItemSize, local.maxSize);
        return hits, {};
      }
      NoteAccess(toQuery, queried);
      result, victims := AskRemote(keys, now, toQuery, hits, queried, until);
    }

    /** What the local tier has, and the keys to ask the remote one for. */
    method AskLocal(keys: seq<string>, now: nat, ghost queried: set<string>)
      returns (hits: map<string, Value>, toQuery: seq<string>)
      requires Valid() && remote.clock == now && queried == Queried(keys, local.data, lastRedisAccessTime, now)
      ensures AllCurrent(hits) && AllAnswered(keys, local.data, remote.contents, {}, now, hits)
      ensures SameKeys(queried, toQuery) && hits.Keys !! queried && Missed(keys, local.data, queried, now)
      ensures toQuery == [] ==> AllAnswered(keys, local.data, remote.contents, queried, now, hits)
    {
      hits := LocalHits(keys);
      var missing := MissingKeys(keys, hits);
      toQuery := FilterThrottledKeys(missing);
      ToQueryIs(keys, local.data, remote.contents, lastRedisAccessTime, now, hits, missing, toQuery, queried);
      assert toQuery == [] ==> queried == {};
    }

    method AskRemote(keys: seq<string>, now: nat, toQuery: seq<string>, hits: map<string, Value>,
                     ghost queried: set<string>, ghost until: int)
      returns (result: map<string, Value>, ghost victims: set<string>)
      requires Valid() && remote.clock == now && until == now + localTTL
      requires AllCurrent(hits) && AllAnswered(keys, local.data, remote.contents, {}, now, hits)
      requires SameKeys(queried, toQuery) && hits.Keys !! queried && Missed(keys, local.data, queried, now)
      modifies local
      ensures Valid() && AllCurrent(result)
      ensures AllAnswered(keys, old(local.data), remote.contents, queried, now, result)
      ensures FilledHere(old(local.data), result, result.Keys * queried, victims, until)
    {
      ghost var data := local.data;
      result, victims := QueryRemote(toQuery, hits, queried, until);
      AnswersTogether(keys, data, remote.contents, queried, now, hits, result);
    }

    ghost predicate Missed(keys: seq<string>, data: map<string, Entry>, queried: set<string>, now: int) {
      forall k <- queried :: k in keys && !Hit(data, k, now)
    }

    lemma ToQueryIs(keys: seq<string>, data: map<string, Entry>, contents: Contents, times: map<string, nat>, now: nat,
                    hits: map<string, Value>, missing: seq<string>, toQuery: seq<string>, queried: set<string>)
      requires AllAnswered(keys, data, contents, {}, now, hits) && queried == Queried(keys, data, times, now)
      requires forall k :: k in missing <==> k in keys && k !in hits
      requires forall k :: k in toQuery <==> k in missing && !Throttled(times, k, now)
      ensures SameKeys(queried, toQuery) && hits.Keys !! queried && Missed(keys, data, queried, now)
    {
      forall k
        ensures (k in queried <==> k in toQuery) && (k in queried ==> k !in hits)
      {
        assert AnswerAt(keys, data, contents, {}, now, hits, k);
      }
    }

    lemma NothingQueried(keys: seq<string>, data: map<string, Entry>, hits: map<string, Value>, queried: set<string>,
                         until: int, maxItemSize: nat, maxSize: nat)
      requires SameKeys(queried, [])
      ensures queried == {} && Filled(data, data, hits, hits.Keys * queried, {}, until, maxItemSize, maxSize)
    {
      NothingFilled(data, hits, until, maxItemSize, maxSize);
      assert queried == {} && hits.Keys * queried == {};
    }

    lemma AnswersTogether(keys: seq<string>, data: map<string, Entry>, contents: Contents, queried: set<string>,
                          now: nat, hits: map<string, Value>, result: map<string, Value>)
      requires AllAnswered(keys, data, contents, {}, now, hits) && AllAdded(contents, queried, now, hits, result)
      requires Missed(keys, data, queried, now)
      ensures AllAnswered(keys, data, contents, queried, now, result)
    {
      forall k
        ensures AnswerAt(keys, data, contents, queried, now, result, k)
      {
        assert AnswerAt(keys, data, contents, {}, now, hits, k);
        assert AddedAt(contents, queried, now, hits, result, k);
      }
    }

    /** A key given from the local tier is given again exactly if its entry lasts, or the remote tier has it and may be
        asked: the throttle can keep it out although it was given less than LocalTTL before (`HitCanLapse`). */
    method AskHitAgain(k: string, t: nat, later: nat) returns (first: map<string, Value>, second: map<string, Value>)
      requires Valid() && remote.clock <= t <= later && Hit(local.data, k, t)
      modifies this`lastRedisAccessTime, local, remote`clock
      ensures Valid() && k in first
      ensures k in second <==>
        || Hit(old(local.data), k, later)
        || (Alive(remote.contents, k, later) && !Throttled(old(lastRedisAccessTime), k, later))
    {
      ghost var data, times, contents := local.data, lastRedisAccessTime, remote.contents;
      ghost var victims;
      first, victims := GetMulti([k], t);
      assert AnswerAt([k], data, contents, Queried([k], data, times, t), t, first, k);
      NothingAsked(k, data, times, t, first, local.data, victims, lastRedisAccessTime, later);
      ghost var mid, noted := local.data, lastRedisAccessTime;
      second, victims := GetMulti([k], later);
      assert AnswerAt([k], mid, contents, Queried([k], mid, noted, later), later, second, k);
    }

    lemma NothingAsked(k: string, data: map<string, Entry>, times: map<string, nat>, t: nat, first: map<string, Value>,
                       mid: map<string, Entry>, victims: set<string>, noted: map<string, nat>, later: nat)
      requires Hit(data, k, t) && t <= later && |data| <= local.maxSize
      requires var queried := Queried([k], data, times, t);
        && Noted(times, noted, queried, t)
        && Filled(data, mid, first, first.Keys * queried, victims, Expiry(t), local.maxItemSize, local.maxSize)
      ensures Stores(mid, k, data[k]) && (Throttled(noted, k, later) <==> Throttled(times, k, later))
    {
      var queried := Queried([k], data, times, t);
      assert queried == {} && first.Keys * queried == {};
      assert StaysAt(data, mid, first, first.Keys * queried, victims, local.maxItemSize, k);
    }

    /** Such a case: the entry and the access time are of instant 0, the value is given at 9, and at 12 it is neither
        local nor to be asked for. */
    lemma HitCanLapse(data: map<string, Entry>, times: map<string, nat>, k: string)
      requires localTTL == 10 && batchThrottleTime == 100
      requires Stores(data, k, Entry([1], Expiry(0))) && k in times && times[k] == 0
      ensures Hit(data, k, 9) && 12 < 9 + localTTL && !Hit(data, k, 12) && Throttled(times, k, 12)
    {
    }

    /** When an entry stored locally at `now` expires. */
    ghost function Expiry(now: int): int {
      now + localTTL
    }

    lemma AnswerGives(keys: seq<string>, before: map<string, Entry>, contents: Contents, queried: set<string>, now: nat,
                      answer: map<string, Value>, after: map<string, Entry>, victims: set<string>)
      requires AllAnswered(keys, before, contents, queried, now, answer) && Missed(keys, before, queried, now)
      requires Filled(before, after, answer, answer.Keys * queried, victims, Expiry(now), local.maxItemSize,
                      local.maxSize)
      ensures Gives(keys, before, after, answer, now, localTTL, local.maxItemSize, local.maxSize)
    {
      forall k
        ensures GivesHit(keys, before, answer, now, k)
      {
        assert AnswerAt(keys, before, contents, queried, now, answer, k);
      }
      FewKeys(keys, answer.Keys * queried);
      forall k, later: int | |before| + |keys| <= local.maxSize
        ensures LastsOn(before, after, answer, now, localTTL, local.maxItemSize, k, later)
      {
        assert AnswerAt(keys, before, contents, queried, now, answer, k);
        assert PutAt(after, answer, answer.Keys * queried, victims, Expiry(now), local.maxItemSize, k);
        assert StaysAt(before, after, answer, answer.Keys * queried, victims, local.maxItemSize, k);
      }
    }

    ghost predicate FilledHere(before: map<string, Entry>, found: map<string, Value>, done: set<string>,
                               victims: set<string>, until: int)
      reads local`data
    {
      Filled(before, local.data, found, done, victims, until, local.maxItemSize, local.maxSize)
    }

    /** What the local tier has. */
    method LocalHits(keys: seq<string>) returns (result: map<string, Value>)
      requires Valid()
      ensures AllCurrent(result)
      ensures AllAnswered(keys, local.data, remote.contents, {}, remote.clock, result)
    {
      result := local.GetMulti(keys, remote.clock);
      HitsAnswer(keys, local.data, remote.contents, remote.clock, result);
      forall k | k in result
        ensures Recent(remote.history, k, result[k], remote.clock, localTTL)
      {
        HitIsRecent(local.data, remote.history, localTTL, remote.clock, k);
      }
    }

    lemma HitsAnswer(keys: seq<string>, data: map<string, Entry>, contents: Contents, now: nat,
                     result: map<string, Value>)
      requires forall k :: k in result <==> k in keys && k in data && data[k].expiration > now
      requires forall k <- result :: result[k] == data[k].value
      ensures AllAnswered(keys, data, contents, {}, now, result)
    {
      forall k
        ensures AnswerAt(keys, data, contents, {}, now, result, k)
      {
      }
    }

    method MissingKeys(keys: seq<string>, result: map<string, Value>) returns (missing: seq<string>)
      ensures forall k :: k in missing <==> k in keys && k !in result
    {
      missing := [];
      for i := 0 to |keys|
        invariant forall k :: k in missing <==> k in keys[..i] && k !in result
      {
        assert keys[..i + 1] == keys[..i] + [keys[i]];
        if keys[i] !in result {
          missing := missing + [keys[i]];
        }
      }
      assert keys[..|keys|] == keys;
    }

    method NoteAccess(keys: seq<string>, ghost queried: set<string>)
      requires SameKeys(queried, keys)
      modifies this`lastRedisAccessTime
      ensures Noted(old(lastRedisAccessTime), lastRedisAccessTime, queried, remote.clock)
    {
      for i := 0 to |keys|
        invariant forall k <- keys[..i] :: k in lastRedisAccessTime && lastRedisAccessTime[k] == remote.clock
        invariant forall k :: k !in keys[..i] ==>
          && (k in lastRedisAccessTime <==> k in old(lastRedisAccessTime))
          && (k in lastRedisAccessTime ==> lastRedisAccessTime[k] == old(lastRedisAccessTime)[k])
      {
        lastRedisAccessTime := lastRedisAccessTime[keys[i] := remote.clock];
        assert keys[..i + 1] == keys[..i] + [keys[i]];
      }
      assert keys[..|keys|] == keys;
      if |lastRedisAccessTime| > maxThrottleEntries {
        CleanupThrottleMap();
      }
    }

    /** Adds what the remote tier has for `keys`, and backfills the local tier with it. */
    method QueryRemote(keys: seq<string>, hits: map<string, Value>, ghost queried: set<string>, ghost until: int)
      returns (result: map<string, Value>, ghost victims: set<string>)
      requires Valid() && AllCurrent(hits) && SameKeys(queried, keys) && hits.Keys !! queried
      requires until == remote.clock + localTTL
      modifies local
      ensures Valid() && AllCurrent(result)
      ensures AllAdded(remote.contents, queried, remote.clock, hits, result)
      ensures FilledHere(old(local.data), result, result.Keys * queried, victims, until)
    {
      var found := remote.GetMulti(keys);
      result := hits + found;
      FoundIsCurrent(hits, found);
      FoundIsAdded(remote.contents, keys, queried, remote.clock, hits, found);
      victims := BackfillAll(found, until);
      FilledFrom(old(local.data), local.data, found, result, victims, until, local.maxItemSize, local.maxSize);
    }

    lemma FoundIsCurrent(hits: map<string, Value>, found: map<string, Value>)
      requires localTTL > 0 && AllCurrent(hits) && AllHeld(remote.history, found, remote.clock)
      ensures AllCurrent(hits + found)
    {
      var all := hits + found;
      forall k | k in all
        ensures Recent(remote.history, k, all[k], remote.clock, localTTL)
      {
        assert k !in found ==> Recent(remote.history, k, hits[k], remote.clock, localTTL);
      }
    }

    /** Puts what the remote tier was found to hold into the local tier, in any order. */
    method BackfillAll(found: map<string, Value>, ghost until: int) returns (ghost victims: set<string>)
      requires Valid() && AllHeld(remote.history, found, remote.clock) && until == remote.clock + localTTL
      modifies local
      ensures Valid() && FilledHere(old(local.data), found, found.Keys, victims, until)
    {
      victims := {};
      ghost var before, done := local.data, {};
      NothingFilled(before, found, until, local.maxItemSize, local.maxSize);
      var rest := found.Keys;
      while rest != {}
        invariant Valid() && Left(found.Keys, done, rest)
        invariant FilledHere(before, found, done, victims, until)
      {
        var key :| key in rest;
        OneDone(found.Keys, done, rest, key);
        victims := BackfillNext(key, found, before, done, victims, until);
        rest, done := rest - {key}, done + {key};
      }
      AllDone(found.Keys, done);
    }

    method BackfillNext(key: string, found: map<string, Value>, ghost before: map<string, Entry>,
                        ghost done: set<string>, ghost victims: set<string>, ghost until: int)
      returns (ghost more: set<string>)
      requires Valid() && AllHeld(remote.history, found, remote.clock) && until == remote.clock + localTTL
      requires key in found && key !in done && FilledHere(before, found, done, victims, until)
      modifies local
      ensures Valid() && FilledHere(before, found, done + {key}, more, until)
    {
      ghost var mid := local.data;
      ghost var victim := Backfill(key, found[key], until);
      FilledOne(before, mid, local.data, found, done, victims, key, victim, until, local.maxItemSize, local.maxSize);
      more := victims + AsSet(victim);
    }

    /** What the remote tier has for a key, put into the local tier too. */
    method Fetch(key: string, ghost until: int) returns (value: Option<Value>, ghost victim: Option<string>)
      requires Valid() && until == remote.clock + localTTL
      modifies local
      ensures Valid()
      ensures value == if Alive(remote.contents, key, remote.clock) then Some(remote.contents[key].value) else None
      ensures value.Some? ==> Current(key, value.value)
      ensures if value.Some? then PutsHere(old(local.data), key, Entry(value.value, until), victim)
              else local.data == old(local.data) && victim == None
    {
      value := remote.Get(key);
      victim := None;
      if value.Some? {
        victim := Backfill(key, value.value, until);
      }
    }
  }

  // ---------------------------------------------------------------- all instances together

  datatype Request =
    | DoGet(key: string)
    | DoGetMulti(keys: seq<string>)
    | DoSet(key: string, value: Value, ttl: int)
    | DoSetPipeline(batch: seq<Item>)
    | DoDelete(key: string)
    | DoFlush
    | DoCleanup      // the local tier removes what has expired

  /** A request served by one instance at one time. */
  datatype Visit = Visit(instance: nat, request: Request, now: nat)

  // ---------------------------------------------------------------- what a request keeps

  /** How many keys a request can add to the local tier. */
  function Grows(request: Request): nat {
    match request
    case DoGet(_) => 1
    case DoGetMulti(keys) => |keys|
    case DoSet(_, _, _) => 1
    case DoSetPipeline(batch) => |batch|
    case _ => 0
  }

  /** The request deletes `k`. */
  ghost predicate Drops(request: Request, k: string) {
    request.DoFlush? || request == Request.DoDelete(k)
  }

  /** The request stores another value for `k`. */
  ghost predicate Renews(request: Request, k: string) {
    match request
    case DoSet(key, _, _) => key == k
    case DoSetPipeline(batch) => exists i :: 0 <= i < |batch| && batch[i].key == k
    case _ => false
  }

  /** An entry that lasts until after `later` does so afterwards, and is the same unless it was stored anew. */
  ghost predicate KeepsAt(request: Request, before: map<string, Entry>, after: map<string, Entry>, k: string,
                          later: int)
  {
    Hit(before, k, later) && !Drops(request, k) ==>
      Hit(after, k, later) && (!Renews(request, k) ==> after[k] == before[k])
  }

  /** A request at `now` adds no more keys than it can, and with room for them keeps every entry that lasts. */
  ghost predicate Keeps(request: Request, before: map<string, Entry>, after: map<string, Entry>, now: int,
                        maxSize: nat)
  {
    && |after| <= |before| + Grows(request)
    && (|before| + Grows(request) <= maxSize ==>
          forall k, later {:trigger KeepsAt(request, before, after, k, later)} ::
            now <= later ==> KeepsAt(request, before, after, k, later))
  }

  /** The entry a value was given from lasts until after `later`: the local one it was found in, or the one made when it
      was fetched, which a value that is not too large gets for `ttl`. */
  ghost predicate Lasts(before: map<string, Entry>, answer: map<string, Value>, now: int, ttl: int, maxItemSize: nat,
                        k: string, later: int)
  {
    k in answer &&
    if Hit(before, k, now) then before[k].expiration > later else |answer[k]| <= maxItemSize && later < now + ttl
  }

  ghost predicate GivesHit(keys: seq<string>, before: map<string, Entry>, answer: map<string, Value>, now: int,
                           k: string)
  {
    k in keys && Hit(before, k, now) ==> k in answer && answer[k] == before[k].value
  }

  ghost predicate LastsOn(before: map<string, Entry>, after: map<string, Entry>, answer: map<string, Value>, now: int,
                          ttl: int, maxItemSize: nat, k: string, later: int)
  {
    Lasts(before, answer, now, ttl, maxItemSize, k, later) ==> Hit(after, k, later) && after[k].value == answer[k]
  }

  /** An answer to several keys gives every local value that has not expired, and with room leaves local what it gave,
      as long as that lasts. */
  ghost predicate Gives(keys: seq<string>, before: map<string, Entry>, after: map<string, Entry>,
                        answer: map<string, Value>, now: int, ttl: int, maxItemSize: nat, maxSize: nat)
  {
    && (forall k {:trigger GivesHit(keys, before, answer, now, k)} :: GivesHit(keys, before, answer, now, k))
    && (|before| + |keys| <= maxSize ==>
          forall k, later {:trigger LastsOn(before, after, answer, now, ttl, maxItemSize, k, later)} ::
            LastsOn(before, after, answer, now, ttl, maxItemSize, k, later))
  }

  lemma GetKeeps(key: string, before: map<string, Entry>, after: map<string, Entry>, victim: Option<string>, now: int,
                 maxSize: nat)
    requires AllSpared(before, after, victim, now) && |after| <= |before| + 1
    requires victim.Some? ==> |before| >= maxSize
    ensures Keeps(Request.DoGet(key), before, after, now, maxSize)
  {
    var request := Request.DoGet(key);
    forall k, later: int | now <= later && |before| + 1 <= maxSize
      ensures KeepsAt(request, before, after, k, later)
    {
      assert SparedAt(before, after, victim, now, k);
    }
  }

  lemma {:induction false} FewKeys(keys: seq<string>, some: set<string>)
    requires forall k <- some :: k in keys
    ensures |some| <= |keys|
  {
    if keys == [] {
      assert some == {};
    } else {
      var last := |keys| - 1;
      forall k | k in some - {keys[last]}
        ensures k in keys[..last]
      {
      }
      FewKeys(keys[..last], some - {keys[last]});
      assert some <= some - {keys[last]} + {keys[last]};
      SubsetSize(some, some - {keys[last]} + {keys[last]});
    }
  }

  lemma GetMultiKeeps(keys: seq<string>, before: map<string, Entry>, after: map<string, Entry>,
                      found: map<string, Value>, done: set<string>, victims: set<string>, until: int, now: int,
                      maxItemSize: nat, maxSize: nat)
    requires Filled(before, after, found, done, victims, until, maxItemSize, maxSize)
    requires forall k <- done :: k in keys && !Hit(before, k, now)
    ensures Keeps(DoGetMulti(keys), before, after, now, maxSize)
  {
    var request := DoGetMulti(keys);
    FewKeys(keys, done);
    forall k, later: int | now <= later && |before| + |keys| <= maxSize
      ensures KeepsAt(request, before, after, k, later)
    {
      assert StaysAt(before, after, found, done, victims, maxItemSize, k);
    }
  }

  /** No entry lasts longer than one made at `now`. */
  ghost predicate NoneLonger(data: map<string, Entry>, until: int) {
    forall k <- data :: data[k].expiration <= until
  }

  lemma FreshEnds(data: map<string, Entry>, history: seq<Snapshot>, ttl: nat, clock: nat, now: nat)
    requires Fresh(data, history, ttl, clock) && clock <= now
    ensures NoneLonger(data, now + ttl)
  {
    forall k | k in data
      ensures data[k].expiration <= now + ttl
    {
      assert FreshEntry(k, data[k], history, ttl, clock);
    }
  }

  lemma SetKeeps(key: string, value: Value, ttl: int, before: map<string, Entry>, after: map<string, Entry>,
                 victim: Option<string>, until: int, now: int, maxItemSize: nat, maxSize: nat)
    requires Puts(before, after, key, Entry(value, until), victim, maxItemSize, maxSize) && NoneLonger(before, until)
    ensures Keeps(Request.DoSet(key, value, ttl), before, after, now, maxSize)
  {
    var request := Request.DoSet(key, value, ttl);
    forall k, later: int | now <= later && |before| + 1 <= maxSize
      ensures KeepsAt(request, before, after, k, later)
    {
      assert LeavesAt(before, after, key, victim, k);
    }
  }

  /** Whether one of the first `n` entries is for `k` and small enough; if so, the last of them. */
  lemma {:induction false} LastFit(batch: seq<Item>, n: nat, k: string, maxItemSize: nat) returns (i: Option<nat>)
    requires n <= |batch|
    ensures i.None? ==> NoneFits(batch, 0, n, k, maxItemSize)
    ensures i.Some? ==>
      && i.value < n && batch[i.value].key == k && |batch[i.value].value| <= maxItemSize
      && NoneFits(batch, i.value + 1, n, k, maxItemSize)
  {
    if n == 0 {
      return None;
    }
    if batch[n - 1].key == k && |batch[n - 1].value| <= maxItemSize {
      return Some(n - 1);
    }
    i := LastFit(batch, n - 1, k, maxItemSize);
  }

  lemma SetPipelineKeeps(batch: seq<Item>, before: map<string, Entry>, after: map<string, Entry>,
                         victims: set<string>, until: int, now: int, maxItemSize: nat, maxSize: nat)
    requires BatchIn(before, after, batch, |batch|, victims, until, maxItemSize, maxSize) && NoneLonger(before, until)
    ensures Keeps(DoSetPipeline(batch), before, after, now, maxSize)
  {
    var request := DoSetPipeline(batch);
    forall k, later: int | now <= later && |before| + |batch| <= maxSize
      ensures KeepsAt(request, before, after, k, later)
    {
      var i := LastFit(batch, |batch|, k, maxItemSize);
      if i.Some? {
        assert ItemIn(after, batch, |batch|, victims, until, maxItemSize, i.value);
      } else {
        assert StaysIn(before, after, batch, |batch|, victims, maxItemSize, k);
      }
    }
  }

  lemma DeleteKeeps(key: string, before: map<string, Entry>, now: int, maxSize: nat)
    ensures Keeps(Request.DoDelete(key), before, before - {key}, now, maxSize)
  {
    SubsetSize((before - {key}).Keys, before.Keys);
  }

  lemma CleanupKeeps(before: map<string, Entry>, now: int, maxSize: nat)
    ensures Keeps(DoCleanup, before, Unexpired(before, now), now, maxSize)
  {
    SubsetSize(Unexpired(before, now).Keys, before.Keys);
  }

  lemma RecentStays(history: seq<Snapshot>, longer: seq<Snapshot>, later: nat, key: string, value: Value, now: int,
                    ttl: int)
    requires Recent(history, key, value, now, ttl) && now <= later && Extends(history, longer, later)
    ensures Recent(longer, key, value, now, ttl)
  {
    var at :| now - ttl < at <= now && HeldAt(history, key, value, at);
    HeldStays(history, longer, later, key, value, at);
  }

  lemma AllStayRecent(history: seq<Snapshot>, longer: seq<Snapshot>, later: nat, answer: map<string, Value>, now: int,
                      ttl: int)
    requires AllRecent(history, answer, now, ttl) && now <= later && Extends(history, longer, later)
    ensures AllRecent(longer, answer, now, ttl)
  {
    forall k | k in answer
      ensures Recent(longer, k, answer[k], now, ttl)
    {
      RecentStays(history, longer, later, k, answer[k], now, ttl);
    }
  }

  // ---------------------------------------------------------------- what many requests keep

  /** How many keys the first `n` visits can add to the local tier of instance `i`. */
  ghost function Growth(visits: seq<Visit>, n: nat, i: nat): nat
    requires n <= |visits|
  {
    if n == 0 then 0
    else Growth(visits, n - 1, i) + if visits[n - 1].instance == i then Grows(visits[n - 1].request) else 0
  }

  /** None of the first `n` visits to instance `i` deletes `k`. */
  ghost predicate NoneDrops(visits: seq<Visit>, n: nat, i: nat, k: string)
    requires n <= |visits|
  {
    n == 0 || (NoneDrops(visits, n - 1, i, k) && (visits[n - 1].instance == i ==> !Drops(visits[n - 1].request, k)))
  }

  /** None of them stores another value for it. */
  ghost predicate NoneRenews(visits: seq<Visit>, n: nat, i: nat, k: string)
    requires n <= |visits|
  {
    n == 0 || (NoneRenews(visits, n - 1, i, k) && (visits[n - 1].instance == i ==> !Renews(visits[n - 1].request, k)))
  }

  ghost predicate KeptAt(visits: seq<Visit>, n: nat, i: nat, before: map<string, Entry>, after: map<string, Entry>,
                         k: string, later: int)
    requires n <= |visits|
  {
    Hit(before, k, later) && NoneDrops(visits, n, i, k) ==>
      Hit(after, k, later) && (NoneRenews(visits, n, i, k) ==> after[k] == before[k])
  }

  /** What the first `n` visits keep, with room for all they can add. */
  ghost predicate KeptTo(visits: seq<Visit>, n: nat, i: nat, before: map<string, Entry>, after: map<string, Entry>,
                         maxSize: nat, later: int)
    requires n <= |visits|
  {
    && |after| <= |before| + Growth(visits, n, i)
    && (|before| + Growth(visits, n, i) <= maxSize ==>
          forall k {:trigger KeptAt(visits, n, i, before, after, k, later)} ::
            KeptAt(visits, n, i, before, after, k, later))
  }

  lemma NothingYet(visits: seq<Visit>, i: nat, data: map<string, Entry>, maxSize: nat, later: int)
    ensures KeptTo(visits, 0, i, data, data, maxSize, later)
  {
  }

  lemma KeptOne(visits: seq<Visit>, n: nat, i: nat, before: map<string, Entry>, mid: map<string, Entry>,
                after: map<string, Entry>, maxSize: nat, later: int)
    requires n < |visits| && visits[n].now <= later && KeptTo(visits, n, i, before, mid, maxSize, later)
    requires if visits[n].instance == i then Keeps(visits[n].request, mid, after, visits[n].now, maxSize)
      else after == mid
    ensures KeptTo(visits, n + 1, i, before, after, maxSize, later)
  {
    var m := n + 1;
    forall k | |before| + Growth(visits, m, i) <= maxSize
      ensures KeptAt(visits, m, i, before, after, k, later)
    {
      assert KeptAt(visits, n, i, before, mid, k, later);
      assert visits[n].instance == i ==> KeepsAt(visits[n].request, mid, after, k, later);
    }
  }

  /** What was given at `t` and lasts is given again. */
  ghost predicate Again(between: seq<Visit>, i: nat, before: map<string, Entry>, first: map<string, Value>,
                        second: map<string, Value>, t: int, ttl: int, maxItemSize: nat, again: seq<string>, k: string,
                        later: int)
  {
    k in again && Lasts(before, first, t, ttl, maxItemSize, k, later) && NoneDrops(between, |between|, i, k) ==>
      k in second && (NoneRenews(between, |between|, i, k) ==> second[k] == first[k])
  }

  ghost predicate AllAgain(between: seq<Visit>, i: nat, before: map<string, Entry>, first: map<string, Value>,
                           second: map<string, Value>, t: int, ttl: int, maxItemSize: nat, again: seq<string>,
                           later: int)
  {
    forall k {:trigger Again(between, i, before, first, second, t, ttl, maxItemSize, again, k, later)} ::
      Again(between, i, before, first, second, t, ttl, maxItemSize, again, k, later)
  }

  lemma GivenAgain(between: seq<Visit>, i: nat, before: map<string, Entry>, mid: map<string, Entry>,
                   last: map<string, Entry>, after: map<string, Entry>, first: map<string, Value>,
                   second: map<string, Value>, t: int, ttl: int, maxItemSize: nat, maxSize: nat, keys: seq<string>,
                   again: seq<string>, later: int)
    requires |before| + |keys| + Growth(between, |between|, i) <= maxSize && |mid| <= |before| + |keys|
    requires Gives(keys, before, mid, first, t, ttl, maxItemSize, maxSize)
    requires KeptTo(between, |between|, i, mid, last, maxSize, later)
    requires Gives(again, last, after, second, later, ttl, maxItemSize, maxSize)
    ensures AllAgain(between, i, before, first, second, t, ttl, maxItemSize, again, later)
  {
    forall k
      ensures Again(between, i, before, first, second, t, ttl, maxItemSize, again, k, later)
    {
      assert LastsOn(before, mid, first, t, ttl, maxItemSize, k, later);
      assert KeptAt(between, |between|, i, mid, last, k, later);
      assert GivesHit(again, last, second, later, k);
    }
  }

  class Cluster {
    const instances: seq<Dual>
    const remote: Remote

    constructor (instances: seq<Dual>, remote: Remote)
      requires remote.Valid()
      requires forall d <- instances :: d.remote == remote && d.Valid()
      requires forall i, j :: 0 <= i < j < |instances| ==>
        instances[i] != instances[j] && instances[i].local != instances[j].local
      ensures Valid() && this.instances == instances && this.remote == remote
    {
      this.instances, this.remote := instances, remote;
    }

    ghost predicate Separate() {
      && (forall d <- instances :: d.remote == remote)
      && (forall i, j :: 0 <= i < j < |instances| ==>
            instances[i] != instances[j] && instances[i].local != instances[j].local)
    }

    ghost predicate Valid()
      reads remote, instances, set d | d in instances :: d.local
    {
      Separate() && remote.Valid() && forall d <- instances :: d.Valid()
    }

    /** All answers so far are as recent as the instance that gave them claims. */
    ghost predicate Served(visits: seq<Visit>, answers: seq<map<string, Value>>, history: seq<Snapshot>) {
      && |answers| <= |visits|
      && forall j :: 0 <= j < |answers| ==> ServedAt(visits[j], answers[j], history)
    }

    ghost predicate ServedAt(v: Visit, answer: map<string, Value>, history: seq<Snapshot>) {
      v.instance < |instances| && AllRecent(history, answer, v.now, instances[v.instance].localTTL)
    }

    lemma ServedOne(visits: seq<Visit>, answers: seq<map<string, Value>>, history: seq<Snapshot>, longer: seq<Snapshot>,
                    answer: map<string, Value>, now: nat)
      requires Served(visits, answers, history) && |answers| < |visits| && Extends(history, longer, now)
      requires forall j :: 0 <= j < |answers| ==> visits[j].now <= now
      requires ServedAt(visits[|answers|], answer, longer)
      ensures Served(visits, answers + [answer], longer)
    {
      forall j | 0 <= j < |answers|
        ensures ServedAt(visits[j], answers[j], longer)
      {
        var v := visits[j];
        assert ServedAt(v, answers[j], history);
        AllStayRecent(history, longer, now, answers[j], v.now, instances[v.instance].localTTL);
      }
    }

    /** What a request does to the local tier it is made on. */
    ghost predicate Leaves(d: Dual, request: Request, before: map<string, Entry>, answer: map<string, Value>, now: int)
      reads d.local`data
    {
      && Keeps(request, before, d.local.data, now, d.local.maxSize)
      && (request.DoGetMulti? ==>
            Gives(request.keys, before, d.local.data, answer, now, d.localTTL, d.local.maxItemSize, d.local.maxSize))
    }

    /** One request on one instance keeps all instances as fresh as they claim. */
    method Perform(i: nat, request: Request, now: nat) returns (answer: map<string, Value>)
      requires Valid() && i < |instances| && remote.clock <= now
      modifies instances[i], instances[i].local, remote
      ensures Valid() && remote.clock == now && Extends(old(remote.history), remote.history, now)
      ensures AllRecent(remote.history, answer, now, instances[i].localTTL)
      ensures Leaves(instances[i], request, old(instances[i].local.data), answer, now)
    {
      ghost var earlier, before, data := remote.history, remote.clock, instances[i].local.data;
      answer := PerformOn(instances[i], request, now, data);
      forall j | 0 <= j < |instances|
        ensures instances[j].Valid()
      {
        if j != i {
          assert old(instances[j].Valid());
          assert instances[j].local != instances[i].local;
          FreshStays(instances[j].local.data, earlier, remote.history, instances[j].localTTL, before, now);
        }
      }
    }

    method PerformOn(d: Dual, request: Request, now: nat, ghost before: map<string, Entry>)
      returns (answer: map<string, Value>)
      requires d.Valid() && d.remote == remote && remote.clock <= now && before == d.local.data
      modifies d, d.local, remote
      ensures d.Valid() && remote.clock == now && Extends(old(remote.history), remote.history, now)
      ensures AllRecent(remote.history, answer, now, d.localTTL) && Leaves(d, request, before, answer, now)
    {
      if request.DoGet? || request.DoGetMulti? {
        ExtendsItself(remote.history, now);
        answer := ReadOn(d, request, now, before);
      } else {
        answer := map[];
        WriteOn(d, request, now, before);
      }
    }

    method ReadOn(d: Dual, request: Request, now: nat, ghost before: map<string, Entry>)
      returns (answer: map<string, Value>)
      requires d.Valid() && remote.clock <= now && d.remote == remote && (request.DoGet? || request.DoGetMulti?)
      requires before == d.local.data
      modifies d, d.local, remote`clock
      ensures d.Valid() && remote.clock == now && AllRecent(remote.history, answer, now, d.localTTL)
      ensures Leaves(d, request, before, answer, now)
    {
      if request.DoGetMulti? {
        answer := AskOn(d, request.keys, now, before);
        return;
      }
      answer := GetOn(d, request.key, now, before);
    }

    method GetOn(d: Dual, key: string, now: nat, ghost before: map<string, Entry>) returns (answer: map<string, Value>)
      requires d.Valid() && remote.clock <= now && d.remote == remote && before == d.local.data
      modifies d.local, remote`clock
      ensures d.Valid() && remote.clock == now && AllRecent(remote.history, answer, now, d.localTTL)
      ensures Keeps(Request.DoGet(key), before, d.local.data, now, d.local.maxSize)
    {
      ghost var victim;
      var value;
      value, victim := d.Get(key, now);
      GetKeeps(key, before, d.local.data, victim, now, d.local.maxSize);
      answer := map[];
      if value.Some? {
        OneMoreRecent(remote.history, answer, now, d.localTTL, key, value.value);
        answer := answer[key := value.value];
      }
    }

    method AskOn(d: Dual, keys: seq<string>, now: nat, ghost before: map<string, Entry>)
      returns (answer: map<string, Value>)
      requires d.Valid() && remote.clock <= now && d.remote == remote && before == d.local.data
      modifies d, d.local, remote`clock
      ensures d.Valid() && remote.clock == now && AllRecent(remote.history, answer, now, d.localTTL)
      ensures Leaves(d, DoGetMulti(keys), before, answer, now)
    {
      ghost var contents, queried := remote.contents, d.Queried(keys, before, d.lastRedisAccessTime, now);
      ghost var victims;
      answer, victims := d.GetMulti(keys, now);
      GetMultiKeeps(keys, before, d.local.data, answer, answer.Keys * queried, victims, d.Expiry(now), now,
                    d.local.maxItemSize, d.local.maxSize);
      d.AnswerGives(keys, before, contents, queried, now, answer, d.local.data, victims);
    }

    method WriteOn(d: Dual, request: Request, now: nat, ghost before: map<string, Entry>)
      requires d.Valid() && d.remote == remote && remote.clock <= now && !request.DoGet? && !request.DoGetMulti?
      requires before == d.local.data
      modifies d, d.local, remote
      ensures d.Valid() && remote.clock == now && Extends(old(remote.history), remote.history, now)
      ensures Leaves(d, request, before, map[], now)
    {
      ghost var maxSize := d.local.maxSize;
      ExtendsItself(remote.history, now);
      FreshEnds(before, remote.history, d.localTTL, remote.clock, now);
      match request {
        case DoSet(key, value, ttl) =>
          ghost var victim := d.Set(key, value, ttl, now);
          SetKeeps(key, value, ttl, before, d.local.data, victim, d.Expiry(now), now, d.local.maxItemSize, maxSize);
        case DoSetPipeline(batch) =>
          ghost var victims := d.SetPipeline(batch, now);
          SetPipelineKeeps(batch, before, d.local.data, victims, d.Expiry(now), now, d.local.maxItemSize, maxSize);
        case DoDelete(key) =>
          d.Delete(key, now);
          DeleteKeeps(key, before, now, maxSize);
        case DoFlush =>
          d.Tick(now);
          d.local.Flush();
        case DoCleanup =>
          d.Cleanup(now);
          CleanupKeeps(before, now, maxSize);
      }
    }

    /** Bounded staleness over whole runs: any requests on any instances, in any order, with the clock
        never going back. */
    method Run(visits: seq<Visit>) returns (answers: seq<map<string, Value>>)
      requires Valid()
      requires forall v <- visits :: v.instance < |instances| && remote.clock <= v.now
      requires forall i, j :: 0 <= i < j < |visits| ==> visits[i].now <= visits[j].now
      modifies instances, (set d | d in instances :: d.local), remote
      ensures Valid() && |answers| == |visits| && Served(visits, answers, remote.history)
    {
      answers := [];
      for i := 0 to |visits|
        invariant Valid() && |answers| == i && Served(visits, answers, remote.history)
        invariant i < |visits| ==> remote.clock <= visits[i].now
      {
        ghost var earlier := remote.history;
        var v := visits[i];
        var answer := Perform(v.instance, v.request, v.now);
        ServedOne(visits, answers, earlier, remote.history, answer, v.now);
        answers := answers + [answer];
      }
    }

    /** All visits in order, with what they keep of the local tier of instance `i`. */
    method Serve(visits: seq<Visit>, i: nat, ghost later: int)
      requires Valid() && i < |instances| && remote.clock <= later && Scheduled(visits, remote.clock, later)
      modifies instances, (set d | d in instances :: d.local), remote
      ensures Valid() && remote.clock == Reached(visits, |visits|, old(remote.clock))
      ensures KeptHere(visits, |visits|, i, old(instances[i].local.data), later)
    {
      ghost var before, start := instances[i].local.data, remote.clock;
      NothingYet(visits, i, before, instances[i].local.maxSize, later);
      for n := 0 to |visits|
        invariant Valid() && KeptHere(visits, n, i, before, later)
        invariant remote.clock == Reached(visits, n, start)
      {
        ServeOne(visits, n, i, before, start, later);
      }
    }

    /** The visits are to instances there are, in order, from `from` to `later`. */
    ghost predicate Scheduled(visits: seq<Visit>, from: int, later: int) {
      forall n {:trigger DueAt(visits, n, from, later)} :: 0 <= n < |visits| ==> DueAt(visits, n, from, later)
    }

    ghost predicate DueAt(visits: seq<Visit>, n: nat, from: int, later: int)
      requires n < |visits|
    {
      && visits[n].instance < |instances|
      && Reached(visits, n, from) <= visits[n].now <= later
    }

    ghost predicate KeptHere(visits: seq<Visit>, n: nat, i: nat, before: map<string, Entry>, later: int)
      requires n <= |visits| && i < |instances|
      reads instances[i].local`data
    {
      KeptTo(visits, n, i, before, instances[i].local.data, instances[i].local.maxSize, later)
    }

    ghost function Reached(visits: seq<Visit>, n: nat, from: int): int
      requires n <= |visits|
    {
      if n == 0 then from else visits[n - 1].now
    }

    method ServeOne(visits: seq<Visit>, n: nat, i: nat, ghost before: map<string, Entry>, ghost from: int,
                    ghost later: int)
      requires Valid() && i < |instances| && n < |visits| && KeptHere(visits, n, i, before, later)
      requires remote.clock == Reached(visits, n, from) && Scheduled(visits, from, later)
      modifies instances, (set d | d in instances :: d.local), remote
      ensures Valid() && remote.clock == Reached(visits, n + 1, from) && KeptHere(visits, n + 1, i, before, later)
    {
      ghost var mid := instances[i].local.data;
      assert DueAt(visits, n, from, later);
      PerformBeside(visits[n], i);
      KeptOne(visits, n, i, before, mid, instances[i].local.data, instances[i].local.maxSize, later);
    }

    /** One visit, as the local tier of instance `i` sees it. */
    method PerformBeside(v: Visit, i: nat)
      requires Valid() && i < |instances| && v.instance < |instances| && remote.clock <= v.now
      modifies instances, (set d | d in instances :: d.local), remote
      ensures Valid() && remote.clock == v.now
      ensures if v.instance == i
        then Keeps(v.request, old(instances[i].local.data), instances[i].local.data, v.now, instances[i].local.maxSize)
        else instances[i].local.data == old(instances[i].local.data)
    {
      ghost var d := instances[i];
      var _ := Perform(v.instance, v.request, v.now);
      assert v.instance != i ==> d.local != instances[v.instance].local;
    }

    /** Two calls on one instance, with any requests on any instances between: with room for all of them, what the first
        call gave is given again as long as the entry it came from lasts, unless it was deleted on that instance; and
        it is the same value unless another was stored there. The throttle plays no part in it. */
    method AskAgain(i: nat, keys: seq<string>, t: nat, between: seq<Visit>, again: seq<string>, later: nat)
      returns (first: map<string, Value>, second: map<string, Value>)
      requires Valid() && i < |instances| && remote.clock <= t <= later && Scheduled(between, t, later)
      modifies instances, (set d | d in instances :: d.local), remote
      ensures Valid() && remote.clock == later
      ensures |old(instances[i].local.data)| + |keys| + Growth(between, |between|, i) <= instances[i].local.maxSize ==>
        AllAgain(between, i, old(instances[i].local.data), first, second, t, instances[i].localTTL,
                 instances[i].local.maxItemSize, again, later)
    {
      ghost var d := instances[i];
      ghost var before := d.local.data;
      first := Perform(i, DoGetMulti(keys), t);
      ghost var mid := d.local.data;
      Serve(between, i, later);
      ghost var last := d.local.data;
      assert between != [] ==> DueAt(between, |between| - 1, t, later);
      second := Perform(i, DoGetMulti(again), later);
      if |before| + |keys| + Growth(between, |between|, i) <= d.local.maxSize {
        GivenAgain(between, i, before, mid, last, d.local.data, first, second, t, d.localTTL, d.local.maxItemSize,
                   d.local.maxSize, keys, again, later);
      }
    }
  }
}
