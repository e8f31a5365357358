/** caches/memory/memory.go: the in-memory cache, two maps and a lazily cleaned min-heap of expirations. */
module MemoryCache {
  import opened Options
  import opened Utf8

  type Value = seq<Byte>

  datatype Entry = Entry(value: Value, expiration: int)

  datatype ExpirationEntry = ExpirationEntry(key: string, expiration: int)

  // ---------------------------------------------------------------- the heap

  type Heap = seq<ExpirationEntry>

  function Parent(i: nat): nat
    requires i > 0
  {
    (i - 1) / 2
  }

  ghost predicate Below(h: Heap, i: nat)
    requires 0 < i < |h|
  {
    h[Parent(i)].expiration <= h[i].expiration
  }

  ghost predicate Ordered(h: Heap) {
    forall i :: 0 < i < |h| ==> Below(h, i)
  }

  lemma {:induction false} RootIsMin(h: Heap, i: nat)
    requires Ordered(h) && i < |h|
    ensures h[0].expiration <= h[i].expiration
  {
    if i > 0 {
      assert Below(h, i);
      RootIsMin(h, Parent(i));
    }
  }

  function Swapped(h: Heap, i: nat, j: nat): (r: Heap)
    requires i < |h| && j < |h|
    ensures |r| == |h| && multiset(r) == multiset(h)
  {
    h[i := h[j]][j := h[i]]
  }

  /** Ordered, but for the entry at `j` against its parent. */
  ghost predicate OrderedButUp(h: Heap, j: nat)
    requires j < |h|
  {
    && (forall i :: 0 < i < |h| && i != j ==> Below(h, i))
    && (j > 0 ==> forall i :: 0 < i < |h| && Parent(i) == j ==> h[Parent(j)].expiration <= h[i].expiration)
  }

  /** Ordered, but for the entry at `k` against its children. */
  ghost predicate OrderedButDown(h: Heap, k: nat)
    requires k < |h|
  {
    && (forall i :: 0 < i < |h| && Parent(i) != k ==> Below(h, i))
    && (k > 0 ==> forall i :: 0 < i < |h| && Parent(i) == k ==> h[Parent(k)].expiration <= h[i].expiration)
  }

  lemma SwapUp(h: Heap, j: nat)
    requires 0 < j < |h| && OrderedButUp(h, j) && h[j].expiration < h[Parent(j)].expiration
    ensures OrderedButUp(Swapped(h, Parent(j), j), Parent(j))
  {
    var i := Parent(j);
    var r := Swapped(h, i, j);
    forall k | 0 < k < |r| && k != i
      ensures Below(r, k)
    {
      assert k != j ==> Below(h, k);
    }
    if i > 0 {
      assert Below(h, i);
      forall k | 0 < k < |r| && Parent(k) == i
        ensures r[Parent(i)].expiration <= r[k].expiration
      {
        assert k != j ==> Below(h, k);
      }
    }
  }

  method SiftUp(h0: Heap, j0: nat) returns (h: Heap)
    requires j0 < |h0| && OrderedButUp(h0, j0)
    ensures Ordered(h) && multiset(h) == multiset(h0)
  {
    h := h0;
    var j := j0;
    while j > 0 && h[j].expiration < h[Parent(j)].expiration
      invariant 0 <= j < |h| && multiset(h) == multiset(h0) && OrderedButUp(h, j)
      decreases j
    {
      SwapUp(h, j);
      h := Swapped(h, Parent(j), j);
      j := Parent(j);
    }
  }

  /** `j` is the child of `i` that expires first. */
  ghost predicate FirstChild(h: Heap, i: nat, j: nat)
    requires i < |h|
  {
    && 0 < j < |h| && Parent(j) == i
    && forall k :: 0 < k < |h| && Parent(k) == i ==> h[j].expiration <= h[k].expiration
  }

  lemma SwapDown(h: Heap, i: nat, j: nat)
    requires i < |h| && OrderedButDown(h, i) && FirstChild(h, i, j) && h[j].expiration < h[i].expiration
    ensures OrderedButDown(Swapped(h, i, j), j)
  {
    var r := Swapped(h, i, j);
    forall k | 0 < k < |r| && Parent(k) != j
      ensures Below(r, k)
    {
      assert Parent(k) != i ==> Below(h, k);
    }
    forall k | 0 < k < |r| && Parent(k) == j
      ensures r[Parent(j)].expiration <= r[k].expiration
    {
      assert Below(h, k);
    }
  }

  lemma NoneBelow(h: Heap, i: nat)
    requires i < |h| && OrderedButDown(h, i)
    requires forall k :: 0 < k < |h| && Parent(k) == i ==> h[i].expiration <= h[k].expiration
    ensures Ordered(h)
  {
    forall k | 0 < k < |h|
      ensures Below(h, k)
    {
    }
  }

  method ChooseChild(h: Heap, i: nat) returns (j: nat)
    requires 2 * i + 1 < |h|
    ensures FirstChild(h, i, j)
  {
    j := 2 * i + 1;
    if j + 1 < |h| && h[j + 1].expiration < h[j].expiration {
      j := j + 1;
    }
    assert forall k :: 0 < k < |h| && Parent(k) == i ==> k == 2 * i + 1 || k == 2 * i + 2;
  }

  method SiftDown(h0: Heap) returns (h: Heap)
    requires h0 != [] && OrderedButDown(h0, 0)
    ensures Ordered(h) && |h| == |h0| && multiset(h) == multiset(h0)
  {
    h := h0;
    var i, n := 0, |h|;
    while 2 * i + 1 < n
      invariant 0 <= i < |h| == n == |h0| && multiset(h) == multiset(h0) && OrderedButDown(h, i)
      decreases n - i
    {
      var j := ChooseChild(h, i);
      if h[j].expiration >= h[i].expiration {
        NoneBelow(h, i);
        return;
      }
      SwapDown(h, i, j);
      h := Swapped(h, i, j);
      i := j;
    }
    NoneBelow(h, i);
  }

  method HeapPush(h: Heap, e: ExpirationEntry) returns (r: Heap)
    requires Ordered(h)
    ensures Ordered(r) && multiset(r) == multiset(h) + multiset{e}
  {
    var longer := h + [e];
    forall i | 0 < i < |h|
      ensures Below(longer, i)
    {
      assert Below(h, i);
    }
    r := SiftUp(longer, |h|);
  }

  method HeapPop(h: Heap) returns (r: Heap)
    requires h != [] && Ordered(h)
    ensures Ordered(r) && |r| == |h| - 1 && multiset(h) == multiset(r) + multiset{h[0]}
  {
    var n := |h| - 1;
    var swapped := Swapped(h, 0, n);
    var shorter := swapped[..n];
    assert swapped == shorter + [h[0]];
    if n == 0 {
      return shorter;
    }
    forall i | 0 < i < n && Parent(i) != 0
      ensures Below(shorter, i)
    {
      assert Below(h, i);
    }
    r := SiftDown(shorter);
  }

  // ---------------------------------------------------------------- the cache

  /** What a Set put in: kept forever, as a witness. */
  datatype Stored = Stored(key: string, entry: Entry)

  /** The entries that have not expired. */
  ghost function Unexpired(data: map<string, Entry>, now: int): map<string, Entry> {
    map k | k in data && data[k].expiration > now :: data[k]
  }

  /** `victim` expires first among the keys of `data`. */
  ghost predicate ExpiresFirst(data: map<string, Entry>, victim: string) {
    victim in data && forall k <- data :: data[victim].expiration <= data[k].expiration
  }

  ghost predicate EntryListed(heap: Heap, ttls: map<string, int>, k: string)
    requires k in ttls
  {
    ExpirationEntry(k, ttls[k]) in multiset(heap)
  }

  /** The two maps agree, the heap is ordered, and every key has its entry in the heap. */
  ghost predicate Consistent(data: map<string, Entry>, ttls: map<string, int>, heap: Heap) {
    && data.Keys == ttls.Keys
    && (forall k <- data :: ttls[k] == data[k].expiration)
    && Ordered(heap)
    && (forall k <- ttls :: EntryListed(heap, ttls, k))
  }

  lemma RootExpiresFirst(data: map<string, Entry>, ttls: map<string, int>, heap: Heap)
    requires heap != [] && Consistent(data, ttls, heap)
    ensures forall k <- data :: heap[0].expiration <= data[k].expiration
  {
    forall k | k in data
      ensures heap[0].expiration <= data[k].expiration
    {
      assert EntryListed(heap, ttls, k);
      var i :| 0 <= i < |heap| && heap[i] == ExpirationEntry(k, ttls[k]);
      RootIsMin(heap, i);
    }
  }

  /** Popping an outdated root, or popping a root together with its key, leaves every other key listed. */
  lemma PopKeeps(data: map<string, Entry>, ttls: map<string, int>, heap: Heap, popped: Heap, gone: set<string>)
    requires heap != [] && Consistent(data, ttls, heap)
    requires Ordered(popped) && multiset(heap) == multiset(popped) + multiset{heap[0]}
    requires heap[0].key in ttls && ttls[heap[0].key] == heap[0].expiration ==> heap[0].key in gone
    ensures Consistent(data - gone, ttls - gone, popped)
  {
    forall k | k in ttls && k !in gone
      ensures EntryListed(popped, ttls - gone, k)
    {
      assert EntryListed(heap, ttls, k);
    }
  }

  /** At most `maxSize` keys, each with the entry the plain map has for it; and that map holds only what was stored. */
  ghost predicate Follows(data: map<string, Entry>, simple: map<string, Entry>, stored: set<Stored>, maxSize: nat) {
    && |data| <= maxSize
    && (forall k <- data :: data[k].expiration > 0 && k in simple && simple[k] == data[k])
    && (forall k <- simple :: Stored(k, simple[k]) in stored)
  }

  ghost predicate Submap(small: map<string, Entry>, big: map<string, Entry>) {
    small.Keys <= big.Keys && forall k <- small :: small[k] == big[k]
  }

  lemma {:induction false} SubsetSize(small: set<string>, big: set<string>)
    requires small <= big
    ensures |small| <= |big|
  {
    if small != {} {
      var x :| x in small;
      SubsetSize(small - {x}, big - {x});
    }
  }

  lemma SubmapFollows(small: map<string, Entry>, big: map<string, Entry>, simple: map<string, Entry>,
                      stored: set<Stored>, maxSize: nat)
    requires Follows(big, simple, stored, maxSize) && Submap(small, big)
    ensures Follows(small, simple, stored, maxSize)
  {
    SubsetSize(small.Keys, big.Keys);
  }

  lemma Smaller(data: map<string, Entry>, k: string)
    requires k in data
    ensures |data - {k}| == |data| - 1
  {
    assert (data - {k}).Keys + {k} == data.Keys;
  }

  lemma WithoutFollows(data: map<string, Entry>, simple: map<string, Entry>, stored: set<Stored>, maxSize: nat,
                       key: string)
    requires Follows(data, simple, stored, maxSize)
    ensures Follows(data - {key}, simple, stored, maxSize)
  {
    SubmapFollows(data - {key}, data, simple, stored, maxSize);
  }

  /** At capacity `after` is still `before`; below it, `before` without a key that expires first. */
  ghost predicate Evicted(before: map<string, Entry>, after: map<string, Entry>, victim: string, maxSize: nat) {
    if |after| >= maxSize then after == before else ExpiresFirst(before, victim) && after == before - {victim}
  }

  /** Below capacity nothing gives way, at capacity one key that expires first. */
  ghost predicate GivesWay(data: map<string, Entry>, victim: Option<string>, maxSize: nat) {
    (victim.None? <==> |data| < maxSize) && (victim.Some? ==> ExpiresFirst(data, victim.value))
  }

  ghost function Kept(data: map<string, Entry>, victim: Option<string>): map<string, Entry> {
    if victim.None? then data else data - {victim.value}
  }

  lemma WithoutUnexpired(data: map<string, Entry>, key: string, now: int)
    ensures Unexpired(data - {key}, now) == Unexpired(data, now) <==> key !in Unexpired(data, now)
  {
    var after, before := Unexpired(data - {key}, now), Unexpired(data, now);
    assert key !in after;
    if key !in before {
      assert after == before;
    }
  }

  class Cache {
    const maxSize: nat
    const defaultTTL: nat
    const maxItemSize: nat
    var data: map<string, Entry>
    var ttls: map<string, int>
    var heap: Heap
    ghost var stored: set<Stored>           // everything a Set ever stored
    ghost var simple: map<string, Entry>    // a plain map of the latest Set of each key, never evicted

    ghost predicate Valid()
      reads this
    {
      Consistent(data, ttls, heap) && Faithful()
    }

    /** Within its size, holding only what the plain map holds. */
    ghost predicate Faithful()
      reads this`data, this`simple, this`stored
    {
      maxSize > 0 && defaultTTL > 0 && Follows(data, simple, stored, maxSize)
    }

    constructor (maxSize: int, defaultTTL: int, maxItemSize: int)
      ensures Valid() && data == map[] && simple == map[] && stored == {}
      ensures this.maxSize == (if maxSize <= 0 then 1000 else maxSize)
      ensures this.maxItemSize == (if maxItemSize <= 0 then 1024 * 1024 else maxItemSize)
      ensures this.defaultTTL == (if defaultTTL <= 0 then 600_000_000_000 else defaultTTL)
    {
      this.maxSize := if maxSize <= 0 then 1000 else maxSize;
      this.defaultTTL := if defaultTTL <= 0 then 600_000_000_000 else defaultTTL;
      this.maxItemSize := if maxItemSize <= 0 then 1024 * 1024 else maxItemSize;
      data, ttls, heap := map[], map[], [];
      stored, simple := {}, map[];
    }

    predicate RootOutdated()
      requires heap != []
      reads this
    {
      heap[0].key !in ttls || ttls[heap[0].key] != heap[0].expiration
    }

    /** Pops a root whose key was updated or removed since. */
    method DropRoot()
      requires Consistent(data, ttls, heap) && heap != [] && RootOutdated()
      modifies this`heap
      ensures Consistent(data, ttls, heap) && |heap| < |old(heap)|
    {
      ghost var before := heap;
      heap := HeapPop(heap);
      PopKeeps(data, ttls, before, heap, {});
      assert data - {} == data && ttls - {} == ttls;
    }

    /** Pops a root that is up to date, and removes its key. */
    method EvictRoot()
      requires Consistent(data, ttls, heap) && heap != [] && !RootOutdated()
      modifies this`data, this`ttls, this`heap
      ensures Consistent(data, ttls, heap) && |heap| < |old(heap)|
      ensures ExpiresFirst(old(data), old(heap[0].key)) && data == old(data) - {old(heap[0].key)}
      ensures |data| == |old(data)| - 1
    {
      ghost var before := heap;
      var key := heap[0].key;
      RootExpiresFirst(data, ttls, heap);
      heap := HeapPop(heap);
      PopKeeps(data, ttls, before, heap, {key});
      Smaller(data, key);
      data, ttls := data - {key}, ttls - {key};
    }

    lemma NoHeapNoKeys()
      requires Consistent(data, ttls, heap) && heap == []
      ensures data == map[]
    {
      assert forall k <- ttls :: EntryListed(heap, ttls, k);
      assert data.Keys == {};
    }

    /** Removes every expired key and no other. */
    method EvictExpired(now: nat)
      requires Valid()
      modifies this`data, this`ttls, this`heap
      ensures Valid() && data == Unexpired(old(data), now)
    {
      while heap != []
        invariant Consistent(data, ttls, heap) && Unexpired(old(data), now) == Unexpired(data, now)
        decreases |heap|
      {
        if RootOutdated() {
          DropRoot();
          continue;
        }
        if heap[0].expiration <= now {
          EvictRoot();
        } else {
          RootExpiresFirst(data, ttls, heap);
          break;
        }
      }
      NothingExpired(now);
      SubmapFollows(data, old(data), simple, stored, maxSize);
    }

    /** With no root, or a root that has not expired, no key has expired. */
    lemma NothingExpired(now: nat)
      requires Consistent(data, ttls, heap) && (heap == [] || heap[0].expiration > now)
      ensures Unexpired(data, now) == data
    {
      if heap == [] {
        NoHeapNoKeys();
      } else {
        RootExpiresFirst(data, ttls, heap);
      }
    }

    /** At capacity, removes exactly one key, one that expires first. */
    method EvictIfNeeded(now: nat) returns (ghost victim: string)
      requires Valid() && |data| == maxSize
      modifies this`data, this`ttls, this`heap
      ensures Valid() && ExpiresFirst(old(data), victim) && data == old(data) - {victim} && |data| < maxSize
    {
      victim := "";
      while heap != [] && |data| >= maxSize
        invariant Consistent(data, ttls, heap) && Evicted(old(data), data, victim, maxSize)
        decreases |heap|
      {
        if RootOutdated() {
          DropRoot();
          continue;
        }
        if heap[0].expiration <= now || |data| >= maxSize {
          victim := heap[0].key;
          EvictRoot();
        } else {
          break;
        }
      }
      if |data| >= maxSize {
        NoHeapNoKeys();
      }
      WithoutFollows(old(data), simple, stored, maxSize, victim);
    }

    /** At capacity, makes room for one more key. */
    method MakeRoom(now: nat) returns (ghost victim: Option<string>)
      requires Valid()
      modifies this`data, this`ttls, this`heap
      ensures Valid() && |data| < maxSize && GivesWay(old(data), victim, maxSize) && data == Kept(old(data), victim)
    {
      victim := None;
      if |data| >= maxSize {
        ghost var v := EvictIfNeeded(now);
        victim := Some(v);
      }
    }

    /** Stores a value: the plain map gets it, and so does the cache, which at capacity first gives up
        one key that expires first. Oversized values are skipped. */
    method Set(key: string, value: Value, ttl: int, now: nat) returns (ghost victim: Option<string>)
      requires Valid()
      modifies this
      ensures Valid()
      ensures |value| > maxItemSize ==>
        data == old(data) && simple == old(simple) && stored == old(stored) && victim == None
      ensures |value| <= maxItemSize ==>
        var entry := Entry(value, now + if ttl <= 0 then defaultTTL else ttl);
        && simple == old(simple)[key := entry] && stored == old(stored) + {Stored(key, entry)}
        && GivesWay(old(data), victim, maxSize) && data == Kept(old(data), victim)[key := entry]
    {
      victim := None;
      if |value| > maxItemSize {
        return;
      }
      var life := if ttl <= 0 then defaultTTL else ttl;
      victim := MakeRoom(now);
      Put(key, Entry(value, now + life));
    }

    method Put(key: string, entry: Entry)
      requires Valid() && |data| < maxSize && entry.expiration > 0
      modifies this
      ensures Valid() && data == old(data)[key := entry] && simple == old(simple)[key := entry]
      ensures stored == old(stored) + {Stored(key, entry)}
    {
      PutFollows(data, simple, stored, maxSize, key, entry);
      var pushed := HeapPush(heap, ExpirationEntry(key, entry.expiration));
      PushKeeps(data, ttls, heap, pushed, key, entry);
      data := data[key := entry];
      ttls := ttls[key := entry.expiration];
      heap := pushed;
      simple := simple[key := entry];
      stored := stored + {Stored(key, entry)};
    }

    method Remove(key: string)
      requires Valid()
      modifies this`data, this`ttls
      ensures Valid() && data == old(data) - {key}
    {
      RemoveKeeps(data, ttls, heap, key);
      WithoutFollows(data, simple, stored, maxSize, key);
      data, ttls := data - {key}, ttls - {key};
    }

    /** Removes a key, from the cache and from the plain map. */
    method Delete(key: string)
      requires Valid()
      modifies this
      ensures Valid() && data == old(data) - {key} && simple == old(simple) - {key} && stored == old(stored)
    {
      Remove(key);
      simple := simple - {key};
    }

    method Flush()
      requires Valid()
      modifies this
      ensures Valid() && data == map[] && simple == map[] && stored == old(stored)
    {
      data, ttls, heap := map[], map[], [];
      simple := map[];
    }

    // -------------------------------------------------------------- Get, in its two locked sections

    method GetRead(key: string) returns (found: Option<Entry>)
      requires Valid()
      ensures found == if key in data then Some(data[key]) else None
      ensures found.Some? ==> Stored(key, found.value) in stored
    {
      if key !in data {
        return None;
      }
      return Some(data[key]);
    }

    /** Judges an entry read before; if it has expired, removes the key, whatever it holds by now. */
    method GetFinish(key: string, found: Option<Entry>, now: nat) returns (value: Option<Value>)
      requires Valid() && (found.Some? ==> found.value.expiration > 0)
      modifies this`data, this`ttls
      ensures Valid()
      ensures found.Some? && found.value.expiration > now ==> value == Some(found.value.value) && data == old(data)
      ensures found.None? ==> value == None && data == old(data)
      ensures found.Some? && found.value.expiration <= now ==> value == None && data == old(data) - {key}
      ensures Unexpired(data, now) == Unexpired(old(data), now) <==>
        !(found.Some? && found.value.expiration <= now && key in Unexpired(old(data), now))
    {
      if found.None? {
        return None;
      }
      if found.value.expiration > 0 && found.value.expiration <= now {
        WithoutUnexpired(data, key, now);
        Remove(key);
        return None;
      }
      return Some(found.value.value);
    }

    /** Without interference: the value exactly if the key is there and has not expired, which is then
        also the plain map's value; no visible entry is lost. */
    method Get(key: string, now: nat) returns (value: Option<Value>)
      requires Valid()
      modifies this`data, this`ttls
      ensures Valid()
      ensures value == if key in old(data) && old(data)[key].expiration > now then Some(old(data)[key].value) else None
      ensures value.Some? ==> key in simple && simple[key].expiration > now && simple[key].value == value.value
      ensures Submap(data, old(data)) && Unexpired(data, now) == Unexpired(old(data), now)
    {
      var found := GetRead(key);
      value := GetFinish(key, found, now);
    }

    method GetMulti(keys: seq<string>, now: nat) returns (result: map<string, Value>)
      requires Valid()
      ensures forall k :: k in result <==> k in keys && k in data && data[k].expiration > now
      ensures forall k <- result :: result[k] == data[k].value
    {
      result := map[];
      for i := 0 to |keys|
        invariant forall k :: k in result <==> k in keys[..i] && k in data && data[k].expiration > now
        invariant forall k <- result :: result[k] == data[k].value
      {
        assert keys[..i + 1] == keys[..i] + [keys[i]];
        var key := keys[i];
        if key in data {
          if data[key].expiration == 0 || data[key].expiration > now {
            result := result[key := data[key].value];
          }
        }
      }
      assert keys[..|keys|] == keys;
    }

    // -------------------------------------------------------------- whole runs

    ghost function Now(): View
      reads this
    {
      View(data, simple, stored)
    }

    /** Any sequence of locked sections keeps the cache valid and forgets no stored value's witness. Whatever the moment
        `t`, if there was room for every entry and no late clean-up came between, the cache still has every entry of
        the plain map that has not expired at `t`. */
    method Run(ops: seq<Op>, ghost t: int)
      requires Valid()
      modifies this
      ensures Valid() && stored >= old(stored)
      ensures old(Complete(data, simple, t)) && Gentle(ops, |ops|, t) && |old(data)| + Sets(ops, |ops|) <= maxSize ==>
        Complete(data, simple, t) && Unexpired(data, t) == Unexpired(simple, t)
    {
      for i := 0 to |ops|
        invariant Valid() && Ran(ops, i, t, maxSize, old(Now()), Now())
      {
        ghost var before := Now();
        Perform(ops[i], t);
        RanOne(ops, i, t, maxSize, old(Now()), before, Now());
      }
      CompleteShowsAll(data, simple, t);
    }

    method Perform(op: Op, ghost t: int)
      requires Valid()
      modifies this
      ensures Valid() && Moves(op, t, maxSize, old(Now()), Now())
    {
      match op {
        case DoSet(_, _, _, _) => PerformSet(op, t);
        case DoGet(_, _) => PerformGet(op, t);
        case DoDelete(_) => PerformDelete(op, t);
        case DoEvictExpired(_) => PerformEvict(op, t);
        case DoFinish(_, _, _) => PerformFinish(op, t);
        case DoFlush => PerformFlush(op, t);
      }
    }

    method PerformSet(op: Op, ghost t: int)
      requires Valid() && op.DoSet?
      modifies this
      ensures Valid() && Moves(op, t, maxSize, old(Now()), Now())
    {
      var _ := Set(op.key, op.value, op.ttl, op.now);
      if |op.value| <= maxItemSize {
        GrowsByOne(old(data), data, op.key);
      }
    }

    method PerformGet(op: Op, ghost t: int)
      requires Valid() && op.DoGet?
      modifies this`data, this`ttls
      ensures Valid() && Moves(op, t, maxSize, old(Now()), Now())
    {
      var _ := Get(op.key, op.now);
      SubsetSize(data.Keys, old(data).Keys);
      StillComplete(old(data), data, simple, op.now, t);
    }

    method PerformDelete(op: Op, ghost t: int)
      requires Valid() && op.DoDelete?
      modifies this
      ensures Valid() && Moves(op, t, maxSize, old(Now()), Now())
    {
      Delete(op.key);
      SubsetSize(data.Keys, old(data).Keys);
    }

    method PerformEvict(op: Op, ghost t: int)
      requires Valid() && op.DoEvictExpired?
      modifies this`data, this`ttls, this`heap
      ensures Valid() && Moves(op, t, maxSize, old(Now()), Now())
    {
      EvictExpired(op.now);
      SubsetSize(data.Keys, old(data).Keys);
      StillComplete(old(data), data, simple, op.now, t);
    }

    method PerformFinish(op: Op, ghost t: int)
      requires Valid() && op.DoFinish?
      modifies this`data, this`ttls
      ensures Valid() && Moves(op, t, maxSize, old(Now()), Now())
    {
      var _ := GetFinish(op.key, op.found, op.now);
      SubsetSize(data.Keys, old(data).Keys);
    }

    method PerformFlush(op: Op, ghost t: int)
      requires Valid() && op.DoFlush?
      modifies this
      ensures Valid() && Moves(op, t, maxSize, old(Now()), Now())
    {
      Flush();
    }

    /** A Get with anything happening between its two sections: what it returns was stored by a Set of
        that key and had not expired when it was judged. */
    method GetInterrupted(key: string, between: seq<Op>, now: nat) returns (value: Option<Value>)
      requires Valid()
      modifies this
      ensures Valid() && stored >= old(stored)
      ensures value.Some? ==>
        exists e :: Stored(key, e) in stored && e.value == value.value && e.expiration > now
    {
      var found := GetRead(key);
      Run(between, now);
      value := GetFinish(key, found, now);
      if value.Some? {
        assert Stored(key, found.value) in stored;
      }
    }
  }

  /** No entry of the plain map that has not expired at `t` is missing. */
  ghost predicate Complete(data: map<string, Entry>, simple: map<string, Entry>, t: int) {
    forall k <- simple :: simple[k].expiration > t ==> k in data
  }

  /** By `t`, and not the late clean-up of an entry read before. */
  ghost predicate Harmless(op: Op, t: int) {
    match op
    case DoSet(_, _, _, now) => now <= t
    case DoGet(_, now) => now <= t
    case DoDelete(_) => true
    case DoEvictExpired(now) => now <= t
    case DoFinish(_, found, now) => found.None? || found.value.expiration > now
    case DoFlush => true
  }

  ghost predicate Gentle(ops: seq<Op>, n: nat, t: int)
    requires n <= |ops|
  {
    forall i :: 0 <= i < n ==> Harmless(ops[i], t)
  }

  /** How many of the first `n` sections are Sets. */
  ghost function Sets(ops: seq<Op>, n: nat): nat
    requires n <= |ops|
  {
    if n == 0 then 0 else Sets(ops, n - 1) + if ops[n - 1].DoSet? then 1 else 0
  }

  /** What a cache holds, what the plain map holds, and all that was ever stored. */
  datatype View = View(data: map<string, Entry>, simple: map<string, Entry>, stored: set<Stored>)

  /** One section: no witness is forgotten, only a Set adds a key, and with room and no late clean-up nothing is
      lost. */
  ghost predicate Moves(op: Op, t: int, maxSize: nat, before: View, after: View) {
    && after.stored >= before.stored && |after.data| <= |before.data| + (if op.DoSet? then 1 else 0)
    && (Complete(before.data, before.simple, t) && Harmless(op, t) && (op.DoSet? ==> |before.data| < maxSize) ==>
          Complete(after.data, after.simple, t))
  }

  /** The same of the first `n` sections. */
  ghost predicate Ran(ops: seq<Op>, n: nat, t: int, maxSize: nat, before: View, after: View)
    requires n <= |ops|
  {
    && after.stored >= before.stored && |after.data| <= |before.data| + Sets(ops, n)
    && (Complete(before.data, before.simple, t) && Gentle(ops, n, t) && |before.data| + Sets(ops, n) <= maxSize ==>
          Complete(after.data, after.simple, t))
  }

  lemma RanOne(ops: seq<Op>, n: nat, t: int, maxSize: nat, start: View, before: View, after: View)
    requires n < |ops| && Ran(ops, n, t, maxSize, start, before) && Moves(ops[n], t, maxSize, before, after)
    ensures Ran(ops, n + 1, t, maxSize, start, after)
  {
  }

  lemma CompleteShowsAll(data: map<string, Entry>, simple: map<string, Entry>, t: int)
    requires forall k <- data :: k in simple && simple[k] == data[k]
    ensures Complete(data, simple, t) ==> Unexpired(data, t) == Unexpired(simple, t)
  {
  }

  lemma StillComplete(before: map<string, Entry>, after: map<string, Entry>, simple: map<string, Entry>, now: int,
                      t: int)
    requires Unexpired(after, now) == Unexpired(before, now)
    requires forall k <- before :: k in simple && simple[k] == before[k]
    ensures Complete(before, simple, t) && now <= t ==> Complete(after, simple, t)
  {
    forall k | k in simple && simple[k].expiration > t && k in before && now <= t
      ensures k in after
    {
      assert k in Unexpired(before, now);
      assert k in Unexpired(after, now);
    }
  }

  lemma GrowsByOne(before: map<string, Entry>, after: map<string, Entry>, key: string)
    requires after.Keys <= before.Keys + {key}
    ensures |after| <= |before| + 1
  {
    SubsetSize(after.Keys, before.Keys + {key});
  }

  /** The locked sections other callers can run; DoGet is a Get that nobody interrupts, DoFinish the second section of
      some other Get. */
  datatype Op =
    | DoSet(key: string, value: Value, ttl: int, now: nat)
    | DoGet(key: string, now: nat)
    | DoDelete(key: string)
    | DoEvictExpired(now: nat)
    | DoFinish(key: string, found: Option<Live>, now: nat)
    | DoFlush

  type Live = e: Entry | e.expiration > 0 witness Entry([], 1)

  lemma PutFollows(data: map<string, Entry>, simple: map<string, Entry>, stored: set<Stored>, maxSize: nat,
                   key: string, entry: Entry)
    requires Follows(data, simple, stored, maxSize) && |data| < maxSize && entry.expiration > 0
    ensures Follows(data[key := entry], simple[key := entry], stored + {Stored(key, entry)}, maxSize)
  {
    GrowsByOne(data, data[key := entry], key);
  }

  lemma PushKeeps(data: map<string, Entry>, ttls: map<string, int>, heap: Heap, pushed: Heap, key: string, entry: Entry)
    requires Consistent(data, ttls, heap)
    requires Ordered(pushed) && multiset(pushed) == multiset(heap) + multiset{ExpirationEntry(key, entry.expiration)}
    ensures Consistent(data[key := entry], ttls[key := entry.expiration], pushed)
  {
    var ttls' := ttls[key := entry.expiration];
    forall k | k in ttls'
      ensures EntryListed(pushed, ttls', k)
    {
      assert k != key ==> EntryListed(heap, ttls, k);
    }
  }

  lemma RemoveKeeps(data: map<string, Entry>, ttls: map<string, int>, heap: Heap, key: string)
    requires Consistent(data, ttls, heap)
    ensures Consistent(data - {key}, ttls - {key}, heap)
  {
    forall k | k in ttls - {key}
      ensures EntryListed(heap, ttls - {key}, k)
    {
      assert EntryListed(heap, ttls, k);
    }
  }

  /** The second section of a Get can remove a value stored after the first: the key is gone although
      its latest entry, in the plain map, has not expired. */
  method FreshValueLost() returns (c: Cache, lost: bool)
    ensures c.Valid() && lost
    ensures "k" !in c.data && "k" in c.simple && c.simple["k"].expiration > 10
  {
    var found;
    c, found := ReadBeforeExpiry();
    var _ := c.Set("k", [2], 100, 10);
    var value := c.GetFinish("k", found, 10);
    lost := value.None?;
  }

  method ReadBeforeExpiry() returns (c: Cache, found: Option<Entry>)
    ensures c.Valid() && fresh(c) && c.maxItemSize == 1024 * 1024 && found == Some(Entry([1], 5))
  {
    c := new Cache(0, 0, 0);
    var _ := c.Set("k", [1], 5, 0);
    found := c.GetRead("k");
  }
}
