/** Tuning helpers: worker counts from the machine's size, settings for
    large files, batch processing that keeps the submission order, and a
    small cache whose entries expire. The system probes (CPU count, memory)
    and the clock are parameters. */
module PerformanceOptimizer {
  import opened Common

  // ------------------------------------------------------------ workers

  function Min(a: int, b: int): (m: int)
    ensures m <= a && m <= b && (m == a || m == b)
  {
    if a <= b then a else b
  }

  /** `optimize_worker_count` for `cpu` processors and `memoryGb` of memory. */
  function OptimizeWorkerCount(taskType: string, cpu: int, memoryGb: real): (w: int)
    ensures taskType == "conversion" ==>
              w == Min(cpu, if memoryGb >= 16.0 then 8 else if memoryGb >= 8.0 then 6 else 4)
    ensures taskType == "scan" ==> w == Min(2 * cpu, 12)
    ensures taskType != "conversion" && taskType != "scan" ==> w == Min(cpu, 6)
  {
    if taskType == "conversion" then
      if memoryGb >= 16.0 then Min(cpu, 8)
      else if memoryGb >= 8.0 then Min(cpu, 6)
      else Min(cpu, 4)
    else if taskType == "scan" then Min(cpu * 2, 12)
    else Min(cpu, 6)
  }

  /** The worker count is at least one when there is a processor, never more
      than the processors (twice as many for a scan) nor than the cap of its
      task type, and never falls when memory grows. */
  lemma WorkerCountBounds(taskType: string, cpu: int, memoryGb: real, moreGb: real)
    requires memoryGb <= moreGb
    ensures var w := OptimizeWorkerCount(taskType, cpu, memoryGb);
            (cpu >= 1 ==> w >= 1)
            && (if taskType == "scan" then w <= 2 * cpu && w <= 12 else w <= cpu && w <= 8)
            && (taskType == "conversion" && memoryGb < 8.0 ==> w <= 4)
            && w <= OptimizeWorkerCount(taskType, cpu, moreGb)
  {
  }

  // ------------------------------------------------------------ large files

  /** The five settings `optimize_for_large_files` always returns. */
  datatype LargeFileSettings = LargeFileSettings(
    batchSize: nat, maxWorkers: nat, memoryLimitMb: nat, useNumba: bool, useAsync: bool)

  /** `optimize_for_large_files` for a file of `sizeMb` megabytes. */
  function OptimizeForLargeFiles(sizeMb: real): (s: LargeFileSettings)
    ensures sizeMb > 500.0 ==> s == LargeFileSettings(2, 1, 2048, true, false)
    ensures 100.0 < sizeMb <= 500.0 ==> s == LargeFileSettings(3, 2, 1024, true, true)
    ensures 50.0 < sizeMb <= 100.0 ==> s == LargeFileSettings(5, 3, 512, true, true)
    ensures sizeMb <= 50.0 ==> s == LargeFileSettings(10, 4, 256, false, true)
  {
    if sizeMb > 500.0 then LargeFileSettings(2, 1, 2048, true, false)
    else if sizeMb > 100.0 then LargeFileSettings(3, 2, 1024, true, true)
    else if sizeMb > 50.0 then LargeFileSettings(5, 3, 512, true, true)
    else LargeFileSettings(10, 4, 256, false, true)
  }

  /** A bigger file never gets bigger batches or more workers, and never a
      smaller memory limit; every tier has at least one worker. */
  lemma LargeFilesMonotone(small: real, big: real)
    requires small <= big
    ensures var a, b := OptimizeForLargeFiles(small), OptimizeForLargeFiles(big);
            b.batchSize <= a.batchSize && b.maxWorkers <= a.maxWorkers && a.memoryLimitMb <= b.memoryLimitMb
            && b.batchSize >= 1 && b.maxWorkers >= 1
  {
  }

  // ------------------------------------------------------------ batches

  /** What the processor does with one item: returns a value, returns None,
      or raises. */
  datatype Outcome<U> = Returned(value: Option<U>) | Raised

  function Value<U>(o: Outcome<U>): seq<U> {
    if o.Returned? && o.value.Some? then [o.value.value] else []
  }

  /** The non-None results, in item order; raising items are skipped. */
  function Kept<T, U>(items: seq<T>, processor: T -> Outcome<U>): seq<U> {
    if items == [] then [] else Kept(items[..|items| - 1], processor) + Value(processor(items[|items| - 1]))
  }

  lemma {:induction false} KeptAppend<T, U>(a: seq<T>, b: seq<T>, processor: T -> Outcome<U>)
    ensures Kept(a + b, processor) == Kept(a, processor) + Kept(b, processor)
    decreases |b|
  {
    if b == [] {
      assert a + b == a;
    } else {
      var b' := b[..|b| - 1];
      assert (a + b)[..|a + b| - 1] == a + b';
      KeptAppend(a, b', processor);
    }
  }

  /** Every kept result comes from an item, at most one per item, and an
      item whose processor returns a value always contributes it. */
  lemma {:induction false} KeptSpec<T, U>(items: seq<T>, processor: T -> Outcome<U>)
    ensures |Kept(items, processor)| <= |items|
    ensures forall u :: u in Kept(items, processor) ==>
              exists i :: 0 <= i < |items| && processor(items[i]) == Returned(Some(u))
    ensures forall i :: 0 <= i < |items| && processor(items[i]).Returned? && processor(items[i]).value.Some? ==>
              processor(items[i]).value.value in Kept(items, processor)
  {
    if items != [] {
      var init := items[..|items| - 1];
      KeptSpec(init, processor);
      var last := items[|items| - 1];
      forall u | u in Kept(items, processor)
        ensures exists i :: 0 <= i < |items| && processor(items[i]) == Returned(Some(u))
      {
        if u in Kept(init, processor) {
          var i :| 0 <= i < |init| && processor(init[i]) == Returned(Some(u));
          assert items[i] == init[i];
        } else {
          assert processor(items[|items| - 1]) == Returned(Some(u));
        }
      }
      forall i | 0 <= i < |items| && processor(items[i]).Returned? && processor(items[i]).value.Some?
        ensures processor(items[i]).value.value in Kept(items, processor)
      {
        if i < |init| {
          assert items[i] == init[i];
        }
      }
    }
  }

  /** `_process_batch`: the loop over one batch. */
  method ProcessBatch<T, U>(batch: seq<T>, processor: T -> Outcome<U>) returns (results: seq<U>)
    ensures results == Kept(batch, processor)
  {
    results := [];
    for i := 0 to |batch|
      invariant results == Kept(batch[..i], processor)
    {
      assert batch[..i + 1][..i] == batch[..i];
      var outcome := processor(batch[i]);
      match outcome
      case Raised =>
      case Returned(r) =>
        if r.Some? {
          results := results + [r.value];
        }
    }
    assert batch[..|batch|] == batch;
  }

  /** `[items[i:i + size] for i in range(0, len(items), size)]`. */
  function Batches<T>(items: seq<T>, size: nat): seq<seq<T>>
    requires size > 0
    decreases |items|
  {
    if items == [] then []
    else if |items| <= size then [items]
    else [items[..size]] + Batches(items[size..], size)
  }

  function Flatten<T>(bs: seq<seq<T>>): seq<T> {
    if bs == [] then [] else Flatten(bs[..|bs| - 1]) + bs[|bs| - 1]
  }

  lemma {:induction false} FlattenCons<T>(b: seq<T>, bs: seq<seq<T>>)
    ensures Flatten([b] + bs) == b + Flatten(bs)
    decreases |bs|
  {
    if bs == [] {
      assert [b] + bs == [b];
      assert [b][..0] == [];
    } else {
      var init := bs[..|bs| - 1];
      assert ([b] + bs)[..|bs|] == [b] + init;
      FlattenCons(b, init);
    }
  }

  /** The batches are consecutive pieces of the items, in order, each
      holding between one and `size` items. */
  lemma {:induction false} BatchesSpec<T>(items: seq<T>, size: nat)
    requires size > 0
    ensures Flatten(Batches(items, size)) == items
    ensures forall k :: 0 <= k < |Batches(items, size)| ==> 1 <= |Batches(items, size)[k]| <= size
    decreases |items|
  {
    if items != [] && |items| > size {
      var rest := Batches(items[size..], size);
      BatchesSpec(items[size..], size);
      FlattenCons(items[..size], rest);
      assert items[..size] + items[size..] == items;
      assert forall k :: 1 <= k < |Batches(items, size)| ==> Batches(items, size)[k] == rest[k - 1];
    } else if items != [] {
      FlattenCons(items, []);
      assert items + [] == items;
    }
  }

  /** `parallel_batch_processing`. A batch size of 0 makes `range` raise
      (None); then a pool of no positive size cannot be built (None); a
      negative batch size gives no batch at all. The batches are handed back in
      submission order, and `_process_batch` never raises. */
  method ParallelBatchProcessing<T, U>(items: seq<T>, processor: T -> Outcome<U>, batchSize: int, maxWorkers: int)
    returns (r: Option<seq<U>>)
    ensures batchSize == 0 || maxWorkers <= 0 ==> r.None?
    ensures batchSize < 0 && maxWorkers > 0 ==> r == Some([])
    ensures batchSize > 0 && maxWorkers > 0 ==> r == Some(Kept(items, processor))
  {
    if batchSize == 0 || maxWorkers <= 0 {
      return None;
    }
    if batchSize < 0 {
      return Some([]);
    }
    var batches := Batches(items, batchSize);
    var results := [];
    for k := 0 to |batches|
      invariant results == Kept(Flatten(batches[..k]), processor)
    {
      assert batches[..k + 1][..k] == batches[..k];
      var batchResults := ProcessBatch(batches[k], processor);
      KeptAppend(Flatten(batches[..k]), batches[k], processor);
      results := results + batchResults;
    }
    assert batches[..|batches|] == batches;
    BatchesSpec(items, batchSize);
    return Some(results);
  }

  // ------------------------------------------------------------ cache

  /** A cached value with the time it was stored and its lifetime in
      seconds. */
  datatype Entry<D> = Entry(data: D, timestamp: real, ttl: int)

  predicate Expired<D>(e: Entry<D>, now: real) {
    now - e.timestamp > e.ttl as real
  }

  /** What `get_cached_data` answers at time `now`. */
  function Lookup<D>(cache: map<string, Entry<D>>, key: string, now: real): (r: Option<D>)
    ensures r.Some? <==> key in cache && !Expired(cache[key], now)
    ensures r.Some? ==> r.value == cache[key].data
  {
    if key in cache && !Expired(cache[key], now) then Some(cache[key].data) else None
  }

  /** An entry just stored with a non-negative lifetime is found until its
      lifetime has passed, and not after. */
  lemma StoredThenFound<D>(cache: map<string, Entry<D>>, key: string, data: D, stored: real, ttl: int, now: real)
    requires key in cache && cache[key] == Entry(data, stored, ttl) && stored <= now
    ensures Lookup(cache, key, now) == if now - stored <= ttl as real then Some(data) else None
  {
  }

  /** Once expired, an entry stays expired. */
  lemma ExpiredStays<D>(e: Entry<D>, now: real, later: real)
    requires Expired(e, now) && now <= later
    ensures Expired(e, later)
  {
  }

  /** The entries not yet expired at `now`. */
  function Unexpired<D>(cache: map<string, Entry<D>>, now: real): (r: map<string, Entry<D>>)
    ensures r.Keys <= cache.Keys
    ensures forall k :: k in r <==> k in cache && !Expired(cache[k], now)
    ensures forall k :: k in r ==> r[k] == cache[k]
  {
    map k | k in cache && !Expired(cache[k], now) :: cache[k]
  }

  const MaxCacheSize: nat := 100

  /** The optimiser's cache; the performance statistics and the logger are
      not modelled. */
  class Optimizer<D> {
    var cache: map<string, Entry<D>>

    ghost predicate Valid()
      reads this
    {
      |cache| <= MaxCacheSize
    }

    constructor()
      ensures Valid() && cache == map[]
    {
      cache := map[];
    }

    /** `cache_optimization`: when the cache is full, drop the expired
        entries and then, if it is still full, an oldest one; then store the
        entry. `now` stands for both clock readings. */
    method CacheOptimization(key: string, data: D, ttl: int, now: real)
      requires Valid()
      modifies this
      ensures Valid()
      ensures key in cache && cache[key] == Entry(data, now, ttl)
      ensures |old(cache)| < MaxCacheSize ==> cache == old(cache)[key := Entry(data, now, ttl)]
      ensures forall k :: k in cache && k != key ==> k in old(cache) && cache[k] == old(cache)[k]
      ensures forall k :: k in old(cache) && k !in cache ==>
                Expired(old(cache)[k], now)
                || forall j :: j in old(cache) && !Expired(old(cache)[j], now) ==> old(cache)[k].timestamp <= old(cache)[j].timestamp
      ensures |old(cache)| >= MaxCacheSize ==>
                var live := Unexpired(old(cache), now);
                (|live| < MaxCacheSize ==> cache == live[key := Entry(data, now, ttl)])
                && (|live| >= MaxCacheSize ==>
                      exists o :: o in live && (forall j :: j in live ==> live[o].timestamp <= live[j].timestamp)
                                 && cache == (live - {o})[key := Entry(data, now, ttl)])
    {
      if |cache| >= MaxCacheSize {
        DropExpired(now);
        if |cache| >= MaxCacheSize {
          var oldest := Oldest(cache);
          SubsetCard(cache.Keys, old(cache).Keys);
          ghost var before := cache;
          cache := cache - {oldest};
          assert cache.Keys == before.Keys - {oldest};
          assert |cache| == |before| - 1;
          assert cache[key := Entry(data, now, ttl)] == (before - {oldest})[key := Entry(data, now, ttl)];
        }
      }
      cache := cache[key := Entry(data, now, ttl)];
    }

    /** The loop deleting the expired keys. */
    method DropExpired(now: real)
      modifies this
      ensures cache == Unexpired(old(cache), now)
    {
      var expired := set k | k in cache && Expired(cache[k], now);
      var rest := expired;
      while rest != {}
        invariant rest <= expired
        invariant cache == map k | k in old(cache) && k !in expired - rest :: old(cache)[k]
        decreases |rest|
      {
        var k :| k in rest;
        cache := cache - {k};
        rest := rest - {k};
      }
      assert expired - rest == expired;
      assert cache.Keys == Unexpired(old(cache), now).Keys;
    }

    /** `get_cached_data`: an expired entry is removed and answers None. */
    method GetCachedData(key: string, now: real) returns (r: Option<D>)
      modifies this
      ensures r == Lookup(old(cache), key, now)
      ensures cache == if key in old(cache) && Expired(old(cache)[key], now) then old(cache) - {key} else old(cache)
    {
      if key !in cache {
        return None;
      }
      var entry := cache[key];
      if now - entry.timestamp > entry.ttl as real {
        cache := cache - {key};
        return None;
      }
      return Some(entry.data);
    }

    /** `clear_cache`. */
    method ClearCache()
      modifies this
      ensures Valid() && cache == map[]
    {
      cache := map[];
    }
  }

  /** A key whose entry has the smallest timestamp. */
  method Oldest<D>(cache: map<string, Entry<D>>) returns (oldest: string)
    requires cache != map[]
    ensures oldest in cache && forall k :: k in cache ==> cache[oldest].timestamp <= cache[k].timestamp
  {
    var keys := cache.Keys;
    oldest :| oldest in keys;
    var rest := keys - {oldest};
    while rest != {}
      invariant rest <= keys && oldest in keys
      invariant forall k :: k in keys - rest ==> cache[oldest].timestamp <= cache[k].timestamp
      decreases |rest|
    {
      var k :| k in rest;
      if cache[k].timestamp < cache[oldest].timestamp {
        oldest := k;
      }
      rest := rest - {k};
    }
  }
}
