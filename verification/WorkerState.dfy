/**
 The state the poller and the worker threads share under one mutex, and the
 effect of each locked region on it.  The functions are the specification;
 the class below holds the fields and does the work in place.
 */
module WorkerState {
  import opened Fnv

  type Path = string

  datatype FpEntry = FpEntry(fp: Fingerprint, sha256: string, lastSeen: int)

  datatype Shared = Shared(
    seen: map<Path, int>,
    files: seq<Path>,
    inflight: set<Path>,
    failCounts: map<Path, int>,
    fpCache: map<Path, FpEntry>,
    queueDepth: int)

  const MAX_CACHE_ENTRIES: nat := 10000

  function Enqueue(sh: Shared, path: Path, stamp: int): Shared {
    if path in sh.inflight || path in sh.seen then sh
    else sh.(seen := sh.seen[path := stamp], files := sh.files + [path], queueDepth := sh.queueDepth + 1)
  }

  function Cleanup(sh: Shared, now: int, ttl: int): Shared {
    sh.(seen := map p | p in sh.seen && now - sh.seen[p] <= ttl :: sh.seen[p])
  }

  function TakeFront(sh: Shared): Shared
    requires sh.files != []
  {
    sh.(files := sh.files[1..], queueDepth := sh.queueDepth - 1, inflight := sh.inflight + {sh.files[0]})
  }

  function Release(sh: Shared, path: Path): Shared {
    sh.(inflight := sh.inflight - {path})
  }

  function ClearFailures(sh: Shared, path: Path): Shared {
    sh.(failCounts := sh.failCounts - {path})
  }

  function NewCount(sh: Shared, path: Path): int {
    (if path in sh.failCounts then sh.failCounts[path] else 0) + 1
  }

  /** The increment, and the erase that goes with a dead letter. */
  function CountFailure(sh: Shared, path: Path, maxRetries: int): Shared {
    if NewCount(sh, path) >= maxRetries
    then sh.(failCounts := sh.failCounts - {path})
    else sh.(failCounts := sh.failCounts[path := NewCount(sh, path)])
  }

  predicate Hit(sh: Shared, path: Path, fp: Fingerprint) {
    path in sh.fpCache && sh.fpCache[path].fp == fp
  }

  function Touch(sh: Shared, path: Path, now: int): Shared
    requires path in sh.fpCache
  {
    sh.(fpCache := sh.fpCache[path := sh.fpCache[path].(lastSeen := now)])
  }

  function StoreEntry(sh: Shared, path: Path, fp: Fingerprint, sha256: string, now: int): Shared {
    sh.(fpCache := sh.fpCache[path := FpEntry(fp, sha256, now)])
  }

  /** `after` is `before` without some least recently seen entries, none of them dropped needlessly. */
  ghost predicate IsEviction(before: map<Path, FpEntry>, after: map<Path, FpEntry>, cap: nat) {
    && after.Keys <= before.Keys
    && (forall p :: p in after ==> after[p] == before[p])
    && |after| == (if |before| <= cap then |before| else cap)
    && (forall p, q :: p in before && p !in after && q in after ==> before[p].lastSeen <= before[q].lastSeen)
  }

  /** An entry seen strictly after every other one outlives the eviction. */
  lemma NewestSurvives(before: map<Path, FpEntry>, after: map<Path, FpEntry>, cap: nat, path: Path)
    requires IsEviction(before, after, cap) && cap > 0 && path in before
    requires forall q :: q in before && q != path ==> before[q].lastSeen < before[path].lastSeen
    ensures path in after
  {
    assert before != map[];
    NonEmpty(after);
  }

  /** The mutable state itself. */
  class SharedState {
    var seen: map<Path, int>
    var files: seq<Path>
    var inflight: set<Path>
    var failCounts: map<Path, int>
    var fpCache: map<Path, FpEntry>
    var queueDepth: int

    ghost function View(): Shared
      reads this
    {
      Shared(seen, files, inflight, failCounts, fpCache, queueDepth)
    }

    constructor ()
      ensures View() == Shared(map[], [], {}, map[], map[], 0)
    {
      seen, files, inflight, failCounts, fpCache, queueDepth := map[], [], {}, map[], map[], 0;
    }

    /** The innermost block of the poll loop. */
    method TryEnqueue(path: Path, stamp: int) returns (queued: bool)
      modifies this
      ensures View() == Enqueue(old(View()), path, stamp)
      ensures queued <==> path !in old(inflight) && path !in old(seen)
      ensures !queued ==> View() == old(View())
      ensures queued ==> seen == old(seen)[path := stamp] && files == old(files) + [path]
      ensures queued ==> queueDepth == old(queueDepth) + 1
      ensures inflight == old(inflight) && failCounts == old(failCounts) && fpCache == old(fpCache)
    {
      if path in inflight {
        return false;
      }
      if path in seen {
        return false;
      }
      seen := seen[path := stamp];
      files := files + [path];
      queueDepth := queueDepth + 1;
      queued := true;
    }

    method CleanupSeenTtl(now: int, ttl: int)
      modifies this
      ensures View() == Cleanup(old(View()), now, ttl)
      ensures forall p :: p in seen <==> p in old(seen) && now - old(seen)[p] <= ttl
      ensures forall p :: p in seen ==> seen[p] == old(seen)[p]
      ensures View() == old(View()).(seen := seen)
    {
      var rest := seen.Keys;
      while exists p :: p in rest
        invariant rest <= old(seen).Keys
        invariant seen.Keys <= old(seen).Keys && rest <= seen.Keys
        invariant forall p :: p in seen ==> seen[p] == old(seen)[p]
        invariant forall p :: p in old(seen).Keys - rest ==> (p in seen <==> now - old(seen)[p] <= ttl)
        invariant files == old(files) && inflight == old(inflight) && failCounts == old(failCounts)
        invariant fpCache == old(fpCache) && queueDepth == old(queueDepth)
        decreases rest
      {
        var p :| p in rest;
        if now - seen[p] > ttl {
          seen := seen - {p};
        }
        rest := rest - {p};
      }
      assert rest == {};
    }

    /** The locked region at the top of a worker's loop; `None` when there is nothing to do. */
    method TakeNext() returns (got: bool, path: Path)
      modifies this
      ensures got <==> old(files) != []
      ensures !got ==> View() == old(View())
      ensures got ==> path == old(files)[0] && View() == TakeFront(old(View()))
      ensures got ==> files == old(files)[1..] && inflight == old(inflight) + {path}
      ensures got ==> queueDepth == old(queueDepth) - 1
      ensures seen == old(seen) && failCounts == old(failCounts) && fpCache == old(fpCache)
    {
      if files == [] {
        return false, "";
      }
      path := files[0];
      files := files[1..];
      queueDepth := queueDepth - 1;
      inflight := inflight + {path};
      got := true;
    }

    method LookupFingerprint(path: Path, fp: Fingerprint, now: int) returns (hit: bool, sha256: string)
      modifies this
      ensures hit <==> Hit(old(View()), path, fp)
      ensures hit <==> path in old(fpCache) && old(fpCache)[path].fp.size == fp.size &&
                       old(fpCache)[path].fp.mtime == fp.mtime && old(fpCache)[path].fp.fnv == fp.fnv
      ensures hit ==> fpCache == old(fpCache)[path := FpEntry(fp, sha256, now)]
      ensures hit ==> sha256 == old(fpCache)[path].sha256 && View() == Touch(old(View()), path, now)
      ensures !hit ==> sha256 == "" && View() == old(View())
    {
      hit, sha256 := false, "";
      if path in fpCache {
        var e := fpCache[path];
        if e.fp.size == fp.size && e.fp.mtime == fp.mtime && e.fp.fnv == fp.fnv {
          sha256 := e.sha256;
          fpCache := fpCache[path := e.(lastSeen := now)];
          hit := true;
        }
      }
    }

    method StoreFingerprint(path: Path, fp: Fingerprint, sha256: string, now: int)
      modifies this
      ensures IsEviction(StoreEntry(old(View()), path, fp, sha256, now).fpCache, fpCache, MAX_CACHE_ENTRIES)
      ensures View() == old(View()).(fpCache := fpCache)
      ensures path in fpCache ==> fpCache[path] == FpEntry(fp, sha256, now)
      ensures forall p :: p in fpCache && p != path ==> p in old(fpCache) && fpCache[p] == old(fpCache)[p]
    {
      fpCache := fpCache[path := FpEntry(fp, sha256, now)];
      EvictFpCache();
    }

    /** Drop the least recently seen entry until the cache fits. */
    method EvictFpCache()
      modifies this
      ensures IsEviction(old(fpCache), fpCache, MAX_CACHE_ENTRIES)
      ensures View() == old(View()).(fpCache := fpCache)
      ensures |old(fpCache)| <= 10000 ==> fpCache == old(fpCache)
      ensures |old(fpCache)| > 10000 ==> |fpCache| == 10000
      ensures forall p :: p in fpCache ==> p in old(fpCache) && fpCache[p] == old(fpCache)[p]
      ensures forall p, q :: p in old(fpCache) && p !in fpCache && q in fpCache ==>
                old(fpCache)[p].lastSeen <= old(fpCache)[q].lastSeen
    {
      while |fpCache| > MAX_CACHE_ENTRIES
        invariant fpCache.Keys <= old(fpCache).Keys
        invariant forall p :: p in fpCache ==> fpCache[p] == old(fpCache)[p]
        invariant |old(fpCache)| <= MAX_CACHE_ENTRIES ==> fpCache == old(fpCache)
        invariant |fpCache| >= (if |old(fpCache)| <= MAX_CACHE_ENTRIES then |old(fpCache)| else MAX_CACHE_ENTRIES)
        invariant forall p, q :: p in old(fpCache) && p !in fpCache && q in fpCache ==>
                    old(fpCache)[p].lastSeen <= old(fpCache)[q].lastSeen
        invariant View() == old(View()).(fpCache := fpCache)
      {
        var oldest := Oldest();
        RemovalShrinks(fpCache, oldest);
        fpCache := fpCache - {oldest};
      }
      CacheNotLarger(fpCache, old(fpCache));
    }

    /** The scan of the eviction loop. */
    method Oldest() returns (oldest: Path)
      requires |fpCache| > 0
      ensures oldest in fpCache
      ensures forall p :: p in fpCache ==> fpCache[oldest].lastSeen <= fpCache[p].lastSeen
    {
      NonEmpty(fpCache);
      oldest :| oldest in fpCache;
      var rest := fpCache.Keys;
      while exists p :: p in rest
        invariant rest <= fpCache.Keys && oldest in fpCache
        invariant forall p :: p in fpCache.Keys - rest ==> fpCache[oldest].lastSeen <= fpCache[p].lastSeen
        decreases rest
      {
        var p :| p in rest;
        if fpCache[p].lastSeen < fpCache[oldest].lastSeen {
          oldest := p;
        }
        rest := rest - {p};
      }
    }

    method EraseFailures(path: Path)
      modifies this
      ensures View() == ClearFailures(old(View()), path)
      ensures View() == old(View()).(failCounts := old(failCounts) - {path})
    {
      failCounts := failCounts - {path};
    }

    method ReleaseInflight(path: Path)
      modifies this
      ensures View() == Release(old(View()), path)
      ensures View() == old(View()).(inflight := old(inflight) - {path})
    {
      inflight := inflight - {path};
    }

    /** The locked region of the dead-letter routine. */
    method RecordFailure(path: Path, maxRetries: int) returns (newRetry: int, deadLetter: bool)
      modifies this
      ensures newRetry == (if path in old(failCounts) then old(failCounts)[path] else 0) + 1
      ensures deadLetter <==> newRetry >= maxRetries
      ensures View() == CountFailure(old(View()), path, maxRetries)
      ensures failCounts == if deadLetter then old(failCounts) - {path} else old(failCounts)[path := newRetry]
    {
      var count := (if path in failCounts then failCounts[path] else 0) + 1;
      failCounts := failCounts[path := count];
      newRetry := count;
      deadLetter := newRetry >= maxRetries;
      if deadLetter {
        failCounts := failCounts - {path};
      }
    }
  }

  lemma NonEmpty(m: map<Path, FpEntry>)
    ensures m == map[] || exists p :: p in m
    ensures m == map[] <==> |m| == 0
  {
    if !exists p :: p in m {
      assert m == map[];
    }
  }

  lemma RemovalShrinks(m: map<Path, FpEntry>, p: Path)
    requires p in m
    ensures |m - {p}| == |m| - 1
  {
    assert (m - {p}).Keys == m.Keys - {p};
    assert |m.Keys - {p}| == |m.Keys| - 1;
    assert |m - {p}| == |(m - {p}).Keys| && |m| == |m.Keys|;
  }

  lemma CacheNotLarger(a: map<Path, FpEntry>, b: map<Path, FpEntry>)
    requires a.Keys <= b.Keys
    ensures |a| <= |b|
  {
    assert b.Keys == a.Keys + (b.Keys - a.Keys);
    assert |a| == |a.Keys| && |b| == |b.Keys|;
  }
}
