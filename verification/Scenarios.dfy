/**
 Runs of the worker protocol from the initial state that show which hypotheses
 are needed, and with them the converse of the cache theorem.
 */
module Scenarios {
  import opened Bytes
  import opened Fnv
  import opened WorkerState
  import opened Worker
  import opened Ownership
  import opened FpCache

  // ---------------------------------------------------------------- building runs

  ghost predicate Reaches(cfg: Config, s: State, es: seq<Step>, end: State) {
    Run(cfg, s, es) && Exec(cfg, s, es) == end
  }

  /** One more step at the end of a run. */
  lemma {:induction false} Extend(cfg: Config, s: State, es: seq<Step>, end: State, e: Step)
    requires Reaches(cfg, s, es, end) && Enabled(cfg, end, e)
    ensures Reaches(cfg, s, es + [e], Next(cfg, end, e))
    ensures AlwaysCalm(cfg, s, es + [e]) <==> AlwaysCalm(cfg, s, es) && Calm(cfg, end, e)
    ensures AlwaysBenign(cfg, s, es + [e]) <==> AlwaysBenign(cfg, s, es) && Benign(cfg, end, e)
    decreases |es|
  {
    if es == [] {
      assert [e][1..] == [];
      assert es + [e] == [e];
    } else {
      Extend(cfg, Next(cfg, s, es[0]), es[1..], end, e);
      assert (es + [e])[1..] == es[1..] + [e];
    }
  }

  /** Steps that change no file and open no window. */
  predicate Quiet(e: Step) { !e.Modify? && !e.MoveAway? && !e.Sweep? && !e.Take? }

  lemma ExtendQuietly(cfg: Config, s: State, es: seq<Step>, end: State, e: Step)
    requires Reaches(cfg, s, es, end) && Enabled(cfg, end, e) && Quiet(e)
    ensures Reaches(cfg, s, es + [e], Next(cfg, end, e))
    ensures AlwaysCalm(cfg, s, es + [e]) <==> AlwaysCalm(cfg, s, es)
    ensures AlwaysBenign(cfg, s, es + [e]) <==> AlwaysBenign(cfg, s, es)
  {
    Extend(cfg, s, es, end, e);
  }

  function Later(cfg: Config, from: int): int {
    from + (if cfg.pollIntervalSec > 0 then cfg.pollIntervalSec else 0) * NS_PER_SEC
  }

  /** One round of the poll loop at time `t` that offers nothing. */
  lemma EmptyRound(cfg: Config, s: State, es0: seq<Step>, s0: State, t: int) returns (es: seq<Step>, end: State)
    requires Reaches(cfg, s, es0, s0) && s0.poller.Waiting? && s0.clock <= t && Later(cfg, s0.poller.lastScan) <= t
    ensures Reaches(cfg, s, es, end)
    ensures end == s0.(clock := t, poller := Waiting(t), shared := Cleanup(s0.shared, t, cfg.Ttl()))
    ensures AlwaysCalm(cfg, s, es) <==> AlwaysCalm(cfg, s, es0)
    ensures s0.shared.files == [] ==> (AlwaysBenign(cfg, s, es) <==> AlwaysBenign(cfg, s, es0))
  {
    es, end := es0, s0;
    ExtendQuietly(cfg, s, es, end, Tick(t));
    es, end := es + [Tick(t)], s0.(clock := t);
    ExtendQuietly(cfg, s, es, end, StartScan);
    es, end := es + [StartScan], end.(poller := Scanning(t));
    ExtendQuietly(cfg, s, es, end, EndScan);
    es, end := es + [EndScan], end.(poller := ScanDone(t));
    ExtendQuietly(cfg, s, es, end, ReadSweepClock);
    es, end := es + [ReadSweepClock], end.(poller := Sweeping(t, t));
    Extend(cfg, s, es, end, Sweep);
    es, end := es + [Sweep], Next(cfg, end, Sweep);
  }

  /** One round that offers one path, which is neither in flight nor seen. */
  lemma OfferingRound(cfg: Config, s: State, es0: seq<Step>, s0: State, t: int, path: Path)
    returns (es: seq<Step>, end: State)
    requires Reaches(cfg, s, es0, s0) && s0.poller.Waiting? && s0.clock <= t && Later(cfg, s0.poller.lastScan) <= t
    requires path !in s0.shared.inflight && path !in s0.shared.seen
    ensures Reaches(cfg, s, es, end)
    ensures end == s0.(clock := t, poller := Waiting(t), enqueued := s0.enqueued + [(path, t)],
                       shared := Cleanup(Enqueue(s0.shared, path, t), t, cfg.Ttl()))
    ensures AlwaysCalm(cfg, s, es) <==> AlwaysCalm(cfg, s, es0)
    ensures s0.shared.files == [] && cfg.pollIntervalSec >= 0 ==>
              (AlwaysBenign(cfg, s, es) <==> AlwaysBenign(cfg, s, es0))
  {
    es, end := es0, s0;
    ExtendQuietly(cfg, s, es, end, Tick(t));
    es, end := es + [Tick(t)], s0.(clock := t);
    ExtendQuietly(cfg, s, es, end, StartScan);
    es, end := es + [StartScan], end.(poller := Scanning(t));
    ExtendQuietly(cfg, s, es, end, Poll(path));
    es, end := es + [Poll(path)], end.(shared := Enqueue(s0.shared, path, t), enqueued := s0.enqueued + [(path, t)]);
    ExtendQuietly(cfg, s, es, end, EndScan);
    es, end := es + [EndScan], end.(poller := ScanDone(t));
    ExtendQuietly(cfg, s, es, end, ReadSweepClock);
    es, end := es + [ReadSweepClock], end.(poller := Sweeping(t, t));
    Extend(cfg, s, es, end, Sweep);
    es, end := es + [Sweep], Next(cfg, end, Sweep);
  }

  /** `s1` is `s0` with `path` queued behind the rest; only the poller has moved. */
  predicate Requeued(s0: State, s1: State, path: Path) {
    && s1.workers == s0.workers && s1.disk == s0.disk && s1.versions == s0.versions
    && s1.poller.Waiting? && s1.shared.files == s0.shared.files + [path]
    && s1.shared.inflight == s0.shared.inflight && s1.shared.fpCache == s0.shared.fpCache
    && s1.shared.failCounts == s0.shared.failCounts
  }

  /** After long enough the poller queues a path again, whatever it has seen before. */
  lemma Requeue(cfg: Config, s: State, es0: seq<Step>, s0: State, path: Path) returns (es: seq<Step>, end: State)
    requires Reaches(cfg, s, es0, s0) && s0.poller.Waiting? && path !in s0.shared.inflight
    ensures Reaches(cfg, s, es, end) && Requeued(s0, end, path)
    ensures AlwaysCalm(cfg, s, es) <==> AlwaysCalm(cfg, s, es0)
    ensures s0.shared.files == [] && cfg.pollIntervalSec >= 0 ==>
              (AlwaysBenign(cfg, s, es) <==> AlwaysBenign(cfg, s, es0))
  {
    var t0 := Later(cfg, s0.poller.lastScan);
    var t1 := if t0 < s0.clock then s0.clock else t0;
    var t2 := if path in s0.shared.seen then s0.shared.seen[path] + cfg.Ttl() + 1 else t1;
    var t := if t1 < t2 then t2 else t1;
    es, end := EmptyRound(cfg, s, es0, s0, t);
    es, end := OfferingRound(cfg, s, es, end, Later(cfg, t), path);
  }

  // ---------------------------------------------------------------- passes of the first worker

  ghost predicate OthersIdle(s: State) {
    |s.workers| >= 1 && forall w :: 1 <= w < |s.workers| ==> s.workers[w].Idle?
  }

  function Printing(cfg: Config, v: Version): Fingerprint {
    if cfg.fastFingerprint then FingerprintOf(v) else Fingerprint(0, 0, 0)
  }

  /** The worker takes the queued path and looks at the file. */
  lemma TakeAndPrint(cfg: Config, s: State, es0: seq<Step>, s0: State, path: Path) returns (es: seq<Step>, end: State)
    requires Reaches(cfg, s, es0, s0) && OthersIdle(s0) && s0.workers[0].Idle? && s0.shared.files == [path]
    ensures Reaches(cfg, s, es, end)
    ensures end == s0.(workers := s0.workers[0 := Looked(cfg, path, OnDisk(s0.disk, path))],
                       shared := TakeFront(s0.shared))
    ensures AlwaysCalm(cfg, s, es) <==> AlwaysCalm(cfg, s, es0)
    ensures AlwaysBenign(cfg, s, es) <==> AlwaysBenign(cfg, s, es0)
  {
    Extend(cfg, s, es0, s0, Take(0));
    es, end := es0 + [Take(0)], s0.(workers := s0.workers[0 := Taken(path)], shared := TakeFront(s0.shared));
    ExtendQuietly(cfg, s, es, end, Print(0));
    es, end := es + [Print(0)], Next(cfg, end, Print(0));
  }

  function Looked(cfg: Config, path: Path, v: Version): Phase {
    if cfg.fastFingerprint then Printed(path, FingerprintOf(v)) else NeedSha(path, Fingerprint(0, 0, 0))
  }

  /** The worker takes the queued path, and the cache does not know it. */
  lemma TakeAndMiss(cfg: Config, s: State, es0: seq<Step>, s0: State, path: Path) returns (es: seq<Step>, end: State)
    requires Reaches(cfg, s, es0, s0) && OthersIdle(s0) && s0.workers[0].Idle?
    requires s0.shared.files == [path] && path !in s0.shared.fpCache
    ensures Reaches(cfg, s, es, end)
    ensures end == s0.(workers := s0.workers[0 := NeedSha(path, Printing(cfg, OnDisk(s0.disk, path)))],
                       shared := TakeFront(s0.shared))
    ensures AlwaysCalm(cfg, s, es) <==> AlwaysCalm(cfg, s, es0)
    ensures AlwaysBenign(cfg, s, es) <==> AlwaysBenign(cfg, s, es0)
  {
    es, end := TakeAndPrint(cfg, s, es0, s0, path);
    if cfg.fastFingerprint {
      ExtendQuietly(cfg, s, es, end, Lookup(0));
      es, end := es + [Lookup(0)], Next(cfg, end, Lookup(0));
    }
  }

  /** The worker takes the queued path, and the cache knows its fingerprint. */
  lemma TakeAndHit(cfg: Config, s: State, es0: seq<Step>, s0: State, path: Path) returns (es: seq<Step>, end: State)
    requires Reaches(cfg, s, es0, s0) && OthersIdle(s0) && s0.workers[0].Idle? && cfg.fastFingerprint
    requires s0.shared.files == [path] && Hit(s0.shared, path, FingerprintOf(OnDisk(s0.disk, path)))
    ensures Reaches(cfg, s, es, end)
    ensures end.workers == s0.workers[0 := Hashed(path, s0.shared.fpCache[path].sha256)]
    ensures end.disk == s0.disk && end.versions == s0.versions
    ensures AlwaysCalm(cfg, s, es) <==> AlwaysCalm(cfg, s, es0)
    ensures AlwaysBenign(cfg, s, es) <==> AlwaysBenign(cfg, s, es0)
  {
    es, end := TakeAndPrint(cfg, s, es0, s0, path);
    ExtendQuietly(cfg, s, es, end, Lookup(0));
    es, end := es + [Lookup(0)], Next(cfg, end, Lookup(0));
  }

  /** What storing a hash in the empty cache leaves behind. */
  function Remembered(cfg: Config, s: State, path: Path, fp: Fingerprint, hash: string): Shared {
    if Caches(cfg, hash) then StoreEntry(s.shared, path, fp, hash, s.clock) else s.shared
  }

  lemma NothingToEvict(cfg: Config, s: State, w: nat)
    requires At(s, w) && s.workers[w].ShaDone? && s.shared.fpCache == map[]
    ensures Enabled(cfg, s, Store(w, {}))
    ensures var ShaDone(path, fp, hash) := s.workers[w];
            Next(cfg, s, Store(w, {})) ==
            s.(workers := s.workers[w := Hashed(path, hash)], shared := Remembered(cfg, s, path, fp, hash))
  {
    var ShaDone(path, fp, hash) := s.workers[w];
    var stored := StoreEntry(s.shared, path, fp, hash, s.clock).fpCache;
    assert stored == map[path := FpEntry(fp, hash, s.clock)] && stored - {} == stored;
  }

  /** It hashes the file and stores what it found. */
  lemma HashAndStore(cfg: Config, s: State, es0: seq<Step>, s0: State, digestOk: bool)
    returns (es: seq<Step>, end: State)
    requires Reaches(cfg, s, es0, s0) && |s0.workers| >= 1 && s0.workers[0].NeedSha?
    requires s0.shared.fpCache == map[]
    ensures var NeedSha(path, fp) := s0.workers[0];
            var hash := Digest(cfg, OnDisk(s0.disk, path), digestOk);
            && Reaches(cfg, s, es, end)
            && end == s0.(workers := s0.workers[0 := Hashed(path, hash)], shared := Remembered(cfg, s0, path, fp, hash))
    ensures AlwaysCalm(cfg, s, es) <==> AlwaysCalm(cfg, s, es0)
    ensures AlwaysBenign(cfg, s, es) <==> AlwaysBenign(cfg, s, es0)
  {
    var NeedSha(path, fp) := s0.workers[0];
    var hash := Digest(cfg, OnDisk(s0.disk, path), digestOk);
    ExtendQuietly(cfg, s, es0, s0, HashFile(0, digestOk));
    es, end := es0 + [HashFile(0, digestOk)], s0.(workers := s0.workers[0 := ShaDone(path, fp, hash)]);
    NothingToEvict(cfg, end, 0);
    ExtendQuietly(cfg, s, es, end, Store(0, {}));
    es, end := es + [Store(0, {})], Next(cfg, end, Store(0, {}));
  }

  /** The file turns out to be a duplicate and cannot be moved away. */
  lemma LeaveInPlace(cfg: Config, s: State, es0: seq<Step>, s0: State) returns (es: seq<Step>, end: State)
    requires Reaches(cfg, s, es0, s0) && |s0.workers| >= 1 && s0.workers[0].Hashed? && s0.workers[0].hash != ""
    ensures Reaches(cfg, s, es, end)
    ensures var path := s0.workers[0].path;
            end == s0.(workers := s0.workers[0 := Idle], verdicts := s0.verdicts + [Resolved(path)],
                       shared := Release(ClearFailures(s0.shared, path), path))
    ensures AlwaysCalm(cfg, s, es) <==> AlwaysCalm(cfg, s, es0)
    ensures AlwaysBenign(cfg, s, es) <==> AlwaysBenign(cfg, s, es0)
  {
    var path := s0.workers[0].path;
    ExtendQuietly(cfg, s, es0, s0, FindDuplicate(0));
    es, end := es0 + [FindDuplicate(0)], Resolve(s0, 0);
    Extend(cfg, s, es, end, MoveAway(0, false));
    es, end := es + [MoveAway(0, false)], end.(workers := s0.workers[0 := Leaving(path)]);
    ExtendQuietly(cfg, s, es, end, ReleaseLast(0));
    es, end := es + [ReleaseLast(0)], Next(cfg, end, ReleaseLast(0));
  }

  /** Somebody outside replaces the file while no worker looks at it. */
  lemma Replace(cfg: Config, s: State, es0: seq<Step>, s0: State, path: Path, v: Version)
    returns (es: seq<Step>, end: State)
    requires Reaches(cfg, s, es0, s0) && OthersIdle(s0) && s0.workers[0].Idle?
    ensures Reaches(cfg, s, es, end)
    ensures end == s0.(disk := s0.disk[path := v], versions := s0.versions + {(path, v)})
    ensures AlwaysCalm(cfg, s, es) <==> AlwaysCalm(cfg, s, es0)
    ensures AlwaysBenign(cfg, s, es) <==> AlwaysBenign(cfg, s, es0)
  {
    Extend(cfg, s, es0, s0, Modify(path, v));
    es, end := es0 + [Modify(path, v)], Next(cfg, s0, Modify(path, v));
  }

  /** From the start: the file appears, is queued, and the first worker is about to hash it. */
  lemma FirstPass(cfg: Config, s: State, path: Path, v: Version) returns (es: seq<Step>, end: State)
    requires Init(s) && |s.workers| >= 1
    ensures Reaches(cfg, s, es, end)
    ensures end.workers == s.workers[0 := NeedSha(path, Printing(cfg, v))]
    ensures end.disk == s.disk[path := v] && end.versions == s.versions + {(path, v)} && end.poller.Waiting?
    ensures end.shared.files == [] && end.shared.fpCache == map[] && end.shared.failCounts == map[]
    ensures end.shared.inflight == {path}
    ensures AlwaysCalm(cfg, s, es) && (cfg.pollIntervalSec >= 0 ==> AlwaysBenign(cfg, s, es))
  {
    es, end := Replace(cfg, s, [], s, path, v);
    es, end := Requeue(cfg, s, es, end, path);
    assert end.shared.files == [path];
    es, end := TakeAndMiss(cfg, s, es, end, path);
  }

  /** The file is replaced, queued once more, and its fingerprint is in the cache. */
  lemma SecondPass(cfg: Config, s: State, es0: seq<Step>, s0: State, path: Path, v: Version)
    returns (es: seq<Step>, end: State)
    requires Reaches(cfg, s, es0, s0) && OthersIdle(s0) && s0.workers[0].Idle? && cfg.fastFingerprint
    requires s0.poller.Waiting? && s0.shared.files == [] && path !in s0.shared.inflight
    requires Hit(s0.shared, path, FingerprintOf(v))
    ensures Reaches(cfg, s, es, end)
    ensures end.workers == s0.workers[0 := Hashed(path, s0.shared.fpCache[path].sha256)]
    ensures end.disk == s0.disk[path := v] && end.versions == s0.versions + {(path, v)}
    ensures AlwaysCalm(cfg, s, es) <==> AlwaysCalm(cfg, s, es0)
    ensures cfg.pollIntervalSec >= 0 ==> (AlwaysBenign(cfg, s, es) <==> AlwaysBenign(cfg, s, es0))
  {
    es, end := Replace(cfg, s, es0, s0, path, v);
    es, end := Requeue(cfg, s, es, end, path);
    assert end.shared.files == [path];
    es, end := TakeAndHit(cfg, s, es, end, path);
  }

  // ---------------------------------------------------------------- ownership

  /** A queue older than the TTL lets two workers take the same path. */
  lemma StaleQueueHasTwoOwners(cfg: Config, s: State, path: Path) returns (es: seq<Step>)
    requires Init(s) && |s.workers| >= 2
    ensures Run(cfg, s, es) && |Exec(cfg, s, es).workers| == |s.workers|
    ensures Owns(Exec(cfg, s, es).workers[0], path) && Owns(Exec(cfg, s, es).workers[1], path)
  {
    var end: State;
    es, end := Requeue(cfg, s, [], s, path);
    es, end := Requeue(cfg, s, es, end, path);
    assert end.shared.files == [path, path];
    Extend(cfg, s, es, end, Take(0));
    es, end := es + [Take(0)], Next(cfg, end, Take(0));
    Extend(cfg, s, es, end, Take(1));
    es, end := es + [Take(1)], Next(cfg, end, Take(1));
  }

  /** The hash cannot be computed, and the failing worker releases its marker. */
  lemma FailToHash(cfg: Config, s: State, es0: seq<Step>, s0: State) returns (es: seq<Step>, end: State)
    requires Reaches(cfg, s, es0, s0) && |s0.workers| >= 1 && s0.workers[0].NeedSha? && s0.shared.fpCache == map[]
    ensures Reaches(cfg, s, es, end)
    ensures end.workers == s0.workers[0 := Counting(s0.workers[0].path, false)]
    ensures end.disk == s0.disk && end.poller == s0.poller
    ensures end.shared == Release(s0.shared, s0.workers[0].path)
    ensures AlwaysBenign(cfg, s, es) <==> AlwaysBenign(cfg, s, es0)
  {
    es, end := HashAndStore(cfg, s, es0, s0, false);
    ExtendQuietly(cfg, s, es, end, FailHash(0));
    es, end := es + [FailHash(0)], Next(cfg, end, FailHash(0));
    ExtendQuietly(cfg, s, es, end, ReleaseFirst(0));
    es, end := es + [ReleaseFirst(0)], Next(cfg, end, ReleaseFirst(0));
  }

  /** The first pass over a path fails, and the poller offers the path again before the failure is counted. */
  lemma FailedPass(cfg: Config, s: State, path: Path, v: Version) returns (es: seq<Step>, end: State)
    requires Init(s) && |s.workers| >= 1 && cfg.pollIntervalSec >= 0
    ensures Reaches(cfg, s, es, end) && AlwaysBenign(cfg, s, es)
    ensures end.workers == s.workers[0 := Counting(path, false)] && end.disk == s.disk[path := v]
    ensures end.shared.files == [path] && end.shared.failCounts == map[]
  {
    es, end := FirstPass(cfg, s, path, v);
    es, end := FailToHash(cfg, s, es, end);
    es, end := Requeue(cfg, s, es, end, path);
  }

  /** The failing worker goes on and moves the file to the dead letters. */
  lemma DeadLetterUnderneath(cfg: Config, s: State, path: Path)
    requires |s.workers| >= 2 && s.workers[0] == Counting(path, false) && s.workers[1] == Taken(path)
    requires OnDisk(s.disk, path).File? && NewCount(s.shared, path) >= cfg.maxRetries
    ensures Enabled(cfg, s, Count(0))
    ensures var counted := Next(cfg, s, Count(0));
            && Enabled(cfg, counted, MoveAway(0, true))
            && var moved := Next(cfg, counted, MoveAway(0, true));
               moved.workers == s.workers[0 := Idle] && OnDisk(moved.disk, path) == Gone
  {
    var counted := Next(cfg, s, Count(0));
    assert counted.workers[0] == DeadLettering(path, false);
    var moved := Next(cfg, counted, MoveAway(0, true));
    assert moved.workers == s.workers[0 := Idle];
  }

  /**
   A worker whose pass failed releases its marker before it counts the failure
   and moves the file to the dead letters.  All steps so far are benign; but a
   second worker can take the path again, and then (here for a limit of one) the
   file is moved away under it.
   */
  lemma FailingWorkerIsOvertaken(cfg: Config, s: State, path: Path, v: Version) returns (es: seq<Step>)
    requires Init(s) && |s.workers| >= 2 && cfg.pollIntervalSec >= 0 && v.File?
    ensures Run(cfg, s, es + [Take(1)]) && Run(cfg, s, es) && AlwaysBenign(cfg, s, es)
    ensures var taken := Exec(cfg, s, es + [Take(1)]);
            && |taken.workers| == |s.workers|
            && taken.workers[0] == Counting(path, false) && taken.workers[1] == Taken(path)
            && OnDisk(taken.disk, path) == v
            && (cfg.maxRetries <= 1 ==>
                  && Enabled(cfg, taken, Count(0))
                  && var counted := Next(cfg, taken, Count(0));
                     && Enabled(cfg, counted, MoveAway(0, true))
                     && var moved := Next(cfg, counted, MoveAway(0, true));
                        |moved.workers| >= 2 && moved.workers[1] == Taken(path) && OnDisk(moved.disk, path) == Gone)
  {
    var end: State;
    es, end := FailedPass(cfg, s, path, v);
    Extend(cfg, s, es, end, Take(1));
    var taken := end.(workers := end.workers[1 := Taken(path)], shared := TakeFront(end.shared));
    if cfg.maxRetries <= 1 {
      DeadLetterUnderneath(cfg, taken, path);
    }
  }

  // ---------------------------------------------------------------- the cache

  /**
   Two versions with one fingerprint: in a calm run the worker ends up with the
   hash of the first one while the second one is on disk.
   */
  lemma StaleHit(cfg: Config, s: State, path: Path, v1: Version, v2: Version) returns (es: seq<Step>)
    requires Init(s) && |s.workers| >= 1 && cfg.fastFingerprint
    requires FingerprintOf(v1) == FingerprintOf(v2) && Digest(cfg, v1, true) != ""
    ensures Run(cfg, s, es) && AlwaysCalm(cfg, s, es) && (cfg.pollIntervalSec >= 0 ==> AlwaysBenign(cfg, s, es))
    ensures var end := Exec(cfg, s, es);
            && |end.workers| == |s.workers| && end.workers[0] == Hashed(path, Digest(cfg, v1, true))
            && OnDisk(end.disk, path) == v2 && end.versions == s.versions + {(path, v1), (path, v2)}
  {
    var end: State;
    es, end := FirstPass(cfg, s, path, v1);
    es, end := HashAndStore(cfg, s, es, end, true);
    es, end := LeaveInPlace(cfg, s, es, end);
    es, end := SecondPass(cfg, s, es, end, path, v2);
  }

  /**
   A change between the fingerprint and the hash poisons the cache: the run is
   calm before and after, and ends with the hash of `v2` while `v1` is on disk.
   */
  lemma RestlessFile(cfg: Config, s: State, path: Path, v1: Version, v2: Version)
    returns (before: seq<Step>, after: seq<Step>)
    requires Init(s) && |s.workers| >= 1 && cfg.fastFingerprint && Digest(cfg, v2, true) != ""
    ensures Run(cfg, s, before) && AlwaysCalm(cfg, s, before)
    ensures var changed := Next(cfg, Exec(cfg, s, before), Modify(path, v2));
            && Run(cfg, changed, after) && AlwaysCalm(cfg, changed, after)
            && var end := Exec(cfg, changed, after);
               && |end.workers| == |s.workers| && end.workers[0] == Hashed(path, Digest(cfg, v2, true))
               && OnDisk(end.disk, path) == v1 && end.versions == s.versions + {(path, v1), (path, v2)}
  {
    var end: State;
    before, end := FirstPass(cfg, s, path, v1);
    var changed := Next(cfg, end, Modify(path, v2));
    after, end := HashAndStore(cfg, changed, [], changed, true);
    after, end := LeaveInPlace(cfg, changed, after, end);
    after, end := SecondPass(cfg, changed, after, end, path, v1);
  }

  /** A calm run in which the files have no other versions than these. */
  ghost predicate CalmWithin(cfg: Config, vs: set<(Path, Version)>, s: State, es: seq<Step>) {
    && Init(s) && Run(cfg, s, es) && AlwaysCalm(cfg, s, es)
    && forall p, v :: Known(Exec(cfg, s, es).versions, p, v) ==> Known(vs, p, v)
  }

  ghost predicate Transparent(cfg: Config, vs: set<(Path, Version)>) {
    forall s, es :: CalmWithin(cfg, vs, s, es) ==> HashesCurrent(cfg, Exec(cfg, s, es))
  }

  lemma NotFaithfulNotTransparent(cfg: Config, vs: set<(Path, Version)>, path: Path, v1: Version, v2: Version)
    requires cfg.fastFingerprint && Known(vs, path, v1) && Known(vs, path, v2)
    requires FingerprintOf(v1) == FingerprintOf(v2) && Digest(cfg, v1, true) != Digest(cfg, v2, true)
    requires Digest(cfg, v1, true) != ""
    ensures !Transparent(cfg, vs)
  {
    var s := State(Shared(map[], [], {}, map[], map[], 0), [Idle], Waiting(0), 0, map[], {}, [], []);
    var es := StaleHit(cfg, s, path, v1, v2);
    var end := Exec(cfg, s, es);
    assert CalmWithin(cfg, vs, s, es);
    assert end.workers[0].Hashed? && !IsCurrent(cfg, end, path, end.workers[0].hash);
  }

  /**
   The cache is transparent in every calm run over a set of file versions if and
   only if the fingerprint tells apart all versions of a path that differ in their digest.
   */
  lemma TransparentExactly(cfg: Config, vs: set<(Path, Version)>)
    ensures Transparent(cfg, vs) <==> Faithful(cfg, vs)
  {
    if Faithful(cfg, vs) {
      forall s, es | CalmWithin(cfg, vs, s, es) ensures HashesCurrent(cfg, Exec(cfg, s, es)) {
        FaithfulOnFewer(cfg, Exec(cfg, s, es).versions, vs);
        CacheIsTransparent(cfg, s, es);
      }
    } else {
      var p, v1, v2 :| Known(vs, p, v1) && Known(vs, p, v2) && FingerprintOf(v1) == FingerprintOf(v2) &&
                       Digest(cfg, v1, true) != Digest(cfg, v2, true);
      if Digest(cfg, v1, true) != "" {
        NotFaithfulNotTransparent(cfg, vs, p, v1, v2);
      } else {
        NotFaithfulNotTransparent(cfg, vs, p, v2, v1);
      }
    }
  }

  /**
   A rewrite of one byte that keeps size and mtime can go unnoticed exactly when
   it is behind the first 4096 bytes.
   */
  lemma OneByteRewriteIsMissed(cfg: Config, path: Path, a: seq<byte>, b: seq<byte>, mtime: int, k: nat)
    requires |a| == |b| && k < |a| && a[k] != b[k]
    requires forall i :: 0 <= i < |a| && i != k ==> a[i] == b[i]
    requires cfg.fastFingerprint && cfg.sha256(a) != cfg.sha256(b)
    ensures Transparent(cfg, {(path, File(a, mtime, true)), (path, File(b, mtime, true))}) <==> k < WINDOW
  {
    var va, vb := File(a, mtime, true), File(b, mtime, true);
    var vs := {(path, va), (path, vb)};
    TransparentExactly(cfg, vs);
    OneByteRewriteIsSeen(a, b, mtime, k);
    assert Known(vs, path, va) && Known(vs, path, vb);
    assert Digest(cfg, va, true) != Digest(cfg, vb, true);
  }
}
