/** The fingerprint cache against a full hash of the file, over every interleaving. */
module FpCache {
  import opened Bytes
  import opened Fnv
  import opened WorkerState
  import opened Worker
  import opened Ownership

  /** `v` is among the states of `path` listed in `vs`; any path may be absent. */
  predicate Known(vs: set<(Path, Version)>, path: Path, v: Version) {
    v.Gone? || (path, v) in vs
  }

  /** Size, mtime and the hash of the first 4096 bytes tell the contents of one path apart. */
  ghost predicate Distinguishes(cfg: Config, vs: set<(Path, Version)>) {
    forall p, v1, v2 :: Known(vs, p, v1) && Known(vs, p, v2) && FingerprintOf(v1) == FingerprintOf(v2) ==>
      Digest(cfg, v1, true) == Digest(cfg, v2, true)
  }

  /** What the cache relies on, where it is used at all. */
  ghost predicate Faithful(cfg: Config, vs: set<(Path, Version)>) {
    cfg.fastFingerprint ==> Distinguishes(cfg, vs)
  }

  /** The thread is between its first look at the file and the decision on its hash. */
  predicate Hashing(ph: Phase, path: Path) {
    (ph.Printed? || ph.NeedSha? || ph.ShaDone? || ph.Hashed?) && ph.path == path
  }

  /** The step changes the file, or moves it away. */
  ghost predicate Changes(cfg: Config, s: State, e: Step, path: Path)
    requires Enabled(cfg, s, e)
  {
    (e.Modify? && e.path == path) || (e.MoveAway? && e.moved && s.workers[e.w].path == path)
  }

  /** A file does not change while a worker is hashing it. */
  ghost predicate Calm(cfg: Config, s: State, e: Step)
    requires Enabled(cfg, s, e)
  {
    forall w, p :: 0 <= w < |s.workers| && Changes(cfg, s, e, p) ==> !Hashing(s.workers[w], p)
  }

  ghost predicate AlwaysCalm(cfg: Config, s: State, es: seq<Step>)
    requires Run(cfg, s, es)
    decreases |es|
  {
    es == [] || (Calm(cfg, s, es[0]) && AlwaysCalm(cfg, Next(cfg, s, es[0]), es[1..]))
  }

  /** Some past version of the path has this fingerprint and this digest. */
  ghost predicate Recorded(cfg: Config, vs: set<(Path, Version)>, path: Path, e: FpEntry) {
    exists v :: Known(vs, path, v) && FingerprintOf(v) == e.fp && Digest(cfg, v, true) == e.sha256
  }

  ghost predicate CacheInv(cfg: Config, s: State) {
    && (forall p :: p in s.disk ==> Known(s.versions, p, s.disk[p]))
    && (forall p :: p in s.shared.fpCache ==>
          s.shared.fpCache[p].sha256 != "" && Recorded(cfg, s.versions, p, s.shared.fpCache[p]))
    && |s.shared.fpCache| <= MAX_CACHE_ENTRIES
  }

  /** What holds in a calm run; the hash in use is known to be current only where the cache is faithful (`strict`). */
  ghost predicate PhaseOk(cfg: Config, s: State, ph: Phase, strict: bool) {
    match ph
    case Printed(p, fp) => cfg.fastFingerprint && fp == FingerprintOf(OnDisk(s.disk, p))
    case NeedSha(p, fp) => cfg.fastFingerprint ==> fp == FingerprintOf(OnDisk(s.disk, p))
    case ShaDone(p, fp, hash) =>
      && (cfg.fastFingerprint ==> fp == FingerprintOf(OnDisk(s.disk, p)))
      && IsCurrent(cfg, s, p, hash)
    case Hashed(p, hash) => strict ==> IsCurrent(cfg, s, p, hash)
    case _ => true
  }

  /** The hash is missing, or it is the digest of what is on disk. */
  predicate IsCurrent(cfg: Config, s: State, path: Path, hash: string) {
    hash == "" || hash == Digest(cfg, OnDisk(s.disk, path), true)
  }

  ghost predicate PhasesInv(cfg: Config, s: State, strict: bool) {
    forall w :: 0 <= w < |s.workers| ==> PhaseOk(cfg, s, s.workers[w], strict)
  }

  lemma DiskIsKnown(cfg: Config, s: State, path: Path)
    requires CacheInv(cfg, s)
    ensures Known(s.versions, path, OnDisk(s.disk, path))
  {
  }

  lemma RecordedStays(cfg: Config, vs: set<(Path, Version)>, vs': set<(Path, Version)>,
                      path: Path, e: FpEntry, now: int)
    requires Recorded(cfg, vs, path, e) && vs <= vs'
    ensures Recorded(cfg, vs', path, e.(lastSeen := now)) && Recorded(cfg, vs', path, e)
  {
    var v :| Known(vs, path, v) && FingerprintOf(v) == e.fp && Digest(cfg, v, true) == e.sha256;
    assert Known(vs', path, v);
  }

  lemma StoreStep(strict: bool, cfg: Config, s: State, w: nat, evicted: set<Path>)
    requires CacheInv(cfg, s) && PhasesInv(cfg, s, strict) && Enabled(cfg, s, Store(w, evicted))
    ensures CacheInv(cfg, Next(cfg, s, Store(w, evicted)))
  {
    var s' := Next(cfg, s, Store(w, evicted));
    assert PhaseOk(cfg, s, s.workers[w], strict);
    var ShaDone(path, fp, hash) := s.workers[w];
    DiskIsKnown(cfg, s, path);
    forall p | p in s'.shared.fpCache
      ensures s'.shared.fpCache[p].sha256 != "" && Recorded(cfg, s'.versions, p, s'.shared.fpCache[p])
    {
      if p == path && Caches(cfg, hash) {
        assert Known(s'.versions, path, OnDisk(s.disk, path));
      } else {
        RecordedStays(cfg, s.versions, s'.versions, p, s.shared.fpCache[p], s.clock);
      }
    }
  }

  lemma TouchKeepsRecords(cfg: Config, vs: set<(Path, Version)>, sh: Shared, path: Path, now: int, p: Path)
    requires path in sh.fpCache && p in sh.fpCache
    requires sh.fpCache[p].sha256 != "" && Recorded(cfg, vs, p, sh.fpCache[p])
    ensures var e := Touch(sh, path, now).fpCache[p]; e.sha256 != "" && Recorded(cfg, vs, p, e)
  {
    RecordedStays(cfg, vs, vs, p, sh.fpCache[p], now);
  }

  lemma TouchKeepsSize(sh: Shared, path: Path, now: int)
    requires path in sh.fpCache
    ensures |Touch(sh, path, now).fpCache| == |sh.fpCache|
  {
    var touched := Touch(sh, path, now).fpCache;
    assert touched.Keys == sh.fpCache.Keys;
    assert |touched| == |touched.Keys| && |sh.fpCache| == |sh.fpCache.Keys|;
  }

  lemma LookupStep(cfg: Config, s: State, w: nat)
    requires CacheInv(cfg, s) && Enabled(cfg, s, Lookup(w))
    ensures CacheInv(cfg, Next(cfg, s, Lookup(w)))
  {
    var s' := Next(cfg, s, Lookup(w));
    var Printed(path, fp) := s.workers[w];
    assert s'.disk == s.disk && s'.versions == s.versions;
    if Hit(s.shared, path, fp) {
      assert s'.shared == Touch(s.shared, path, s.clock);
      TouchKeepsSize(s.shared, path, s.clock);
      forall p | p in s.shared.fpCache
        ensures s'.shared.fpCache[p].sha256 != "" && Recorded(cfg, s.versions, p, s'.shared.fpCache[p])
      {
        TouchKeepsRecords(cfg, s.versions, s.shared, path, s.clock, p);
      }
    } else {
      assert s'.shared == s.shared;
    }
  }

  lemma OthersLeaveCache(cfg: Config, s: State, e: Step)
    requires Enabled(cfg, s, e) && !e.Store? && !e.Lookup?
    ensures Next(cfg, s, e).shared.fpCache == s.shared.fpCache
  {
    if IsHashing(e) {
      HashingFrame(cfg, s, e);
    } else if IsDeciding(e) {
      DecidingFrame(cfg, s, e);
    } else if IsFinishing(e) {
      FinishingFrame(cfg, s, e);
    } else if IsRelease(e) {
      ReleaseFrame(cfg, s, e);
    } else if IsIdling(e) {
      IdlingFrame(cfg, s, e);
    } else {
      QueueingFrame(cfg, s, e);
    }
  }

  lemma OnlyChangesChange(cfg: Config, s: State, e: Step)
    requires Enabled(cfg, s, e)
    ensures s.versions <= Next(cfg, s, e).versions
    ensures forall p :: !Changes(cfg, s, e, p) ==> OnDisk(Next(cfg, s, e).disk, p) == OnDisk(s.disk, p)
  {
    if IsHashing(e) {
      HashingFrame(cfg, s, e);
    } else if IsDeciding(e) {
      DecidingFrame(cfg, s, e);
    } else if IsFinishing(e) {
      FinishingFrame(cfg, s, e);
    } else if IsRelease(e) {
      ReleaseFrame(cfg, s, e);
    } else if IsIdling(e) {
      IdlingFrame(cfg, s, e);
    } else {
      QueueingFrame(cfg, s, e);
    }
  }

  lemma DiskStaysKnown(cfg: Config, s: State, e: Step, p: Path)
    requires CacheInv(cfg, s) && Enabled(cfg, s, e) && p in Next(cfg, s, e).disk
    ensures Known(Next(cfg, s, e).versions, p, Next(cfg, s, e).disk[p])
  {
    OnlyChangesChange(cfg, s, e);
    if !Changes(cfg, s, e, p) {
      DiskIsKnown(cfg, s, p);
    }
  }

  lemma CacheInvStep(strict: bool, cfg: Config, s: State, e: Step)
    requires CacheInv(cfg, s) && PhasesInv(cfg, s, strict) && Enabled(cfg, s, e)
    ensures CacheInv(cfg, Next(cfg, s, e))
  {
    var s' := Next(cfg, s, e);
    if e.Store? {
      StoreStep(strict, cfg, s, e.w, e.evicted);
    } else if e.Lookup? {
      LookupStep(cfg, s, e.w);
    } else {
      OthersLeaveCache(cfg, s, e);
      OnlyChangesChange(cfg, s, e);
      forall p | p in s'.disk ensures Known(s'.versions, p, s'.disk[p]) {
        DiskStaysKnown(cfg, s, e, p);
      }
      forall p | p in s'.shared.fpCache ensures Recorded(cfg, s'.versions, p, s'.shared.fpCache[p]) {
        RecordedStays(cfg, s.versions, s'.versions, p, s.shared.fpCache[p], s.clock);
      }
    }
  }

  /** A hit returns the digest of what is on disk now. */
  lemma HitIsCurrent(cfg: Config, s: State, path: Path, fp: Fingerprint)
    requires CacheInv(cfg, s) && Distinguishes(cfg, s.versions)
    requires Hit(s.shared, path, fp) && fp == FingerprintOf(OnDisk(s.disk, path))
    ensures s.shared.fpCache[path].sha256 == Digest(cfg, OnDisk(s.disk, path), true)
  {
    DiskIsKnown(cfg, s, path);
    assert Recorded(cfg, s.versions, path, s.shared.fpCache[path]);
  }

  lemma LookupPhase(strict: bool, cfg: Config, s: State, w: nat)
    requires CacheInv(cfg, s) && PhasesInv(cfg, s, strict) && (strict ==> Faithful(cfg, s.versions))
    requires Enabled(cfg, s, Lookup(w))
    ensures PhaseOk(cfg, Next(cfg, s, Lookup(w)), Next(cfg, s, Lookup(w)).workers[w], strict)
  {
    assert PhaseOk(cfg, s, s.workers[w], strict);
    var Printed(path, fp) := s.workers[w];
    if strict && Hit(s.shared, path, fp) {
      HitIsCurrent(cfg, s, path, fp);
    }
  }

  lemma HashFilePhase(strict: bool, cfg: Config, s: State, w: nat, ok: bool)
    requires PhasesInv(cfg, s, strict) && Enabled(cfg, s, HashFile(w, ok))
    ensures PhaseOk(cfg, Next(cfg, s, HashFile(w, ok)), Next(cfg, s, HashFile(w, ok)).workers[w], strict)
  {
    assert PhaseOk(cfg, s, s.workers[w], strict);
  }

  lemma StorePhase(strict: bool, cfg: Config, s: State, w: nat, evicted: set<Path>)
    requires PhasesInv(cfg, s, strict) && Enabled(cfg, s, Store(w, evicted))
    ensures PhaseOk(cfg, Next(cfg, s, Store(w, evicted)), Next(cfg, s, Store(w, evicted)).workers[w], strict)
  {
    assert PhaseOk(cfg, s, s.workers[w], strict);
  }

  lemma HashingStep(strict: bool, cfg: Config, s: State, e: Step, s': State, w: nat)
    requires CacheInv(cfg, s) && PhasesInv(cfg, s, strict) && (strict ==> Faithful(cfg, s.versions))
    requires Enabled(cfg, s, e) && IsHashing(e) && e.w == w && s' == Next(cfg, s, e) && w < |s'.workers|
    ensures PhaseOk(cfg, s', s'.workers[w], strict)
  {
    match e
    case Lookup(_) => LookupPhase(strict, cfg, s, w);
    case HashFile(_, ok) => HashFilePhase(strict, cfg, s, w, ok);
    case Store(_, evicted) => StorePhase(strict, cfg, s, w, evicted);
    case Print(_) =>
  }

  /** Every other thread keeps its phase; steps that do not hash leave no hash behind. */
  lemma OtherPhases(cfg: Config, s: State, e: Step, w: nat)
    requires Enabled(cfg, s, e) && w < |s.workers|
    ensures |Next(cfg, s, e).workers| == |s.workers|
    ensures var ph := Next(cfg, s, e).workers[w];
            ph == s.workers[w] || (IsHashing(e) && e.w == w) || forall p :: !Hashing(ph, p)
  {
    if IsHashing(e) {
    } else if IsDeciding(e) {
    } else if IsRelease(e) || e.Take? {
    } else {
    }
  }

  lemma PhaseStays(strict: bool, cfg: Config, s: State, s': State, ph: Phase)
    requires PhaseOk(cfg, s, ph, strict)
    requires forall p :: Hashing(ph, p) ==> OnDisk(s'.disk, p) == OnDisk(s.disk, p)
    ensures PhaseOk(cfg, s', ph, strict)
  {
    assert ph.Idle? || Hashing(ph, ph.path) || PhaseOk(cfg, s', ph, strict);
  }

  lemma PhasesInvStep(strict: bool, cfg: Config, s: State, e: Step)
    requires CacheInv(cfg, s) && PhasesInv(cfg, s, strict) && (strict ==> Faithful(cfg, s.versions))
    requires Enabled(cfg, s, e) && Calm(cfg, s, e)
    ensures PhasesInv(cfg, Next(cfg, s, e), strict)
  {
    var s' := Next(cfg, s, e);
    OnlyChangesChange(cfg, s, e);
    forall w: nat | w < |s'.workers| ensures PhaseOk(cfg, s', s'.workers[w], strict) {
      OtherPhases(cfg, s, e, w);
      if IsHashing(e) && e.w == w {
        HashingStep(strict, cfg, s, e, s', w);
      } else if s'.workers[w] == s.workers[w] {
        PhaseStays(strict, cfg, s, s', s.workers[w]);
      } else {
        assert s'.workers[w].Idle? || !Hashing(s'.workers[w], s'.workers[w].path);
      }
    }
  }

  lemma {:induction false} VersionsGrow(cfg: Config, s: State, es: seq<Step>)
    requires Run(cfg, s, es)
    ensures s.versions <= Exec(cfg, s, es).versions
    decreases |es|
  {
    if es == [] {
    } else {
      OnlyChangesChange(cfg, s, es[0]);
      VersionsGrow(cfg, Next(cfg, s, es[0]), es[1..]);
    }
  }

  lemma FaithfulOnFewer(cfg: Config, vs: set<(Path, Version)>, all: set<(Path, Version)>)
    requires Faithful(cfg, all) && forall p, v :: Known(vs, p, v) ==> Known(all, p, v)
    ensures Faithful(cfg, vs)
  {
  }

  lemma {:induction false} CacheInvFrom(strict: bool, cfg: Config, s: State, es: seq<Step>)
    requires CacheInv(cfg, s) && PhasesInv(cfg, s, strict)
    requires Run(cfg, s, es) && AlwaysCalm(cfg, s, es)
    requires strict ==> Faithful(cfg, Exec(cfg, s, es).versions)
    ensures CacheInv(cfg, Exec(cfg, s, es)) && PhasesInv(cfg, Exec(cfg, s, es), strict)
    decreases |es|
  {
    if es == [] {
    } else {
      VersionsGrow(cfg, s, es);
      if strict {
        FaithfulOnFewer(cfg, s.versions, Exec(cfg, s, es).versions);
      }
      CacheInvStep(strict, cfg, s, es[0]);
      PhasesInvStep(strict, cfg, s, es[0]);
      CacheInvFrom(strict, cfg, Next(cfg, s, es[0]), es[1..]);
    }
  }

  /** Every hash in use is missing or the SHA-256 of what is on disk. */
  ghost predicate HashesCurrent(cfg: Config, s: State) {
    forall w :: 0 <= w < |s.workers| && s.workers[w].Hashed? ==>
      IsCurrent(cfg, s, s.workers[w].path, s.workers[w].hash)
  }

  /**
   The cache is transparent: in every state of a calm run the hash a worker is
   about to use, whether it was computed or reused, is missing or the SHA-256 of
   what is on disk.  Cached hashes are never empty and the cache never outgrows
   its bound.
   */
  lemma CacheIsTransparent(cfg: Config, s: State, es: seq<Step>)
    requires Init(s) && Run(cfg, s, es) && AlwaysCalm(cfg, s, es) && Faithful(cfg, Exec(cfg, s, es).versions)
    ensures var end := Exec(cfg, s, es);
            && HashesCurrent(cfg, end)
            && (forall p :: p in end.shared.fpCache ==> end.shared.fpCache[p].sha256 != "")
            && |end.shared.fpCache| <= MAX_CACHE_ENTRIES
  {
    CacheInvFrom(true, cfg, s, es);
    var end := Exec(cfg, s, es);
    forall w: nat | w < |end.workers| && end.workers[w].Hashed?
      ensures IsCurrent(cfg, end, end.workers[w].path, end.workers[w].hash)
    {
      assert PhaseOk(cfg, end, end.workers[w], true);
    }
  }

  /**
   A worker goes on to look for duplicates and to convert only with the SHA-256
   of the file as it is now, and gives up exactly when it has no hash.
   */
  lemma DecidesOnCurrentHash(cfg: Config, s: State, es: seq<Step>, w: nat)
    requires Init(s) && Run(cfg, s, es) && AlwaysCalm(cfg, s, es) && Faithful(cfg, Exec(cfg, s, es).versions)
    requires w < |Exec(cfg, s, es).workers| && Exec(cfg, s, es).workers[w].Hashed?
    ensures var end := Exec(cfg, s, es);
            var v, hash := OnDisk(end.disk, end.workers[w].path), end.workers[w].hash;
            && (Enabled(cfg, end, FailHash(w)) <==> hash == "")
            && (Enabled(cfg, end, FindNew(w)) <==> hash != "")
            && (Enabled(cfg, end, FindDuplicate(w)) <==> hash != "")
            && (hash != "" ==> v.File? && v.readable && hash == cfg.sha256(v.content))
  {
    CacheIsTransparent(cfg, s, es);
    var end := Exec(cfg, s, es);
    assert IsCurrent(cfg, end, end.workers[w].path, end.workers[w].hash);
  }

  /** Whenever a readable file is hashed and the digest works, the worker gets its SHA-256, and otherwise nothing. */
  lemma HashingReadsFile(cfg: Config, s: State, w: nat, digestOk: bool)
    requires Enabled(cfg, s, HashFile(w, digestOk))
    ensures var s' := Next(cfg, s, HashFile(w, digestOk));
            var v := OnDisk(s.disk, s.workers[w].path);
            && w < |s'.workers| && s'.workers[w].ShaDone? && s'.workers[w].path == s.workers[w].path
            && s'.workers[w].hash == if v.File? && v.readable && digestOk then cfg.sha256(v.content) else ""
  {
  }

  /**
   In a calm run the cache answers only for a file whose size, modification time
   and first 4096 bytes are those of the version the entry was made from; any
   other change makes the worker hash the file again.
   */
  lemma HitKeepsStamp(cfg: Config, s: State, es: seq<Step>, w: nat)
    requires Init(s) && Run(cfg, s, es) && AlwaysCalm(cfg, s, es)
    requires Enabled(cfg, Exec(cfg, s, es), Lookup(w))
    ensures var end := Exec(cfg, s, es);
            var path := end.workers[w].path;
            var now, after := OnDisk(end.disk, path), Next(cfg, end, Lookup(w));
            && w < |after.workers|
            && (after.workers[w].NeedSha? ||
                exists v :: Known(end.versions, path, v) && v.File? && v.readable &&
                            after.workers[w] == Hashed(path, cfg.sha256(v.content)) && SameStamp(v, now))
  {
    CacheInvFrom(false, cfg, s, es);
    var end := Exec(cfg, s, es);
    assert PhaseOk(cfg, end, end.workers[w], false);
    var Printed(path, fp) := end.workers[w];
    if Hit(end.shared, path, fp) {
      var e := end.shared.fpCache[path];
      var v :| Known(end.versions, path, v) && FingerprintOf(v) == e.fp && Digest(cfg, v, true) == e.sha256;
      FingerprintIsStamp(v, OnDisk(end.disk, path));
    }
  }

  /** Only changes from outside can break the calm: the pipeline's own moves do not. */
  lemma OwnMovesAreCalm(cfg: Config, s: State, e: Step)
    requires Exclusive(s) && Enabled(cfg, s, e) && !e.Modify?
    ensures Calm(cfg, s, e)
  {
    if e.MoveAway? {
      var path := s.workers[e.w].path;
      assert Touches(s.workers[e.w], path);
      forall w: nat | w < |s.workers| ensures !Hashing(s.workers[w], path) {
        assert w != e.w ==> !Touches(s.workers[w], path);
      }
    }
  }

  /** No file changes from outside while a worker is hashing it. */
  ghost predicate OutsideCalm(cfg: Config, s: State, es: seq<Step>)
    requires Run(cfg, s, es)
    decreases |es|
  {
    es == [] || ((es[0].Modify? ==> Calm(cfg, s, es[0])) && OutsideCalm(cfg, Next(cfg, s, es[0]), es[1..]))
  }

  /** With exclusive ownership it is enough to keep everybody else's hands off a file that is being hashed. */
  lemma {:induction false} BenignRunsAreCalm(cfg: Config, s: State, es: seq<Step>)
    requires Exclusive(s) && Run(cfg, s, es) && AlwaysBenign(cfg, s, es)
    ensures AlwaysCalm(cfg, s, es) <==> OutsideCalm(cfg, s, es)
    decreases |es|
  {
    if es == [] {
    } else {
      if !es[0].Modify? {
        OwnMovesAreCalm(cfg, s, es[0]);
      }
      ExclusiveStep(cfg, s, es[0]);
      BenignRunsAreCalm(cfg, Next(cfg, s, es[0]), es[1..]);
    }
  }

  // ---------------------------------------------------------------- what the eviction keeps

  /** The step stamps a cache entry with the clock. */
  ghost predicate StampsCache(cfg: Config, s: State, e: Step)
    requires Enabled(cfg, s, e)
  {
    match e
    case Lookup(w) => Hit(s.shared, s.workers[w].path, s.workers[w].fp)
    case Store(w, _) => Caches(cfg, s.workers[w].hash)
    case _ => false
  }

  /** The clock readings that go into the cache strictly increase; `last` is the one before the run. */
  ghost predicate StrictReadings(cfg: Config, s: State, es: seq<Step>, last: int)
    requires Run(cfg, s, es)
    decreases |es|
  {
    es == [] ||
    if StampsCache(cfg, s, es[0]) then last < s.clock && StrictReadings(cfg, Next(cfg, s, es[0]), es[1..], s.clock)
    else StrictReadings(cfg, Next(cfg, s, es[0]), es[1..], last)
  }

  ghost predicate SeenBy(s: State, last: int) {
    forall p :: p in s.shared.fpCache ==> s.shared.fpCache[p].lastSeen <= last
  }

  lemma SeenByStep(cfg: Config, s: State, e: Step, last: int)
    requires SeenBy(s, last) && Enabled(cfg, s, e) && (StampsCache(cfg, s, e) ==> last < s.clock)
    ensures SeenBy(Next(cfg, s, e), if StampsCache(cfg, s, e) then s.clock else last)
  {
    if !e.Store? && !e.Lookup? {
      OthersLeaveCache(cfg, s, e);
    }
  }

  lemma StoreSurvives(cfg: Config, s: State, w: nat, evicted: set<Path>, last: int)
    requires SeenBy(s, last) && last < s.clock
    requires Enabled(cfg, s, Store(w, evicted)) && Caches(cfg, s.workers[w].hash)
    ensures var ShaDone(path, fp, hash) := s.workers[w];
            var cache := Next(cfg, s, Store(w, evicted)).shared.fpCache;
            path in cache && cache[path] == FpEntry(fp, hash, s.clock)
  {
    var ShaDone(path, fp, hash) := s.workers[w];
    var stored := StoreEntry(s.shared, path, fp, hash, s.clock).fpCache;
    NewestSurvives(stored, stored - evicted, MAX_CACHE_ENTRIES, path);
  }

  /** With strictly increasing clock readings the entry just stored is never the one the eviction drops. */
  lemma {:induction false} StoredEntryStays(cfg: Config, s: State, es: seq<Step>, w: nat, evicted: set<Path>, last: int)
    requires SeenBy(s, last) && Run(cfg, s, es) && Enabled(cfg, Exec(cfg, s, es), Store(w, evicted))
    requires Run(cfg, s, es + [Store(w, evicted)]) && StrictReadings(cfg, s, es + [Store(w, evicted)], last)
    requires Caches(cfg, Exec(cfg, s, es).workers[w].hash)
    ensures var ShaDone(path, fp, hash) := Exec(cfg, s, es).workers[w];
            var cache := Next(cfg, Exec(cfg, s, es), Store(w, evicted)).shared.fpCache;
            path in cache && cache[path] == FpEntry(fp, hash, Exec(cfg, s, es).clock)
    decreases |es|
  {
    if es == [] {
      assert es + [Store(w, evicted)] == [Store(w, evicted)];
      StoreSurvives(cfg, s, w, evicted, last);
    } else {
      assert (es + [Store(w, evicted)])[1..] == es[1..] + [Store(w, evicted)];
      SeenByStep(cfg, s, es[0], last);
      StoredEntryStays(cfg, Next(cfg, s, es[0]), es[1..], w, evicted,
                       if StampsCache(cfg, s, es[0]) then s.clock else last);
    }
  }
}
