/**
 The worker protocol: one poller, any number of worker threads, and a watch
 folder that changes under them.  Every locked region of the shared state is one
 step, and so is every action on a file between two regions; the steps of
 different threads interleave freely.
 */
module Worker {
  import opened Bytes
  import opened Fnv
  import opened WorkerState

  const NS_PER_SEC: int := 1_000_000_000

  datatype Config = Config(pollIntervalSec: int, maxRetries: int, fastFingerprint: bool, sha256: seq<byte> -> string) {
    function Ttl(): int { 2 * pollIntervalSec * NS_PER_SEC }
  }

  /** Where a worker thread stands between two locked regions. */
  datatype Phase =
    | Idle
    | Taken(path: Path)
    | Printed(path: Path, fp: Fingerprint)
    | NeedSha(path: Path, fp: Fingerprint)
    | ShaDone(path: Path, fp: Fingerprint, hash: string)
    | Hashed(path: Path, hash: string)
    | Converting(path: Path)
    | Archiving(path: Path)
    | Leaving(path: Path)
    | Failing(path: Path, converted: bool)
    | Counting(path: Path, converted: bool)
    | DeadLettering(path: Path, converted: bool)
    | ReleasingAgain(path: Path)

  datatype Poller =
    | Waiting(lastScan: int)
    | Scanning(stamp: int)
    | ScanDone(lastScan: int)
    | Sweeping(lastScan: int, now: int)

  datatype Verdict = Failure(path: Path, deadLetter: bool) | Resolved(path: Path)

  datatype State = State(
    shared: Shared,
    workers: seq<Phase>,
    poller: Poller,
    clock: int,
    disk: map<Path, Version>,
    versions: set<(Path, Version)>,
    enqueued: seq<(Path, int)>,
    verdicts: seq<Verdict>)

  datatype Step =
    | Tick(to: int)
    | Modify(path: Path, version: Version)
    | StartScan
    | SkipScan
    | Poll(path: Path)
    | EndScan
    | ReadSweepClock
    | Sweep
    | Take(w: nat)
    | Print(w: nat)
    | Lookup(w: nat)
    | HashFile(w: nat, digestOk: bool)
    | Store(w: nat, evicted: set<Path>)
    | FailHash(w: nat)
    | FindDuplicate(w: nat)
    | FindNew(w: nat)
    | FailSequence(w: nat)
    | FailConversion(w: nat)
    | Convert(w: nat)
    | MoveAway(w: nat, moved: bool)
    | ReleaseLast(w: nat)
    | ReleaseFirst(w: nat)
    | Count(w: nat)
    | ReleaseAgain(w: nat)

  function OnDisk(disk: map<Path, Version>, path: Path): Version {
    if path in disk then disk[path] else Gone
  }

  /** `sha256_file`: empty when the file cannot be read or the digest fails. */
  function Digest(cfg: Config, v: Version, digestOk: bool): string {
    if v.File? && v.readable && digestOk then cfg.sha256(v.content) else ""
  }

  predicate At(s: State, w: nat) { w < |s.workers| }

  ghost predicate Enabled(cfg: Config, s: State, e: Step) {
    match e
    case Tick(to) => s.clock <= to
    case Modify(_, _) => true
    case StartScan => s.poller.Waiting? && (s.clock - s.poller.lastScan) / NS_PER_SEC >= cfg.pollIntervalSec
    case SkipScan => s.poller.Waiting? && (s.clock - s.poller.lastScan) / NS_PER_SEC < cfg.pollIntervalSec
    case Poll(_) => s.poller.Scanning?
    case EndScan => s.poller.Scanning?
    case ReadSweepClock => s.poller.ScanDone?
    case Sweep => s.poller.Sweeping?
    case Take(w) => At(s, w) && s.workers[w].Idle? && s.shared.files != []
    case Print(w) => At(s, w) && s.workers[w].Taken?
    case Lookup(w) => At(s, w) && s.workers[w].Printed?
    case HashFile(w, _) => At(s, w) && s.workers[w].NeedSha?
    case Store(w, evicted) =>
      && At(s, w) && s.workers[w].ShaDone?
      && var stored := StoreEntry(s.shared, s.workers[w].path, s.workers[w].fp, s.workers[w].hash, s.clock).fpCache;
         Caches(cfg, s.workers[w].hash) ==> IsEviction(stored, stored - evicted, MAX_CACHE_ENTRIES)
    case FailHash(w) => At(s, w) && s.workers[w].Hashed? && s.workers[w].hash == ""
    case FindDuplicate(w) => At(s, w) && s.workers[w].Hashed? && s.workers[w].hash != ""
    case FindNew(w) => At(s, w) && s.workers[w].Hashed? && s.workers[w].hash != ""
    case FailSequence(w) => At(s, w) && s.workers[w].Converting?
    case FailConversion(w) => At(s, w) && s.workers[w].Converting?
    case Convert(w) => At(s, w) && s.workers[w].Converting?
    case MoveAway(w, moved) =>
      && At(s, w) && (s.workers[w].Archiving? || s.workers[w].DeadLettering?)
      && (moved ==> OnDisk(s.disk, s.workers[w].path).File?)
    case ReleaseLast(w) => At(s, w) && s.workers[w].Leaving?
    case ReleaseFirst(w) => At(s, w) && s.workers[w].Failing?
    case Count(w) => At(s, w) && s.workers[w].Counting?
    case ReleaseAgain(w) => At(s, w) && s.workers[w].ReleasingAgain?
  }

  predicate Caches(cfg: Config, hash: string) { cfg.fastFingerprint && hash != "" }

  function Become(s: State, w: nat, phase: Phase): State
    requires At(s, w)
  {
    s.(workers := s.workers[w := phase])
  }

  /** Back in the caller of the dead-letter routine: after a failed conversion the marker is released again. */
  function AfterFailure(path: Path, converted: bool): Phase {
    if converted then ReleasingAgain(path) else Idle
  }

  function OfferPath(s: State, path: Path): State
    requires s.poller.Scanning?
  {
    var sh := Enqueue(s.shared, path, s.poller.stamp);
    s.(shared := sh, enqueued := if sh == s.shared then s.enqueued else s.enqueued + [(path, s.poller.stamp)])
  }

  function TakePath(s: State, w: nat): State
    requires At(s, w) && s.shared.files != []
  {
    Become(s, w, Taken(s.shared.files[0])).(shared := TakeFront(s.shared))
  }

  function PrintPath(cfg: Config, s: State, w: nat): State
    requires At(s, w) && s.workers[w].Taken?
  {
    var path := s.workers[w].path;
    Become(s, w,
           if cfg.fastFingerprint then Printed(path, FingerprintOf(OnDisk(s.disk, path)))
           else NeedSha(path, Fingerprint(0, 0, 0)))
  }

  function LookupPrint(s: State, w: nat): State
    requires At(s, w) && s.workers[w].Printed?
  {
    var Printed(path, fp) := s.workers[w];
    if Hit(s.shared, path, fp)
    then Become(s, w, Hashed(path, s.shared.fpCache[path].sha256)).(shared := Touch(s.shared, path, s.clock))
    else Become(s, w, NeedSha(path, fp))
  }

  function HashPath(cfg: Config, s: State, w: nat, digestOk: bool): State
    requires At(s, w) && s.workers[w].NeedSha?
  {
    var NeedSha(path, fp) := s.workers[w];
    Become(s, w, ShaDone(path, fp, Digest(cfg, OnDisk(s.disk, path), digestOk)))
  }

  function StoreHash(cfg: Config, s: State, w: nat, evicted: set<Path>): State
    requires At(s, w) && s.workers[w].ShaDone?
  {
    var ShaDone(path, fp, hash) := s.workers[w];
    var sh := StoreEntry(s.shared, path, fp, hash, s.clock);
    Become(s, w, Hashed(path, hash))
      .(shared := if Caches(cfg, hash) then sh.(fpCache := sh.fpCache - evicted) else s.shared)
  }

  /** A duplicate hit or a successful conversion: the failure history of the path is forgotten. */
  function Resolve(s: State, w: nat): State
    requires At(s, w) && (s.workers[w].Hashed? || s.workers[w].Converting?)
  {
    var path := s.workers[w].path;
    Become(s, w, Archiving(path)).(shared := ClearFailures(s.shared, path), verdicts := s.verdicts + [Resolved(path)])
  }

  /** The move to the archive or to the dead letters. */
  function MovePath(s: State, w: nat, moved: bool): State
    requires At(s, w) && (s.workers[w].Archiving? || s.workers[w].DeadLettering?)
  {
    var ph := s.workers[w];
    Become(s, w, if ph.Archiving? then Leaving(ph.path) else AfterFailure(ph.path, ph.converted))
      .(disk := if moved then s.disk - {ph.path} else s.disk)
  }

  function CountPath(cfg: Config, s: State, w: nat): State
    requires At(s, w) && s.workers[w].Counting?
  {
    var Counting(path, converted) := s.workers[w];
    var deadLetter := NewCount(s.shared, path) >= cfg.maxRetries;
    Become(s, w, if deadLetter then DeadLettering(path, converted) else AfterFailure(path, converted))
      .(shared := CountFailure(s.shared, path, cfg.maxRetries), verdicts := s.verdicts + [Failure(path, deadLetter)])
  }

  /** The worker removes the marker of its path. */
  function ReleasePath(s: State, w: nat, phase: Phase): State
    requires At(s, w) && !s.workers[w].Idle?
  {
    Become(s, w, phase).(shared := Release(s.shared, s.workers[w].path))
  }

  ghost function Next(cfg: Config, s: State, e: Step): State
    requires Enabled(cfg, s, e)
  {
    match e
    case Tick(to) => s.(clock := to)
    case Modify(path, v) => s.(disk := s.disk[path := v], versions := s.versions + {(path, v)})
    case StartScan => s.(poller := Scanning(s.clock))
    case SkipScan => s.(poller := ScanDone(s.poller.lastScan))
    case Poll(path) => OfferPath(s, path)
    case EndScan => s.(poller := ScanDone(s.poller.stamp))
    case ReadSweepClock => s.(poller := Sweeping(s.poller.lastScan, s.clock))
    case Sweep => s.(shared := Cleanup(s.shared, s.poller.now, cfg.Ttl()), poller := Waiting(s.poller.lastScan))
    case Take(w) => TakePath(s, w)
    case Print(w) => PrintPath(cfg, s, w)
    case Lookup(w) => LookupPrint(s, w)
    case HashFile(w, digestOk) => HashPath(cfg, s, w, digestOk)
    case Store(w, evicted) => StoreHash(cfg, s, w, evicted)
    case FailHash(w) => Become(s, w, Failing(s.workers[w].path, false))
    case FindDuplicate(w) => Resolve(s, w)
    case FindNew(w) => Become(s, w, Converting(s.workers[w].path))
    case FailSequence(w) => Become(s, w, Failing(s.workers[w].path, false))
    case FailConversion(w) => Become(s, w, Failing(s.workers[w].path, true))
    case Convert(w) => Resolve(s, w)
    case MoveAway(w, moved) => MovePath(s, w, moved)
    case ReleaseLast(w) => ReleasePath(s, w, Idle)
    case ReleaseFirst(w) => ReleasePath(s, w, Counting(s.workers[w].path, s.workers[w].converted))
    case Count(w) => CountPath(cfg, s, w)
    case ReleaseAgain(w) => ReleasePath(s, w, Idle)
  }

  ghost predicate Init(s: State) {
    && s.shared == Shared(map[], [], {}, map[], map[], 0)
    && (forall w :: 0 <= w < |s.workers| ==> s.workers[w] == Idle)
    && s.poller.Waiting? && s.poller.lastScan <= s.clock
    && (forall p :: p in s.disk ==> (p, s.disk[p]) in s.versions)
    && s.enqueued == [] && s.verdicts == []
  }

  ghost predicate Run(cfg: Config, s: State, es: seq<Step>)
    decreases |es|
  {
    es == [] || (Enabled(cfg, s, es[0]) && Run(cfg, Next(cfg, s, es[0]), es[1..]))
  }

  ghost function Exec(cfg: Config, s: State, es: seq<Step>): State
    requires Run(cfg, s, es)
    decreases |es|
  {
    if es == [] then s else Exec(cfg, Next(cfg, s, es[0]), es[1..])
  }

  // ---------------------------------------------------------------- what a step leaves alone

  predicate IsHashing(e: Step) { e.Print? || e.Lookup? || e.HashFile? || e.Store? }

  predicate IsDeciding(e: Step) {
    e.FailHash? || e.FindDuplicate? || e.FindNew? || e.FailSequence? || e.FailConversion? || e.Convert?
  }

  predicate IsRelease(e: Step) { e.ReleaseLast? || e.ReleaseFirst? || e.ReleaseAgain? }

  predicate IsFinishing(e: Step) { e.MoveAway? || e.Count? }

  /** Steps of the poller, the clock and the outside that neither queue nor forget a path. */
  predicate IsIdling(e: Step) {
    e.Tick? || e.Modify? || e.StartScan? || e.SkipScan? || e.EndScan? || e.ReadSweepClock?
  }

  predicate OneWorkerChanges(s: State, s': State, w: nat) {
    w < |s.workers| == |s'.workers| && s'.workers == s.workers[w := s'.workers[w]]
  }

  lemma HashingFrame(cfg: Config, s: State, e: Step)
    requires Enabled(cfg, s, e) && IsHashing(e)
    ensures OneWorkerChanges(s, Next(cfg, s, e), e.w)
    ensures var s' := Next(cfg, s, e);
            && s'.shared == s.shared.(fpCache := s'.shared.fpCache)
            && s'.enqueued == s.enqueued && s'.verdicts == s.verdicts && s'.disk == s.disk && s'.versions == s.versions
  {
  }

  lemma DecidingFrame(cfg: Config, s: State, e: Step)
    requires Enabled(cfg, s, e) && IsDeciding(e)
    ensures OneWorkerChanges(s, Next(cfg, s, e), e.w)
    ensures var s' := Next(cfg, s, e);
            && s'.shared == s.shared.(failCounts := s'.shared.failCounts)
            && s'.enqueued == s.enqueued && s'.disk == s.disk && s'.versions == s.versions
            && (!e.FindDuplicate? && !e.Convert? ==> s'.shared == s.shared && s'.verdicts == s.verdicts)
  {
  }

  lemma FinishingFrame(cfg: Config, s: State, e: Step)
    requires Enabled(cfg, s, e) && IsFinishing(e)
    ensures OneWorkerChanges(s, Next(cfg, s, e), e.w)
    ensures var s' := Next(cfg, s, e);
            && s'.shared == s.shared.(failCounts := s'.shared.failCounts)
            && s'.enqueued == s.enqueued && s'.versions == s.versions
            && (e.MoveAway? ==> s'.shared == s.shared && s'.verdicts == s.verdicts)
            && (e.Count? ==> s'.disk == s.disk)
  {
  }

  lemma ReleaseFrame(cfg: Config, s: State, e: Step)
    requires Enabled(cfg, s, e) && IsRelease(e)
    ensures OneWorkerChanges(s, Next(cfg, s, e), e.w)
    ensures var s' := Next(cfg, s, e);
            && s'.shared == s.shared.(inflight := s'.shared.inflight)
            && s'.enqueued == s.enqueued && s'.verdicts == s.verdicts && s'.disk == s.disk && s'.versions == s.versions
  {
  }

  lemma IdlingFrame(cfg: Config, s: State, e: Step)
    requires Enabled(cfg, s, e) && IsIdling(e)
    ensures var s' := Next(cfg, s, e);
            && s'.shared == s.shared && s'.workers == s.workers
            && s'.enqueued == s.enqueued && s'.verdicts == s.verdicts && s.versions <= s'.versions
            && (!e.Modify? ==> s'.disk == s.disk && s'.versions == s.versions)
  {
  }

  /** The remaining steps, which move a path in or out of the queue or the `seen` map. */
  predicate IsQueueing(e: Step) { e.Poll? || e.Sweep? || e.Take? }

  lemma QueueingFrame(cfg: Config, s: State, e: Step)
    requires Enabled(cfg, s, e) && IsQueueing(e)
    ensures if e.Take? then OneWorkerChanges(s, Next(cfg, s, e), e.w) else Next(cfg, s, e).workers == s.workers
    ensures var s' := Next(cfg, s, e);
            && s'.shared.failCounts == s.shared.failCounts && s'.shared.fpCache == s.shared.fpCache
            && s'.verdicts == s.verdicts && s'.disk == s.disk && s'.versions == s.versions
            && (!e.Poll? ==> s'.enqueued == s.enqueued)
            && (e.Take? ==> s'.shared.seen == s.shared.seen)
            && (e.Sweep? ==> s'.shared.files == s.shared.files && s'.shared.queueDepth == s.shared.queueDepth)
  {
  }
}
