/** Retry accounting, requeue throttling and the queue gauge, over every interleaving. */
module Retry {
  import opened WorkerState
  import opened Worker
  import opened Passes

  // ---------------------------------------------------------------- retry accounting

  /** Failures of `path` since its last success or duplicate hit. */
  function FailuresSince(log: seq<Verdict>, path: Path): nat {
    if log == [] then 0
    else
      var last := log[|log| - 1];
      if last.path != path then FailuresSince(log[..|log| - 1], path)
      else if last.Resolved? then 0
      else FailuresSince(log[..|log| - 1], path) + 1
  }

  /** The number of failures that makes a dead letter. */
  function Limit(maxRetries: int): (r: int)
    ensures r >= 1 && (maxRetries >= 1 ==> r == maxRetries)
  {
    if maxRetries < 1 then 1 else maxRetries
  }

  /** A configured limit below one acts like a limit of one, and no other limit does. */
  lemma LowLimitsActLikeOne(sh: Shared, path: Path, maxRetries: int)
    requires Stored(sh, path) == 0
    ensures CountFailure(sh, path, maxRetries) == CountFailure(sh, path, 1) <==> maxRetries <= 1
  {
    if maxRetries > 1 {
      assert path in CountFailure(sh, path, maxRetries).failCounts;
      assert path !in CountFailure(sh, path, 1).failCounts;
    }
  }

  function Stored(sh: Shared, path: Path): int {
    if path in sh.failCounts then sh.failCounts[path] else 0
  }

  ghost predicate CountsAgree(cfg: Config, s: State) {
    && (forall p :: Stored(s.shared, p) == FailuresSince(s.verdicts, p) % Limit(cfg.maxRetries))
    && (forall p :: p in s.shared.failCounts ==> 1 <= s.shared.failCounts[p] < Limit(cfg.maxRetries))
  }

  lemma ModSuccessor(f: nat, r: int)
    requires r >= 1
    ensures (f + 1) % r == (if f % r + 1 == r then 0 else f % r + 1)
  {
    var q := f / r;
    if f % r + 1 == r {
      assert f + 1 == (q + 1) * r;
      RemainderIsUnique(f + 1, q + 1, 0, r);
    } else {
      RemainderIsUnique(f + 1, q, f % r + 1, r);
    }
  }

  lemma RemainderIsUnique(n: int, q: int, m: int, r: int)
    requires 0 <= m < r && n == q * r + m
    ensures n % r == m
  {
    var q', m' := n / r, n % r;
    assert (q - q') * r == m' - m;
    if q > q' {
      MultipleAtLeast(q - q', r);
    } else if q < q' {
      assert (q' - q) * r == m - m';
      MultipleAtLeast(q' - q, r);
    }
  }

  lemma MultipleAtLeast(d: int, r: int)
    requires d >= 1 && r >= 1
    ensures d * r >= r
  {
    assert (d - 1) * r >= 0;
  }

  lemma FailuresAfter(log: seq<Verdict>, v: Verdict, p: Path)
    ensures FailuresSince(log + [v], p) ==
            if v.path != p then FailuresSince(log, p) else if v.Resolved? then 0 else FailuresSince(log, p) + 1
  {
    assert (log + [v])[..|log|] == log;
  }

  /** Where a path stands after one more failure of `path`. */
  lemma CountOne(sh: Shared, log: seq<Verdict>, path: Path, maxRetries: int, p: Path, deadLetter: bool)
    requires Stored(sh, path) == FailuresSince(log, path) % Limit(maxRetries)
    requires Stored(sh, p) == FailuresSince(log, p) % Limit(maxRetries)
    requires path in sh.failCounts ==> 1 <= sh.failCounts[path] < Limit(maxRetries)
    ensures Stored(CountFailure(sh, path, maxRetries), p) ==
            FailuresSince(log + [Failure(path, deadLetter)], p) % Limit(maxRetries)
  {
    var n, r := NewCount(sh, path), Limit(maxRetries);
    FailuresAfter(log, Failure(path, deadLetter), p);
    ModSuccessor(FailuresSince(log, p), r);
    assert n == Stored(sh, path) + 1;
    assert Stored(CountFailure(sh, path, maxRetries), p) ==
      if p != path then Stored(sh, p) else if n >= maxRetries then 0 else n;
  }

  lemma ClearOne(sh: Shared, log: seq<Verdict>, path: Path, r: int, p: Path)
    requires r >= 1 && Stored(sh, p) == FailuresSince(log, p) % r
    ensures Stored(ClearFailures(sh, path), p) == FailuresSince(log + [Resolved(path)], p) % r
  {
    FailuresAfter(log, Resolved(path), p);
  }

  lemma CountStep(cfg: Config, s: State, w: nat)
    requires CountsAgree(cfg, s) && Enabled(cfg, s, Count(w))
    ensures CountsAgree(cfg, Next(cfg, s, Count(w)))
  {
    var s' := Next(cfg, s, Count(w));
    var path := s.workers[w].path;
    assert s'.shared == CountFailure(s.shared, path, cfg.maxRetries);
    forall p ensures Stored(s'.shared, p) == FailuresSince(s'.verdicts, p) % Limit(cfg.maxRetries) {
      CountOne(s.shared, s.verdicts, path, cfg.maxRetries, p, NewCount(s.shared, path) >= cfg.maxRetries);
    }
  }

  lemma ResolveStep(cfg: Config, s: State, e: Step)
    requires CountsAgree(cfg, s) && Enabled(cfg, s, e) && (e.FindDuplicate? || e.Convert?)
    ensures CountsAgree(cfg, Next(cfg, s, e))
  {
    var s' := Next(cfg, s, e);
    var path := s.workers[e.w].path;
    assert s'.shared == ClearFailures(s.shared, path) && s'.verdicts == s.verdicts + [Resolved(path)];
    forall p ensures Stored(s'.shared, p) == FailuresSince(s'.verdicts, p) % Limit(cfg.maxRetries) {
      ClearOne(s.shared, s.verdicts, path, Limit(cfg.maxRetries), p);
    }
  }

  lemma OthersLeaveCounts(cfg: Config, s: State, e: Step)
    requires Enabled(cfg, s, e) && !e.Count? && !e.FindDuplicate? && !e.Convert?
    ensures Next(cfg, s, e).verdicts == s.verdicts
    ensures Next(cfg, s, e).shared.failCounts == s.shared.failCounts
  {
    if IsHashing(e) {
      HashingFrame(cfg, s, e);
    } else if IsDeciding(e) {
      DecidingFrame(cfg, s, e);
    } else if IsFinishing(e) {
      FinishingFrame(cfg, s, e);
    } else if IsRelease(e) {
      ReleaseFrame(cfg, s, e);
    } else if IsIdling(e) {
      IdlingFrame(cfg, s, e);
    } else {
      QueueingFrame(cfg, s, e);
    }
  }

  lemma CountsAgreeStep(cfg: Config, s: State, e: Step)
    requires CountsAgree(cfg, s) && Enabled(cfg, s, e)
    ensures CountsAgree(cfg, Next(cfg, s, e))
  {
    if e.Count? {
      CountStep(cfg, s, e.w);
    } else if e.FindDuplicate? || e.Convert? {
      ResolveStep(cfg, s, e);
    } else {
      OthersLeaveCounts(cfg, s, e);
      var s' := Next(cfg, s, e);
      forall p ensures Stored(s'.shared, p) == Stored(s.shared, p) {
      }
    }
  }

  /** The entries of the log, each judged by the log up to it. */
  ghost predicate LettersAgree(log: seq<Verdict>, r: int)
    requires r >= 1
  {
    forall i :: 0 <= i < |log| && log[i].Failure? ==>
      (log[i].deadLetter <==> FailuresSince(log[..i + 1], log[i].path) % r == 0)
  }

  lemma LetterAdded(log: seq<Verdict>, v: Verdict, r: int)
    requires r >= 1 && LettersAgree(log, r)
    requires v.Failure? ==> (v.deadLetter <==> FailuresSince(log + [v], v.path) % r == 0)
    ensures LettersAgree(log + [v], r)
  {
    forall i | 0 <= i < |log| ensures (log + [v])[i] == log[i] && (log + [v])[..i + 1] == log[..i + 1] {
    }
    assert (log + [v])[..|log| + 1] == log + [v];
  }

  lemma DeadLettersAgreeStep(cfg: Config, s: State, e: Step)
    requires CountsAgree(cfg, s) && LettersAgree(s.verdicts, Limit(cfg.maxRetries)) && Enabled(cfg, s, e)
    ensures LettersAgree(Next(cfg, s, e).verdicts, Limit(cfg.maxRetries))
  {
    var r := Limit(cfg.maxRetries);
    if e.Count? {
      var path := s.workers[e.w].path;
      var v := Failure(path, NewCount(s.shared, path) >= cfg.maxRetries);
      FailuresAfter(s.verdicts, v, path);
      ModSuccessor(FailuresSince(s.verdicts, path), r);
      assert NewCount(s.shared, path) == Stored(s.shared, path) + 1;
      LetterAdded(s.verdicts, v, r);
    } else if e.FindDuplicate? || e.Convert? {
      LetterAdded(s.verdicts, Resolved(s.workers[e.w].path), r);
    } else {
      OthersLeaveCounts(cfg, s, e);
    }
  }

  lemma {:induction false} RetryFrom(cfg: Config, s: State, es: seq<Step>)
    requires CountsAgree(cfg, s) && LettersAgree(s.verdicts, Limit(cfg.maxRetries)) && Run(cfg, s, es)
    ensures CountsAgree(cfg, Exec(cfg, s, es)) && LettersAgree(Exec(cfg, s, es).verdicts, Limit(cfg.maxRetries))
    decreases |es|
  {
    if es == [] {
    } else {
      CountsAgreeStep(cfg, s, es[0]);
      DeadLettersAgreeStep(cfg, s, es[0]);
      RetryFrom(cfg, Next(cfg, s, es[0]), es[1..]);
    }
  }

  lemma InitAgrees(cfg: Config, s: State)
    requires Init(s)
    ensures CountsAgree(cfg, s)
  {
    forall p ensures Stored(s.shared, p) == FailuresSince(s.verdicts, p) % Limit(cfg.maxRetries) {
      RemainderIsUnique(0, 0, 0, Limit(cfg.maxRetries));
    }
  }

  /** A success or a duplicate hit leaves the path without a count and the others as they were. */
  lemma ResolvedHasNoCount(cfg: Config, s: State, e: Step)
    requires Enabled(cfg, s, e) && (e.Convert? || e.FindDuplicate?)
    ensures Next(cfg, s, e).shared.failCounts == s.shared.failCounts - {s.workers[e.w].path}
  {
  }

  /** A failure adds one to the count, or erases it when that reaches the limit and the file is to be dead-lettered. */
  lemma FailureIsCounted(cfg: Config, s: State, w: nat)
    requires Enabled(cfg, s, Count(w))
    ensures var path, s' := s.workers[w].path, Next(cfg, s, Count(w));
            var n := (if path in s.shared.failCounts then s.shared.failCounts[path] else 0) + 1;
            && s'.shared.failCounts == (if n >= cfg.maxRetries then s.shared.failCounts - {path}
                                        else s.shared.failCounts[path := n])
            && w < |s'.workers| && (s'.workers[w].DeadLettering? <==> n >= cfg.maxRetries)
  {
    assert Next(cfg, s, Count(w)) == CountPath(cfg, s, w);
  }

  /**
   In every reachable state the stored count of every path is its number of
   failures since the last success or duplicate hit of the run, modulo the limit,
   and a dead letter was due at exactly every limit-th of them.
   */
  lemma RetryAccounting(cfg: Config, s: State, es: seq<Step>)
    requires Init(s) && Run(cfg, s, es)
    ensures var end, r := Exec(cfg, s, es).shared, Limit(cfg.maxRetries);
            && (forall p :: Stored(end, p) == FailuresSince(VerdictsIn(cfg, s, es), p) % r)
            && (forall p :: p in end.failCounts ==> 1 <= end.failCounts[p] < r)
    ensures LettersAgree(VerdictsIn(cfg, s, es), Limit(cfg.maxRetries))
  {
    InitAgrees(cfg, s);
    RetryFrom(cfg, s, es);
    LogsAreSteps(cfg, s, es);
    assert Exec(cfg, s, es).verdicts == VerdictsIn(cfg, s, es);
  }

  // ---------------------------------------------------------------- requeue throttling

  /** The clock reading the poller works with. */
  function Horizon(s: State): int {
    if s.poller.Scanning? then s.poller.stamp else if s.poller.Sweeping? then s.poller.now else s.clock
  }

  ghost predicate StampsBounded(cfg: Config, s: State) {
    && Horizon(s) <= s.clock
    && (forall i :: 0 <= i < |s.enqueued| ==> s.enqueued[i].1 <= Horizon(s))
    && (forall i :: 0 <= i < |s.enqueued| && s.enqueued[i].0 in s.shared.seen ==>
          s.enqueued[i].1 <= s.shared.seen[s.enqueued[i].0])
    && (forall i :: 0 <= i < |s.enqueued| && s.enqueued[i].0 !in s.shared.seen ==>
          s.enqueued[i].1 + cfg.Ttl() < Horizon(s))
  }

  /** Every entry of `seen` carries the stamp of the last enqueue of its path; nothing refreshes it. */
  ghost predicate SeenIsLastEnqueue(s: State) {
    && (forall p :: p in s.shared.seen ==> exists i :: 0 <= i < |s.enqueued| && s.enqueued[i] == (p, s.shared.seen[p]))
    && (forall i :: 0 <= i < |s.enqueued| && IsLast(s.enqueued, i) && s.enqueued[i].0 in s.shared.seen ==>
          s.shared.seen[s.enqueued[i].0] == s.enqueued[i].1)
  }

  /** No later entry of the log is about the same path. */
  ghost predicate IsLast(log: seq<(Path, int)>, i: nat)
    requires i < |log|
  {
    forall j :: i < j < |log| ==> log[j].0 != log[i].0
  }

  ghost predicate Spaced(cfg: Config, s: State) {
    && s.shared.queueDepth == |s.shared.files|
    && (forall i, j :: 0 <= i < j < |s.enqueued| && s.enqueued[i].0 == s.enqueued[j].0 ==>
          s.enqueued[i].1 + cfg.Ttl() < s.enqueued[j].1)
  }

  ghost predicate Throttled(cfg: Config, s: State) {
    StampsBounded(cfg, s) && Spaced(cfg, s)
  }

  /** Every step but the poller's own leaves `seen` and the enqueue log alone. */
  lemma OthersLeaveSeen(cfg: Config, s: State, e: Step)
    requires Enabled(cfg, s, e) && !e.Poll? && !e.Sweep?
    ensures Next(cfg, s, e).shared.seen == s.shared.seen
    ensures Next(cfg, s, e).enqueued == s.enqueued
  {
    if IsHashing(e) {
      HashingFrame(cfg, s, e);
    } else if IsDeciding(e) {
      DecidingFrame(cfg, s, e);
    } else if IsFinishing(e) {
      FinishingFrame(cfg, s, e);
    } else if IsRelease(e) {
      ReleaseFrame(cfg, s, e);
    } else if IsIdling(e) {
      IdlingFrame(cfg, s, e);
    } else {
      QueueingFrame(cfg, s, e);
    }
  }

  lemma OthersLeaveQueue(cfg: Config, s: State, e: Step)
    requires Enabled(cfg, s, e) && !e.Poll? && !e.Take?
    ensures Next(cfg, s, e).shared.files == s.shared.files
    ensures Next(cfg, s, e).shared.queueDepth == s.shared.queueDepth
  {
    if IsHashing(e) {
      HashingFrame(cfg, s, e);
    } else if IsDeciding(e) {
      DecidingFrame(cfg, s, e);
    } else if IsFinishing(e) {
      FinishingFrame(cfg, s, e);
    } else if IsRelease(e) {
      ReleaseFrame(cfg, s, e);
    } else if IsIdling(e) {
      IdlingFrame(cfg, s, e);
    } else {
      QueueingFrame(cfg, s, e);
    }
  }

  lemma ThrottledStep(cfg: Config, s: State, e: Step)
    requires Throttled(cfg, s) && Enabled(cfg, s, e)
    ensures Throttled(cfg, Next(cfg, s, e))
  {
    var s' := Next(cfg, s, e);
    if e.Poll? {
      var added := s'.enqueued != s.enqueued;
      assert added ==> e.path !in s.shared.seen && s'.enqueued == s.enqueued + [(e.path, s.poller.stamp)];
    } else if e.Sweep? {
      assert s'.enqueued == s.enqueued;
      OthersLeaveQueue(cfg, s, e);
    } else {
      if !e.Take? {
        OthersLeaveQueue(cfg, s, e);
      }
      OthersLeaveSeen(cfg, s, e);
      assert Horizon(s) <= Horizon(s');
    }
  }

  lemma {:induction false} ThrottledFrom(cfg: Config, s: State, es: seq<Step>)
    requires Throttled(cfg, s) && Run(cfg, s, es)
    ensures Throttled(cfg, Exec(cfg, s, es))
    decreases |es|
  {
    if es == [] {
    } else {
      ThrottledStep(cfg, s, es[0]);
      ThrottledFrom(cfg, Next(cfg, s, es[0]), es[1..]);
    }
  }

  /** Two enqueues of one path are always more than two poll intervals apart. */
  lemma RequeuesAreThrottled(cfg: Config, s: State, es: seq<Step>, i: nat, j: nat)
    requires Init(s) && Run(cfg, s, es)
    requires i < j < |EnqueuedIn(cfg, s, es)| && EnqueuedIn(cfg, s, es)[i].0 == EnqueuedIn(cfg, s, es)[j].0
    ensures EnqueuedIn(cfg, s, es)[j].1 - EnqueuedIn(cfg, s, es)[i].1 > 2 * cfg.pollIntervalSec * 1_000_000_000
  {
    ThrottledFrom(cfg, s, es);
    LogsAreSteps(cfg, s, es);
    assert Exec(cfg, s, es).enqueued == EnqueuedIn(cfg, s, es);
  }

  /** In every reachable state the gauge shows the length of the queue. */
  lemma GaugeIsQueueLength(cfg: Config, s: State, es: seq<Step>)
    requires Init(s) && Run(cfg, s, es)
    ensures Exec(cfg, s, es).shared.queueDepth == |Exec(cfg, s, es).shared.files|
  {
    ThrottledFrom(cfg, s, es);
  }

  lemma PollKeepsLast(s: State, s': State, path: Path, stamp: int)
    requires SeenIsLastEnqueue(s) && path !in s.shared.seen
    requires s'.shared.seen == s.shared.seen[path := stamp] && s'.enqueued == s.enqueued + [(path, stamp)]
    ensures SeenIsLastEnqueue(s')
  {
    var n := |s.enqueued|;
    forall p | p in s'.shared.seen
      ensures exists i :: 0 <= i < |s'.enqueued| && s'.enqueued[i] == (p, s'.shared.seen[p])
    {
      if p == path {
        assert s'.enqueued[n] == (p, stamp);
      } else {
        var i :| 0 <= i < n && s.enqueued[i] == (p, s.shared.seen[p]);
        assert s'.enqueued[i] == (p, s'.shared.seen[p]);
      }
    }
    forall i | 0 <= i < |s'.enqueued| && IsLast(s'.enqueued, i) && s'.enqueued[i].0 in s'.shared.seen
      ensures s'.shared.seen[s'.enqueued[i].0] == s'.enqueued[i].1
    {
      if i < n {
        assert s'.enqueued[n].0 != s'.enqueued[i].0;
        forall j | i < j < n ensures s.enqueued[j].0 != s.enqueued[i].0 {
          assert s'.enqueued[j].0 != s'.enqueued[i].0;
        }
        assert IsLast(s.enqueued, i);
      }
    }
  }

  lemma SeenIsLastStep(cfg: Config, s: State, e: Step)
    requires SeenIsLastEnqueue(s) && Enabled(cfg, s, e)
    ensures SeenIsLastEnqueue(Next(cfg, s, e))
  {
    var s' := Next(cfg, s, e);
    if e.Poll? {
      if s'.shared != s.shared {
        PollKeepsLast(s, s', e.path, s.poller.stamp);
      }
    } else if e.Sweep? {
      assert s'.enqueued == s.enqueued;
    } else {
      OthersLeaveSeen(cfg, s, e);
    }
  }

  lemma {:induction false} SeenIsLastFrom(cfg: Config, s: State, es: seq<Step>)
    requires SeenIsLastEnqueue(s) && Run(cfg, s, es)
    ensures SeenIsLastEnqueue(Exec(cfg, s, es))
    decreases |es|
  {
    if es == [] {
    } else {
      SeenIsLastStep(cfg, s, es[0]);
      SeenIsLastFrom(cfg, Next(cfg, s, es[0]), es[1..]);
    }
  }

  /** The last enqueue of the path lies no further back than the TTL. */
  ghost predicate EnqueuedLately(cfg: Config, log: seq<(Path, int)>, p: Path, now: int) {
    exists i :: 0 <= i < |log| && log[i].0 == p && IsLast(log, i) &&
                now - log[i].1 <= 2 * cfg.pollIntervalSec * 1_000_000_000
  }

  lemma SweptIsOld(cfg: Config, s: State, p: Path)
    requires StampsBounded(cfg, s) && SeenIsLastEnqueue(s) && s.poller.Sweeping?
    ensures p in Cleanup(s.shared, s.poller.now, cfg.Ttl()).seen <==> EnqueuedLately(cfg, s.enqueued, p, s.poller.now)
  {
    if p in s.shared.seen {
      var i :| 0 <= i < |s.enqueued| && s.enqueued[i] == (p, s.shared.seen[p]);
      var k := LastEnqueue(s.enqueued, i);
      assert s.enqueued[k] == (p, s.shared.seen[p]);
    }
  }

  /**
   Over any run, a sweep leaves `seen` with exactly the paths whose last enqueue
   lies no further back than the TTL: nothing keeps an entry alive in between,
   and nothing but its age removes it.
   */
  lemma SweepLeavesOnlyYoungEntries(cfg: Config, s: State, es: seq<Step>, p: Path)
    requires Init(s) && Run(cfg, s, es) && Enabled(cfg, Exec(cfg, s, es), Sweep)
    ensures var end := Exec(cfg, s, es);
            p in Next(cfg, end, Sweep).shared.seen <==> EnqueuedLately(cfg, EnqueuedIn(cfg, s, es), p, end.poller.now)
  {
    ThrottledFrom(cfg, s, es);
    SeenIsLastFrom(cfg, s, es);
    LogsAreSteps(cfg, s, es);
    assert Exec(cfg, s, es).enqueued == EnqueuedIn(cfg, s, es);
    SweptIsOld(cfg, Exec(cfg, s, es), p);
  }

  lemma {:induction false} LastEnqueue(log: seq<(Path, int)>, i: nat) returns (k: nat)
    requires i < |log|
    ensures i <= k < |log| && log[k].0 == log[i].0 && IsLast(log, k)
    decreases |log| - i
  {
    if IsLast(log, i) {
      k := i;
    } else {
      var j :| i < j < |log| && log[j].0 == log[i].0;
      k := LastEnqueue(log, j);
    }
  }
}
