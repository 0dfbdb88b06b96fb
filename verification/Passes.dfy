/**
 What the steps of a run amount to: which paths were queued, taken, judged and
 moved.  Everything here is read off the steps, and the laws say that no pass
 over a path is lost or done twice.
 */
module Passes {
  import opened WorkerState
  import opened Worker

  // ---------------------------------------------------------------- records read off the steps

  /** A duplicate or a conversion resolves the path; a failure is a dead letter once the count reaches the limit. */
  ghost function VerdictBy(cfg: Config, s: State, e: Step): seq<Verdict>
    requires Enabled(cfg, s, e)
  {
    if e.Convert? || e.FindDuplicate? then [Resolved(s.workers[e.w].path)]
    else if e.Count? then
      var path := s.workers[e.w].path;
      [Failure(path, (if path in s.shared.failCounts then s.shared.failCounts[path] else 0) + 1 >= cfg.maxRetries)]
    else []
  }

  ghost function VerdictsIn(cfg: Config, s: State, es: seq<Step>): seq<Verdict>
    requires Run(cfg, s, es)
    decreases |es|
  {
    if es == [] then [] else VerdictBy(cfg, s, es[0]) + VerdictsIn(cfg, Next(cfg, s, es[0]), es[1..])
  }

  /** The poller queues a path that is neither in flight nor seen, with the stamp of its scan. */
  ghost function EnqueuedBy(cfg: Config, s: State, e: Step): seq<(Path, int)>
    requires Enabled(cfg, s, e)
  {
    if e.Poll? && e.path !in s.shared.inflight && e.path !in s.shared.seen then [(e.path, s.poller.stamp)] else []
  }

  ghost function EnqueuedIn(cfg: Config, s: State, es: seq<Step>): seq<(Path, int)>
    requires Run(cfg, s, es)
    decreases |es|
  {
    if es == [] then [] else EnqueuedBy(cfg, s, es[0]) + EnqueuedIn(cfg, Next(cfg, s, es[0]), es[1..])
  }

  /** A worker takes the path at the front of the queue. */
  ghost function TakenBy(cfg: Config, s: State, e: Step): seq<Path>
    requires Enabled(cfg, s, e)
  {
    if e.Take? then [s.shared.files[0]] else []
  }

  ghost function TakenIn(cfg: Config, s: State, es: seq<Step>): seq<Path>
    requires Run(cfg, s, es)
    decreases |es|
  {
    if es == [] then [] else TakenBy(cfg, s, es[0]) + TakenIn(cfg, Next(cfg, s, es[0]), es[1..])
  }

  lemma Associates<T>(a: seq<T>, b: seq<T>, c: seq<T>)
    ensures a + b + c == a + (b + c)
  {
  }

  lemma PollLogged(cfg: Config, s: State, e: Step)
    requires Enabled(cfg, s, e) && e.Poll?
    ensures Next(cfg, s, e).enqueued == s.enqueued + EnqueuedBy(cfg, s, e)
  {
    if EnqueuedBy(cfg, s, e) == [] {
      assert s.enqueued + [] == s.enqueued;
    } else {
      assert Enqueue(s.shared, e.path, s.poller.stamp).queueDepth != s.shared.queueDepth;
    }
  }

  lemma LogsOfStep(cfg: Config, s: State, e: Step)
    requires Enabled(cfg, s, e)
    ensures Next(cfg, s, e).verdicts == s.verdicts + VerdictBy(cfg, s, e)
    ensures Next(cfg, s, e).enqueued == s.enqueued + EnqueuedBy(cfg, s, e)
  {
    if IsHashing(e) {
      HashingFrame(cfg, s, e);
    } else if IsDeciding(e) {
      DecidingFrame(cfg, s, e);
    } else if IsFinishing(e) {
      FinishingFrame(cfg, s, e);
    } else if IsRelease(e) {
      ReleaseFrame(cfg, s, e);
    } else if IsIdling(e) {
      IdlingFrame(cfg, s, e);
    } else {
      QueueingFrame(cfg, s, e);
      if e.Poll? {
        PollLogged(cfg, s, e);
      }
    }
  }

  /** The two logs of the machine hold exactly what the steps of the run amount to. */
  lemma {:induction false} LogsAreSteps(cfg: Config, s: State, es: seq<Step>)
    requires Run(cfg, s, es)
    ensures Exec(cfg, s, es).verdicts == s.verdicts + VerdictsIn(cfg, s, es)
    ensures Exec(cfg, s, es).enqueued == s.enqueued + EnqueuedIn(cfg, s, es)
    decreases |es|
  {
    if es == [] {
    } else {
      var s' := Next(cfg, s, es[0]);
      LogsOfStep(cfg, s, es[0]);
      LogsAreSteps(cfg, s', es[1..]);
      Associates(s.verdicts, VerdictBy(cfg, s, es[0]), VerdictsIn(cfg, s', es[1..]));
      Associates(s.enqueued, EnqueuedBy(cfg, s, es[0]), EnqueuedIn(cfg, s', es[1..]));
    }
  }

  // ---------------------------------------------------------------- the queue

  function Paths(log: seq<(Path, int)>): seq<Path> {
    seq(|log|, i requires 0 <= i < |log| => log[i].0)
  }

  lemma QueueStep(cfg: Config, s: State, e: Step)
    requires Enabled(cfg, s, e)
    ensures s.shared.files + Paths(EnqueuedBy(cfg, s, e)) == TakenBy(cfg, s, e) + Next(cfg, s, e).shared.files
  {
    if e.Poll? {
      assert EnqueuedBy(cfg, s, e) == [] ==> Paths(EnqueuedBy(cfg, s, e)) == [];
    } else if e.Take? {
      assert s.shared.files == [s.shared.files[0]] + s.shared.files[1..];
    } else if IsHashing(e) {
      HashingFrame(cfg, s, e);
    } else if IsDeciding(e) {
      DecidingFrame(cfg, s, e);
    } else if IsFinishing(e) {
      FinishingFrame(cfg, s, e);
    } else if IsRelease(e) {
      ReleaseFrame(cfg, s, e);
    } else if IsIdling(e) {
      IdlingFrame(cfg, s, e);
    } else {
      QueueingFrame(cfg, s, e);
    }
  }

  lemma QueueConcat(before: seq<Path>, p1: seq<Path>, p2: seq<Path>, t1: seq<Path>, t2: seq<Path>,
                    mid: seq<Path>, after: seq<Path>)
    requires before + p1 == t1 + mid && mid + p2 == t2 + after
    ensures before + (p1 + p2) == (t1 + t2) + after
  {
    assert before + (p1 + p2) == (before + p1) + p2 == t1 + (mid + p2);
  }

  lemma PathsConcat(a: seq<(Path, int)>, b: seq<(Path, int)>)
    ensures Paths(a + b) == Paths(a) + Paths(b)
  {
  }

  lemma {:induction false} QueueFrom(cfg: Config, s: State, es: seq<Step>)
    requires Run(cfg, s, es)
    ensures s.shared.files + Paths(EnqueuedIn(cfg, s, es)) == TakenIn(cfg, s, es) + Exec(cfg, s, es).shared.files
    decreases |es|
  {
    if es == [] {
    } else {
      var s' := Next(cfg, s, es[0]);
      var first, rest := EnqueuedBy(cfg, s, es[0]), EnqueuedIn(cfg, s', es[1..]);
      QueueStep(cfg, s, es[0]);
      QueueFrom(cfg, s', es[1..]);
      QueueConcat(s.shared.files, Paths(first), Paths(rest), TakenBy(cfg, s, es[0]), TakenIn(cfg, s', es[1..]),
                  s'.shared.files, Exec(cfg, s', es[1..]).shared.files);
      PathsConcat(first, rest);
    }
  }

  /** First in, first out: the paths queued in a run are those taken, in this order, and then those still queued. */
  lemma QueueIsFifo(cfg: Config, s: State, es: seq<Step>)
    requires Init(s) && Run(cfg, s, es)
    ensures Paths(EnqueuedIn(cfg, s, es)) == TakenIn(cfg, s, es) + Exec(cfg, s, es).shared.files
  {
    QueueFrom(cfg, s, es);
  }

  // ---------------------------------------------------------------- the scans

  /** The clock readings with which the poller starts its scans. */
  ghost function ScansIn(cfg: Config, s: State, es: seq<Step>): seq<int>
    requires Run(cfg, s, es)
    decreases |es|
  {
    if es == [] then []
    else (if es[0].StartScan? then [s.clock] else []) + ScansIn(cfg, Next(cfg, s, es[0]), es[1..])
  }

  function LastScan(poller: Poller): int {
    match poller
    case Waiting(t) => t
    case Scanning(t) => t
    case ScanDone(t) => t
    case Sweeping(t, _) => t
  }

  lemma ScanStep(cfg: Config, s: State, e: Step)
    requires Enabled(cfg, s, e)
    ensures e.StartScan? ==> s.clock - LastScan(s.poller) >= cfg.pollIntervalSec * 1_000_000_000
    ensures LastScan(Next(cfg, s, e).poller) == if e.StartScan? then s.clock else LastScan(s.poller)
  {
    if e.StartScan? {
      assert s.clock - LastScan(s.poller) >= (s.clock - LastScan(s.poller)) / NS_PER_SEC * NS_PER_SEC;
    } else if IsIdling(e) {
    } else if HasWorker(e) {
      OneWorkerMoves(cfg, s, e);
      assert Next(cfg, s, e).poller == s.poller;
    }
  }

  ghost predicate SpacedFrom(cfg: Config, last: int, scans: seq<int>) {
    && (scans != [] ==> scans[0] - last >= cfg.pollIntervalSec * 1_000_000_000)
    && forall k :: 0 <= k < |scans| - 1 ==> scans[k + 1] - scans[k] >= cfg.pollIntervalSec * 1_000_000_000
  }

  lemma SpacedPush(cfg: Config, last: int, first: int, scans: seq<int>)
    requires SpacedFrom(cfg, first, scans) && first - last >= cfg.pollIntervalSec * 1_000_000_000
    ensures SpacedFrom(cfg, last, [first] + scans)
  {
    var all := [first] + scans;
    forall k | 0 <= k < |all| - 1 ensures all[k + 1] - all[k] >= cfg.pollIntervalSec * 1_000_000_000 {
      assert all[k + 1] == scans[k] && (k > 0 ==> all[k] == scans[k - 1]);
    }
  }

  /** Successive scans of the watch folder start at least a poll interval apart. */
  lemma {:induction false} ScansAreSpaced(cfg: Config, s: State, es: seq<Step>)
    requires Run(cfg, s, es)
    ensures SpacedFrom(cfg, LastScan(s.poller), ScansIn(cfg, s, es))
    decreases |es|
  {
    if es == [] {
    } else {
      var s' := Next(cfg, s, es[0]);
      ScanStep(cfg, s, es[0]);
      ScansAreSpaced(cfg, s', es[1..]);
      if es[0].StartScan? {
        SpacedPush(cfg, LastScan(s.poller), s.clock, ScansIn(cfg, s', es[1..]));
      } else {
        assert [] + ScansIn(cfg, s', es[1..]) == ScansIn(cfg, s', es[1..]);
      }
    }
  }

  // ---------------------------------------------------------------- conservation

  /** What a worker still owes a path: a verdict, a move, the release of its marker, the second release. */
  datatype Stage = Undecided | Moving | Marked | Twice

  predicate InStage(stage: Stage, ph: Phase) {
    match stage
    case Undecided =>
      || ph.Taken? || ph.Printed? || ph.NeedSha? || ph.ShaDone? || ph.Hashed? || ph.Converting?
      || ph.Failing? || ph.Counting?
    case Moving => ph.Archiving? || ph.DeadLettering?
    case Marked => !ph.Idle? && !ph.Counting? && !ph.DeadLettering? && !ph.ReleasingAgain?
    case Twice => ((ph.Failing? || ph.Counting? || ph.DeadLettering?) && ph.converted) || ph.ReleasingAgain?
  }

  predicate HasWorker(e: Step) { e.Take? || IsHashing(e) || IsDeciding(e) || IsFinishing(e) || IsRelease(e) }

  /** The failure about to be counted is the one that reaches the limit. */
  predicate LastStraw(cfg: Config, sh: Shared, path: Path) {
    (if path in sh.failCounts then sh.failCounts[path] else 0) + 1 >= cfg.maxRetries
  }

  /** The path a step is about. */
  function PathOf(s: State, e: Step): Path
    requires HasWorker(e) && e.w < |s.workers|
    requires if e.Take? then s.shared.files != [] else !s.workers[e.w].Idle?
  {
    if e.Take? then s.shared.files[0] else s.workers[e.w].path
  }

  /** The step is where the debt arises. */
  ghost predicate Enters(stage: Stage, cfg: Config, s: State, e: Step)
    requires Enabled(cfg, s, e)
  {
    match stage
    case Undecided => e.Take?
    case Moving => e.Convert? || e.FindDuplicate? || (e.Count? && LastStraw(cfg, s.shared, s.workers[e.w].path))
    case Marked => e.Take?
    case Twice => e.FailConversion?
  }

  /** The step is where it is paid. */
  predicate Leaves(stage: Stage, e: Step) {
    match stage
    case Undecided => e.Convert? || e.FindDuplicate? || e.Count?
    case Moving => e.MoveAway?
    case Marked => e.ReleaseLast? || e.ReleaseFirst?
    case Twice => e.ReleaseAgain?
  }

  function Tally(b: bool): nat { if b then 1 else 0 }

  ghost function Entered(stage: Stage, cfg: Config, s: State, es: seq<Step>, p: Path): nat
    requires Run(cfg, s, es)
    decreases |es|
  {
    if es == [] then 0
    else Tally(Enters(stage, cfg, s, es[0]) && PathOf(s, es[0]) == p) +
         Entered(stage, cfg, Next(cfg, s, es[0]), es[1..], p)
  }

  ghost function Left(stage: Stage, cfg: Config, s: State, es: seq<Step>, p: Path): nat
    requires Run(cfg, s, es)
    decreases |es|
  {
    if es == [] then 0
    else Tally(Leaves(stage, es[0]) && PathOf(s, es[0]) == p) + Left(stage, cfg, Next(cfg, s, es[0]), es[1..], p)
  }

  function One(stage: Stage, ph: Phase, p: Path): nat {
    if InStage(stage, ph) && ph.path == p then 1 else 0
  }

  /** How many workers owe the path this. */
  function Busy(stage: Stage, ws: seq<Phase>, p: Path): nat {
    if ws == [] then 0 else One(stage, ws[0], p) + Busy(stage, ws[1..], p)
  }

  lemma {:induction false} BusyUpdate(stage: Stage, ws: seq<Phase>, w: nat, ph: Phase, p: Path)
    requires w < |ws|
    ensures Busy(stage, ws[w := ph], p) + One(stage, ws[w], p) == Busy(stage, ws, p) + One(stage, ph, p)
    decreases |ws|
  {
    var ws' := ws[w := ph];
    if w == 0 {
      assert ws'[1..] == ws[1..];
    } else {
      assert ws'[1..] == ws[1..][w - 1 := ph];
      BusyUpdate(stage, ws[1..], w - 1, ph, p);
    }
  }

  lemma {:induction false} IdleIsNotBusy(stage: Stage, ws: seq<Phase>, p: Path)
    requires forall w :: 0 <= w < |ws| ==> ws[w].Idle?
    ensures Busy(stage, ws, p) == 0
    decreases |ws|
  {
    if ws == [] {
    } else {
      IdleIsNotBusy(stage, ws[1..], p);
    }
  }

  lemma OneWorkerMoves(cfg: Config, s: State, e: Step)
    requires Enabled(cfg, s, e)
    ensures HasWorker(e) ==> OneWorkerChanges(s, Next(cfg, s, e), e.w)
    ensures !HasWorker(e) ==> Next(cfg, s, e).workers == s.workers
  {
    if IsHashing(e) {
      HashingFrame(cfg, s, e);
    } else if IsDeciding(e) {
      DecidingFrame(cfg, s, e);
    } else if IsFinishing(e) {
      FinishingFrame(cfg, s, e);
    } else if IsRelease(e) {
      ReleaseFrame(cfg, s, e);
    } else if IsIdling(e) {
      IdlingFrame(cfg, s, e);
    } else {
      QueueingFrame(cfg, s, e);
    }
  }

  /** The phase after the step keeps to the path, and to the stage unless the step enters or leaves it. */
  ghost predicate Balanced(stage: Stage, cfg: Config, s: State, e: Step, after: Phase)
    requires Enabled(cfg, s, e) && HasWorker(e)
  {
    var before := s.workers[e.w];
    && Tally(Enters(stage, cfg, s, e)) + Tally(InStage(stage, before)) ==
       Tally(Leaves(stage, e)) + Tally(InStage(stage, after))
    && (Leaves(stage, e) ==> InStage(stage, before))
    && (InStage(stage, before) ==> PathOf(s, e) == before.path)
    && (InStage(stage, after) ==> PathOf(s, e) == after.path)
  }

  lemma LookingBalance(stage: Stage, cfg: Config, s: State, e: Step)
    requires Enabled(cfg, s, e) && (e.Print? || e.Lookup?) && e.w < |Next(cfg, s, e).workers|
    ensures Balanced(stage, cfg, s, e, Next(cfg, s, e).workers[e.w])
  {
  }

  lemma HashingBalance(stage: Stage, cfg: Config, s: State, e: Step)
    requires Enabled(cfg, s, e) && (e.HashFile? || e.Store?) && e.w < |Next(cfg, s, e).workers|
    ensures Balanced(stage, cfg, s, e, Next(cfg, s, e).workers[e.w])
  {
  }

  lemma ResolvingBalance(stage: Stage, cfg: Config, s: State, e: Step)
    requires Enabled(cfg, s, e) && (e.Convert? || e.FindDuplicate?) && e.w < |Next(cfg, s, e).workers|
    ensures Balanced(stage, cfg, s, e, Next(cfg, s, e).workers[e.w])
  {
  }

  lemma DecidingBalance(stage: Stage, cfg: Config, s: State, e: Step)
    requires Enabled(cfg, s, e) && IsDeciding(e) && e.w < |Next(cfg, s, e).workers|
    ensures Balanced(stage, cfg, s, e, Next(cfg, s, e).workers[e.w])
  {
    if e.Convert? || e.FindDuplicate? {
      ResolvingBalance(stage, cfg, s, e);
    }
  }

  lemma FinishingBalance(stage: Stage, cfg: Config, s: State, e: Step)
    requires Enabled(cfg, s, e) && IsFinishing(e) && e.w < |Next(cfg, s, e).workers|
    ensures Balanced(stage, cfg, s, e, Next(cfg, s, e).workers[e.w])
  {
  }

  lemma ReleaseBalance(stage: Stage, cfg: Config, s: State, e: Step)
    requires Enabled(cfg, s, e) && IsRelease(e) && e.w < |Next(cfg, s, e).workers|
    ensures Balanced(stage, cfg, s, e, Next(cfg, s, e).workers[e.w])
  {
  }

  lemma TakeBalance(stage: Stage, cfg: Config, s: State, e: Step)
    requires Enabled(cfg, s, e) && e.Take? && e.w < |Next(cfg, s, e).workers|
    ensures Balanced(stage, cfg, s, e, Next(cfg, s, e).workers[e.w])
  {
  }

  lemma WorkerBalance(stage: Stage, cfg: Config, s: State, e: Step)
    requires Enabled(cfg, s, e) && HasWorker(e) && e.w < |Next(cfg, s, e).workers|
    ensures Balanced(stage, cfg, s, e, Next(cfg, s, e).workers[e.w])
  {
    if e.Print? || e.Lookup? {
      LookingBalance(stage, cfg, s, e);
    } else if IsHashing(e) {
      HashingBalance(stage, cfg, s, e);
    } else if IsDeciding(e) {
      DecidingBalance(stage, cfg, s, e);
    } else if IsFinishing(e) {
      FinishingBalance(stage, cfg, s, e);
    } else if IsRelease(e) {
      ReleaseBalance(stage, cfg, s, e);
    } else {
      TakeBalance(stage, cfg, s, e);
    }
  }

  lemma AddUp(stage: Stage, ws: seq<Phase>, w: nat, ph: Phase, path: Path, enters: bool, leaves: bool, p: Path)
    requires w < |ws|
    requires Tally(enters) + Tally(InStage(stage, ws[w])) == Tally(leaves) + Tally(InStage(stage, ph))
    requires (leaves ==> InStage(stage, ws[w])) && (InStage(stage, ws[w]) ==> path == ws[w].path)
    requires InStage(stage, ph) ==> path == ph.path
    ensures Tally(enters && path == p) + Busy(stage, ws, p) ==
            Tally(leaves && path == p) + Busy(stage, ws[w := ph], p)
  {
    BusyUpdate(stage, ws, w, ph, p);
  }

  lemma WorkerDebts(stage: Stage, cfg: Config, s: State, e: Step, after: seq<Phase>, p: Path)
    requires Enabled(cfg, s, e) && HasWorker(e) && e.w < |s.workers| == |after|
    requires after == s.workers[e.w := after[e.w]] && Balanced(stage, cfg, s, e, after[e.w])
    ensures Tally(Enters(stage, cfg, s, e) && PathOf(s, e) == p) + Busy(stage, s.workers, p) ==
            Tally(Leaves(stage, e) && PathOf(s, e) == p) + Busy(stage, after, p)
  {
    AddUp(stage, s.workers, e.w, after[e.w], PathOf(s, e), Enters(stage, cfg, s, e), Leaves(stage, e), p);
  }

  lemma DebtsOfStep(stage: Stage, cfg: Config, s: State, e: Step, p: Path)
    requires Enabled(cfg, s, e)
    ensures Tally(Enters(stage, cfg, s, e) && PathOf(s, e) == p) + Busy(stage, s.workers, p) ==
            Tally(Leaves(stage, e) && PathOf(s, e) == p) + Busy(stage, Next(cfg, s, e).workers, p)
  {
    OneWorkerMoves(cfg, s, e);
    if HasWorker(e) {
      WorkerBalance(stage, cfg, s, e);
      WorkerDebts(stage, cfg, s, e, Next(cfg, s, e).workers, p);
    }
  }

  lemma {:induction false} DebtsFrom(stage: Stage, cfg: Config, s: State, es: seq<Step>, p: Path)
    requires Run(cfg, s, es)
    ensures Entered(stage, cfg, s, es, p) + Busy(stage, s.workers, p) ==
            Left(stage, cfg, s, es, p) + Busy(stage, Exec(cfg, s, es).workers, p)
    decreases |es|
  {
    if es == [] {
    } else {
      DebtsOfStep(stage, cfg, s, es[0], p);
      DebtsFrom(stage, cfg, Next(cfg, s, es[0]), es[1..], p);
    }
  }

  /**
   Nothing is lost between two steps, and nothing is done twice.  For every path
   the number of times it was taken is the number of verdicts on it plus the
   workers that still owe one; every success, duplicate and dead letter is
   followed by one move, every taking by one release, every failed conversion by
   one second release, unless a worker still owes it.
   */
  lemma DebtsArePaid(stage: Stage, cfg: Config, s: State, es: seq<Step>, p: Path)
    requires Init(s) && Run(cfg, s, es)
    ensures Entered(stage, cfg, s, es, p) == Left(stage, cfg, s, es, p) + Busy(stage, Exec(cfg, s, es).workers, p)
  {
    IdleIsNotBusy(stage, s.workers, p);
    DebtsFrom(stage, cfg, s, es, p);
  }
}
