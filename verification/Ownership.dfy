/** Who works on which path, over every interleaving. */
module Ownership {
  import opened WorkerState
  import opened Worker

  /** The thread is busy with the path, or still has a file to move or a marker to remove for it. */
  predicate Touches(ph: Phase, path: Path) {
    !ph.Idle? && ph.path == path
  }

  /** The thread has given up its in-flight marker but is not done with the path. */
  predicate Finishing(ph: Phase) {
    ph.Counting? || ph.DeadLettering? || ph.ReleasingAgain?
  }

  /** The thread relies on its in-flight marker for this path. */
  predicate Owns(ph: Phase, path: Path) {
    Touches(ph, path) && !Finishing(ph)
  }

  ghost predicate Exclusive(s: State) {
    && (forall i, j :: 0 <= i < j < |s.shared.files| ==> s.shared.files[i] != s.shared.files[j])
    && (forall p :: p in s.shared.files ==> p in s.shared.seen && p !in s.shared.inflight)
    && (forall v, w, p :: 0 <= v < w < |s.workers| ==> !(Touches(s.workers[v], p) && Touches(s.workers[w], p)))
    && (forall p :: p in s.shared.inflight <==> exists w :: 0 <= w < |s.workers| && Owns(s.workers[w], p))
  }

  /**
   The two windows the code leaves open: the sweep drops the entry of a path
   that is still queued, and a path is taken again while the worker whose pass
   failed has released its marker but not yet finished with the file.
   */
  ghost predicate Benign(cfg: Config, s: State, e: Step)
    requires Enabled(cfg, s, e)
  {
    match e
    case Sweep => forall p :: p in s.shared.files ==> p in s.shared.seen && s.poller.now - s.shared.seen[p] <= cfg.Ttl()
    case Take(_) =>
      forall v :: 0 <= v < |s.workers| && Finishing(s.workers[v]) ==> s.workers[v].path != s.shared.files[0]
    case _ => true
  }

  /** Steps that leave the queue, the markers and the owners alone and touch no further path. */
  lemma UnrelatedStep(s: State, s': State)
    requires Exclusive(s) && |s'.workers| == |s.workers|
    requires s'.shared.files == s.shared.files && s'.shared.seen == s.shared.seen
    requires s'.shared.inflight == s.shared.inflight
    requires forall w, p :: 0 <= w < |s.workers| ==> (Owns(s'.workers[w], p) <==> Owns(s.workers[w], p))
    requires forall w, p :: 0 <= w < |s.workers| && Touches(s'.workers[w], p) ==> Touches(s.workers[w], p)
    ensures Exclusive(s')
  {
    forall p ensures p in s'.shared.inflight <==> exists w :: 0 <= w < |s'.workers| && Owns(s'.workers[w], p) {
      if p in s.shared.inflight {
        var w :| 0 <= w < |s.workers| && Owns(s.workers[w], p);
        assert Owns(s'.workers[w], p);
      }
    }
  }

  /** Taking a path that nobody touches. */
  lemma TakeFree(cfg: Config, s: State, w: nat)
    requires Exclusive(s) && Enabled(cfg, s, Take(w)) && Benign(cfg, s, Take(w))
    ensures Exclusive(Next(cfg, s, Take(w)))
  {
    var s' := Next(cfg, s, Take(w));
    var front := s.shared.files[0];
    assert front in s.shared.files;
    assert forall p :: p in s'.shared.files ==> p in s.shared.files;
    forall v | 0 <= v < |s.workers| ensures !Touches(s.workers[v], front) {
      assert !Owns(s.workers[v], front);
    }
    forall p ensures p in s'.shared.inflight <==> exists v :: 0 <= v < |s'.workers| && Owns(s'.workers[v], p) {
      if p == front {
        assert Owns(s'.workers[w], p);
      } else if p in s.shared.inflight {
        var v :| 0 <= v < |s.workers| && Owns(s.workers[v], p);
        assert Owns(s'.workers[v], p);
      } else {
        forall v | 0 <= v < |s.workers| ensures !Owns(s'.workers[v], p) {
          assert !Owns(s.workers[v], p);
        }
      }
    }
  }

  lemma TakeStep(cfg: Config, s: State, w: nat)
    requires Exclusive(s) && Enabled(cfg, s, Take(w))
    ensures Exclusive(Next(cfg, s, Take(w))) <==> Benign(cfg, s, Take(w))
  {
    if Benign(cfg, s, Take(w)) {
      TakeFree(cfg, s, w);
    } else {
      var s' := Next(cfg, s, Take(w));
      var v :| 0 <= v < |s.workers| && Finishing(s.workers[v]) && s.workers[v].path == s.shared.files[0];
      assert Touches(s'.workers[v], s.shared.files[0]) && Touches(s'.workers[w], s.shared.files[0]);
    }
  }

  /** The release that ends a worker's ownership. */
  lemma OwnerReleases(cfg: Config, s: State, e: Step)
    requires Exclusive(s) && Enabled(cfg, s, e) && (e.ReleaseLast? || e.ReleaseFirst?)
    ensures Exclusive(Next(cfg, s, e))
  {
    var s' := Next(cfg, s, e);
    var w := e.w;
    var path := s.workers[w].path;
    assert Owns(s.workers[w], path);
    forall p ensures p in s'.shared.inflight <==> exists v :: 0 <= v < |s'.workers| && Owns(s'.workers[v], p) {
      if p in s'.shared.inflight {
        var v :| 0 <= v < |s.workers| && Owns(s.workers[v], p);
        assert Owns(s'.workers[v], p);
      } else {
        forall v | 0 <= v < |s.workers| ensures !Owns(s'.workers[v], p) {
          assert p != path ==> !Owns(s.workers[v], p);
        }
      }
    }
  }

  /** The second release after a failed conversion finds no marker of another worker to remove. */
  lemma SecondReleaseIsHarmless(cfg: Config, s: State, w: nat)
    requires Exclusive(s) && Enabled(cfg, s, ReleaseAgain(w))
    ensures s.workers[w].path !in s.shared.inflight
    ensures Exclusive(Next(cfg, s, ReleaseAgain(w)))
  {
    var path := s.workers[w].path;
    assert Touches(s.workers[w], path) && !Owns(s.workers[w], path);
    assert forall v :: 0 <= v < |s.workers| ==> !Owns(s.workers[v], path);
    UnrelatedStep(s, Next(cfg, s, ReleaseAgain(w)));
  }

  lemma SweepStep(cfg: Config, s: State)
    requires Exclusive(s) && Enabled(cfg, s, Sweep)
    ensures Exclusive(Next(cfg, s, Sweep)) <==> Benign(cfg, s, Sweep)
  {
    var s' := Next(cfg, s, Sweep);
    if Benign(cfg, s, Sweep) {
      UnrelatedStep(s, s'.(shared := s'.shared.(seen := s.shared.seen)));
    }
  }

  lemma PollStep(cfg: Config, s: State, path: Path)
    requires Exclusive(s) && Enabled(cfg, s, Poll(path))
    ensures Exclusive(Next(cfg, s, Poll(path)))
  {
    var s' := Next(cfg, s, Poll(path));
    UnrelatedStep(s, s'.(shared := s.shared));
    assert forall p :: p in s'.shared.files ==> p in s.shared.files || p == path;
  }

  /** A worker changes phase without taking or giving up its marker. */
  lemma PhaseStep(s: State, s': State, w: nat)
    requires Exclusive(s) && w < |s.workers| == |s'.workers|
    requires s'.shared.files == s.shared.files && s'.shared.seen == s.shared.seen
    requires s'.shared.inflight == s.shared.inflight
    requires s'.workers == s.workers[w := s'.workers[w]]
    requires forall p :: Owns(s'.workers[w], p) <==> Owns(s.workers[w], p)
    requires forall p :: Touches(s'.workers[w], p) ==> Touches(s.workers[w], p)
    ensures Exclusive(s')
  {
    assert forall v :: 0 <= v < |s.workers| && v != w ==> s'.workers[v] == s.workers[v];
    UnrelatedStep(s, s');
  }

  lemma HashingPhaseStep(cfg: Config, s: State, e: Step)
    requires Exclusive(s) && Enabled(cfg, s, e) && IsHashing(e)
    ensures Exclusive(Next(cfg, s, e))
  {
    PhaseStep(s, Next(cfg, s, e), e.w);
  }

  lemma DecidingPhaseStep(cfg: Config, s: State, e: Step)
    requires Exclusive(s) && Enabled(cfg, s, e) && IsDeciding(e)
    ensures Exclusive(Next(cfg, s, e))
  {
    PhaseStep(s, Next(cfg, s, e), e.w);
  }

  lemma FinishingPhaseStep(cfg: Config, s: State, e: Step)
    requires Exclusive(s) && Enabled(cfg, s, e) && IsFinishing(e)
    ensures Exclusive(Next(cfg, s, e))
  {
    PhaseStep(s, Next(cfg, s, e), e.w);
  }

  lemma ReleaseStep(cfg: Config, s: State, e: Step)
    requires Exclusive(s) && Enabled(cfg, s, e) && IsRelease(e)
    ensures Exclusive(Next(cfg, s, e))
  {
    if e.ReleaseAgain? {
      SecondReleaseIsHarmless(cfg, s, e.w);
    } else {
      OwnerReleases(cfg, s, e);
    }
  }

  lemma PollerStep(cfg: Config, s: State, e: Step)
    requires Exclusive(s) && Enabled(cfg, s, e)
    requires IsIdling(e)
    ensures Exclusive(Next(cfg, s, e))
  {
    var s' := Next(cfg, s, e);
    assert s'.workers == s.workers && s'.shared == s.shared;
    UnrelatedStep(s, s');
  }

  lemma HarmlessStep(cfg: Config, s: State, e: Step)
    requires Exclusive(s) && Enabled(cfg, s, e) && !e.Sweep? && !e.Take?
    ensures Exclusive(Next(cfg, s, e))
  {
    if IsHashing(e) {
      HashingPhaseStep(cfg, s, e);
    } else if IsDeciding(e) {
      DecidingPhaseStep(cfg, s, e);
    } else if IsRelease(e) {
      ReleaseStep(cfg, s, e);
    } else if IsIdling(e) {
      PollerStep(cfg, s, e);
    } else if IsFinishing(e) {
      FinishingPhaseStep(cfg, s, e);
    } else {
      PollStep(cfg, s, e.path);
    }
  }

  /** From an exclusive state a step leads to an exclusive state exactly when it is benign. */
  lemma ExclusiveStep(cfg: Config, s: State, e: Step)
    requires Exclusive(s) && Enabled(cfg, s, e)
    ensures Exclusive(Next(cfg, s, e)) <==> Benign(cfg, s, e)
  {
    if e.Sweep? {
      SweepStep(cfg, s);
    } else if e.Take? {
      TakeStep(cfg, s, e.w);
    } else {
      HarmlessStep(cfg, s, e);
    }
  }

  ghost predicate AlwaysExclusive(cfg: Config, s: State, es: seq<Step>)
    requires Run(cfg, s, es)
    decreases |es|
  {
    Exclusive(s) && (es == [] || AlwaysExclusive(cfg, Next(cfg, s, es[0]), es[1..]))
  }

  ghost predicate AlwaysBenign(cfg: Config, s: State, es: seq<Step>)
    requires Run(cfg, s, es)
    decreases |es|
  {
    es == [] || (Benign(cfg, s, es[0]) && AlwaysBenign(cfg, Next(cfg, s, es[0]), es[1..]))
  }

  lemma {:induction false} ExclusiveFrom(cfg: Config, s: State, es: seq<Step>)
    requires Exclusive(s) && Run(cfg, s, es)
    ensures AlwaysExclusive(cfg, s, es) <==> AlwaysBenign(cfg, s, es)
    decreases |es|
  {
    if es == [] {
    } else {
      ExclusiveStep(cfg, s, es[0]);
      var s' := Next(cfg, s, es[0]);
      if Exclusive(s') {
        ExclusiveFrom(cfg, s', es[1..]);
      } else if |es| == 1 {
        assert !AlwaysExclusive(cfg, s', es[1..]);
      }
    }
  }

  /**
   In every state a run visits no two workers touch one path, nothing is queued
   twice, unseen or in flight, and the markers show the owners, exactly when all
   its steps are benign.
   */
  lemma ExclusiveExactly(cfg: Config, s: State, es: seq<Step>)
    requires Init(s) && Run(cfg, s, es)
    ensures AlwaysExclusive(cfg, s, es) <==> AlwaysBenign(cfg, s, es)
  {
    ExclusiveFrom(cfg, s, es);
  }

  lemma {:induction false} BenignRunIsExclusive(cfg: Config, s: State, es: seq<Step>)
    requires Exclusive(s) && Run(cfg, s, es) && AlwaysBenign(cfg, s, es)
    ensures Exclusive(Exec(cfg, s, es))
    decreases |es|
  {
    if es == [] {
    } else {
      ExclusiveStep(cfg, s, es[0]);
      BenignRunIsExclusive(cfg, Next(cfg, s, es[0]), es[1..]);
    }
  }

  /** After a benign run no path is touched by two workers, and none that a worker owns is queued. */
  lemma OneOwnerPerPath(cfg: Config, s: State, es: seq<Step>, v: nat, w: nat, path: Path)
    requires Init(s) && Run(cfg, s, es) && AlwaysBenign(cfg, s, es)
    requires v < w < |Exec(cfg, s, es).workers|
    ensures var end := Exec(cfg, s, es);
            && !(Touches(end.workers[v], path) && Touches(end.workers[w], path))
            && (Owns(end.workers[v], path) || Owns(end.workers[w], path) ==> path !in end.shared.files)
  {
    BenignRunIsExclusive(cfg, s, es);
  }

  /** No worker of an exclusive state moves a file away under another one. */
  lemma MovesHitNobody(cfg: Config, s: State, e: Step, v: nat)
    requires Exclusive(s) && Enabled(cfg, s, e) && e.MoveAway? && v < |s.workers| && v != e.w && !s.workers[v].Idle?
    ensures OnDisk(Next(cfg, s, e).disk, s.workers[v].path) == OnDisk(s.disk, s.workers[v].path)
  {
    assert Touches(s.workers[v], s.workers[v].path);
  }
}
