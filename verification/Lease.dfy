/** The processing locks: leases with an expiry time, one table row per import. */
module Lease {
  import opened Options

  datatype Lease = Lease(worker: string, expires: int)

  /** `held` is what each worker has been granted and has not given back. */
  datatype State = State(clock: int, rows: map<int, Lease>, held: map<(int, string), int>)

  datatype Step =
    | Tick(to: int)
    | Acquire(id: int, worker: string, ttl: int, start: int, seen: Option<Lease>, written: bool)
    | Release(id: int, worker: string, deleted: bool)

  function Row(rows: map<int, Lease>, id: int): Option<Lease> {
    if id in rows then Some(rows[id]) else None
  }

  /** The row just read belongs to somebody else and has not expired. */
  predicate Denied(seen: Option<Lease>, worker: string, now: int) {
    seen.Some? && seen.value.expires > now && seen.value.worker != worker
  }

  ghost predicate Enabled(s: State, e: Step) {
    match e
    case Tick(to) => s.clock <= to
    case Acquire(_, _, _, start, _, _) => start <= s.clock
    case Release(_, _, _) => true
  }

  predicate Granted(s: State, e: Step)
    requires e.Acquire?
  {
    !Denied(e.seen, e.worker, s.clock) && e.written
  }

  /**
   `Acquire` decides on the row it read, which need not be the row there is by
   now; `Release` deletes by import only.  Either statement may fail.
   */
  ghost function Next(s: State, e: Step): State
    requires Enabled(s, e)
  {
    match e
    case Tick(to) => s.(clock := to)
    case Acquire(id, worker, ttl, start, _, _) =>
      if Granted(s, e)
      then s.(rows := s.rows[id := Lease(worker, start + ttl)], held := s.held[(id, worker) := start + ttl])
      else s
    case Release(id, worker, deleted) =>
      s.(rows := if deleted then s.rows - {id} else s.rows, held := s.held - {(id, worker)})
  }

  /** An acquire that finds no running row of another worker and can write gets the lease until `start + ttl`. */
  lemma AcquireEffect(s: State, e: Step)
    requires Enabled(s, e) && e.Acquire?
    ensures var taken := e.seen.Some? && e.seen.value.expires > s.clock && e.seen.value.worker != e.worker;
            Next(s, e) == if taken || !e.written then s
                          else State(s.clock, s.rows[e.id := Lease(e.worker, e.start + e.ttl)],
                                     s.held[(e.id, e.worker) := e.start + e.ttl])
  {
  }

  /** A release deletes the row of the import, whoever wrote it, if the statement works. */
  lemma ReleaseEffect(s: State, id: int, worker: string, deleted: bool)
    ensures var s' := Next(s, Release(id, worker, deleted));
            && (forall k :: k in s'.rows <==> k in s.rows && !(deleted && k == id))
            && (forall k :: k in s'.rows ==> s'.rows[k] == s.rows[k])
            && (forall w :: Holds(s', id, w) <==> Holds(s, id, w) && w != worker)
  {
  }

  predicate Holds(s: State, id: int, worker: string) {
    (id, worker) in s.held && s.held[(id, worker)] > s.clock
  }

  ghost predicate HeldByAnother(s: State, id: int, worker: string) {
    exists w :: w != worker && Holds(s, id, w)
  }

  /** At most one worker holds an unexpired lease per import. */
  ghost predicate Exclusive(s: State) {
    forall id, v, w :: Holds(s, id, v) && Holds(s, id, w) ==> v == w
  }

  /** The step hands out a lease that still runs while another worker holds one. */
  ghost predicate Doubles(s: State, e: Step) {
    e.Acquire? && Granted(s, e) && e.start + e.ttl > s.clock && HeldByAnother(s, e.id, e.worker)
  }

  lemma GrantKeepsExclusion(s: State, e: Step)
    requires Exclusive(s) && Enabled(s, e) && e.Acquire? && Granted(s, e)
    ensures Exclusive(Next(s, e)) <==> !Doubles(s, e)
  {
    var s' := Next(s, e);
    assert Holds(s', e.id, e.worker) <==> e.start + e.ttl > s.clock;
    forall i, w | (i, w) != (e.id, e.worker) ensures Holds(s', i, w) <==> Holds(s, i, w) {
    }
    if Doubles(s, e) {
      var w :| w != e.worker && Holds(s, e.id, w);
      assert Holds(s', e.id, w);
    }
  }

  /**
   From a state with at most one holder per import a step leads to another one
   exactly when it does not double a lease.
   */
  lemma ExclusiveStep(s: State, e: Step)
    requires Exclusive(s) && Enabled(s, e)
    ensures Exclusive(Next(s, e)) <==> !Doubles(s, e)
  {
    var s' := Next(s, e);
    if e.Acquire? && Granted(s, e) {
      GrantKeepsExclusion(s, e);
    } else {
      forall i, w | Holds(s', i, w) ensures Holds(s, i, w) {
      }
    }
  }

  // ---------------------------------------------------------------- the table as a witness

  /** Every unexpired lease is in the table. */
  ghost predicate Mirrored(s: State) {
    forall id, w :: Holds(s, id, w) ==> id in s.rows && s.rows[id] == Lease(w, s.held[(id, w)])
  }

  /** The step does not take the row from under another worker's unexpired lease. */
  ghost predicate Proper(s: State, e: Step) {
    match e
    case Tick(_) => true
    case Acquire(id, worker, _, _, _, _) => Granted(s, e) ==> !HeldByAnother(s, id, worker)
    case Release(id, worker, deleted) => deleted ==> !HeldByAnother(s, id, worker)
  }

  lemma MirroredStep(s: State, e: Step)
    requires Mirrored(s) && Enabled(s, e)
    ensures Mirrored(Next(s, e)) <==> Proper(s, e)
  {
    var s' := Next(s, e);
    if e.Tick? {
      forall id, w | Holds(s', id, w) ensures Holds(s, id, w) {
      }
    } else {
      forall i, w | (i, w) != (e.id, e.worker) ensures Holds(s', i, w) <==> Holds(s, i, w) {
      }
      if !Proper(s, e) {
        var w :| w != e.worker && Holds(s, e.id, w);
        assert Holds(s', e.id, w);
      }
    }
  }

  /** Reading and writing the row in one step is proper. */
  lemma FreshAcquireIsProper(s: State, e: Step)
    requires Mirrored(s) && Enabled(s, e) && e.Acquire? && e.seen == Row(s.rows, e.id)
    ensures Proper(s, e)
  {
    if w :| w != e.worker && Holds(s, e.id, w) {
      assert Denied(e.seen, e.worker, s.clock);
    }
  }

  /** Giving a lease back before it expires is proper. */
  lemma TimelyReleaseIsProper(s: State, e: Step)
    requires Mirrored(s) && Enabled(s, e) && e.Release? && Holds(s, e.id, e.worker)
    ensures Proper(s, e)
  {
    assert s.rows[e.id].worker == e.worker;
  }

  // ---------------------------------------------------------------- whole runs

  ghost predicate Init(s: State) { s.rows == map[] && s.held == map[] }

  ghost predicate Run(s: State, es: seq<Step>)
    decreases |es|
  {
    es == [] || (Enabled(s, es[0]) && Run(Next(s, es[0]), es[1..]))
  }

  ghost function Exec(s: State, es: seq<Step>): State
    requires Run(s, es)
    decreases |es|
  {
    if es == [] then s else Exec(Next(s, es[0]), es[1..])
  }

  ghost predicate AlwaysExclusive(s: State, es: seq<Step>)
    requires Run(s, es)
    decreases |es|
  {
    Exclusive(s) && (es == [] || AlwaysExclusive(Next(s, es[0]), es[1..]))
  }

  ghost predicate NeverDoubles(s: State, es: seq<Step>)
    requires Run(s, es)
    decreases |es|
  {
    es == [] || (!Doubles(s, es[0]) && NeverDoubles(Next(s, es[0]), es[1..]))
  }

  lemma {:induction false} ExclusiveFrom(s: State, es: seq<Step>)
    requires Exclusive(s) && Run(s, es)
    ensures AlwaysExclusive(s, es) <==> NeverDoubles(s, es)
    decreases |es|
  {
    if es == [] {
    } else {
      ExclusiveStep(s, es[0]);
      var s' := Next(s, es[0]);
      if Exclusive(s') {
        ExclusiveFrom(s', es[1..]);
      } else if |es| == 1 {
        assert !AlwaysExclusive(s', es[1..]);
      }
    }
  }

  /** Over a whole run at most one worker holds each import in every state exactly when no step doubles a lease. */
  lemma ExclusiveExactly(s: State, es: seq<Step>)
    requires Init(s) && Run(s, es)
    ensures AlwaysExclusive(s, es) <==> NeverDoubles(s, es)
  {
    ExclusiveFrom(s, es);
  }

  /** No step takes a row from under another worker's lease. */
  ghost predicate AlwaysProper(s: State, es: seq<Step>)
    requires Run(s, es)
    decreases |es|
  {
    es == [] || (Proper(s, es[0]) && AlwaysProper(Next(s, es[0]), es[1..]))
  }

  /** Acquires are atomic and releases come before expiry. */
  ghost predicate Disciplined(s: State, es: seq<Step>)
    requires Run(s, es)
    decreases |es|
  {
    es == [] ||
    (&& (es[0].Acquire? ==> es[0].seen == Row(s.rows, es[0].id))
     && (es[0].Release? ==> Holds(s, es[0].id, es[0].worker))
     && Disciplined(Next(s, es[0]), es[1..]))
  }

  /** What the callers can see to keeps every step proper. */
  lemma {:induction false} DisciplineIsProper(s: State, es: seq<Step>)
    requires Mirrored(s) && Run(s, es) && Disciplined(s, es)
    ensures AlwaysProper(s, es)
    decreases |es|
  {
    if es == [] {
    } else {
      var e := es[0];
      if e.Acquire? {
        FreshAcquireIsProper(s, e);
      } else if e.Release? {
        TimelyReleaseIsProper(s, e);
      }
      MirroredStep(s, e);
      DisciplineIsProper(Next(s, e), es[1..]);
    }
  }

  lemma {:induction false} ProperIsExclusive(s: State, es: seq<Step>)
    requires Mirrored(s) && Run(s, es) && AlwaysProper(s, es)
    ensures AlwaysExclusive(s, es) && Mirrored(Exec(s, es))
    decreases |es|
  {
    if es == [] {
    } else {
      MirroredStep(s, es[0]);
      ProperIsExclusive(Next(s, es[0]), es[1..]);
    }
  }

  lemma {:induction false} EndIsExclusive(s: State, es: seq<Step>)
    requires Run(s, es) && AlwaysExclusive(s, es)
    ensures Exclusive(Exec(s, es))
    decreases |es|
  {
    if es == [] {
    } else {
      EndIsExclusive(Next(s, es[0]), es[1..]);
    }
  }

  /** In every state of a run of proper steps at most one worker holds an unexpired lease on an import. */
  lemma AtMostOneHolder(s: State, es: seq<Step>, id: int, v: string, w: string)
    requires Init(s) && Run(s, es) && AlwaysProper(s, es)
    requires Holds(Exec(s, es), id, v) && Holds(Exec(s, es), id, w)
    ensures v == w
  {
    ProperIsExclusive(s, es);
    EndIsExclusive(s, es);
  }

  /** The holder, and nobody else, can acquire again while the lease runs. */
  lemma OnlyHolderReacquires(s: State, es: seq<Step>, id: int, holder: string, worker: string)
    requires Init(s) && Run(s, es) && AlwaysProper(s, es) && Holds(Exec(s, es), id, holder)
    ensures Denied(Row(Exec(s, es).rows, id), worker, Exec(s, es).clock) <==> worker != holder
  {
    ProperIsExclusive(s, es);
  }

  /** The discipline is needed: two workers that both read before either writes both get the lease. */
  lemma StaleReadGivesTwoHolders(s: State, id: int, v: string, w: string, ttl: int) returns (es: seq<Step>)
    requires Init(s) && v != w && ttl > 0
    ensures Run(s, es) && Holds(Exec(s, es), id, v) && Holds(Exec(s, es), id, w)
  {
    var first, second := Acquire(id, v, ttl, s.clock, None, true), Acquire(id, w, ttl, s.clock, None, true);
    es := [first, second];
    assert es[1..] == [second] && [second][1..] == [];
    var s1 := Next(s, first);
    assert Run(s1, [second]) && Exec(s1, [second]) == Next(s1, second);
    assert Exec(s, es) == Exec(s1, [second]);
  }

  /**
   A release after expiry removes the row of whoever holds the lease by then.
   Every acquire of the run decides on the current row; still, after the late
   release of its expired lease by one worker, two others hold the import.
   */
  lemma LateReleaseAdmitsThird(s: State, id: int, late: string, holder: string, third: string, ttl: int)
    returns (es: seq<Step>)
    requires Init(s) && late != holder && third != holder && third != late && ttl > 0
    ensures |es| == 5 && Run(s, es) && Run(s, es[..1]) && Holds(Exec(s, es[..1]), id, late)
    ensures es[3] == Release(id, late, true)
    ensures Holds(Exec(s, es), id, holder) && Holds(Exec(s, es), id, third)
  {
    var t := s.clock + ttl;
    var e0, e1 := Acquire(id, late, ttl, s.clock, None, true), Tick(t);
    var s0 := Next(s, e0);
    var s1 := Next(s0, e1);
    var e2 := Acquire(id, holder, ttl, t, Row(s1.rows, id), true);
    var s2 := Next(s1, e2);
    var e3 := Release(id, late, true);
    var s3 := Next(s2, e3);
    var e4 := Acquire(id, third, ttl, t, Row(s3.rows, id), true);
    es := [e0, e1, e2, e3, e4];
    assert es[1..] == [e1, e2, e3, e4] && es[..1] == [e0] && [e0][1..] == [];
    assert [e1, e2, e3, e4][1..] == [e2, e3, e4] && [e2, e3, e4][1..] == [e3, e4];
    assert [e3, e4][1..] == [e4] && [e4][1..] == [];
    assert Run(s3, [e4]) && Exec(s3, [e4]) == Next(s3, e4);
    assert Run(s2, [e3, e4]) && Exec(s2, [e3, e4]) == Exec(s3, [e4]);
    assert Run(s1, [e2, e3, e4]) && Exec(s1, [e2, e3, e4]) == Exec(s2, [e3, e4]);
    assert Run(s0, [e1, e2, e3, e4]) && Exec(s0, [e1, e2, e3, e4]) == Exec(s1, [e2, e3, e4]);
  }

  // ---------------------------------------------------------------- the table itself

  /** What the database answers during one call. */
  datatype Answers = Answers(connected: bool, selectOk: bool, upsertOk: bool)

  class LockTable {
    var rows: map<int, Lease>

    constructor ()
      ensures rows == map[]
    {
      rows := map[];
    }

    /** `start` and `now` are the two clock readings; a missing worker id is replaced by a random token. */
    method AcquireLock(id: int, workerId: string, token: string, ttl: int, start: int, now: int, a: Answers)
      returns (ok: bool)
      modifies this
      ensures var w := if workerId == "" then token else workerId;
              var taken := id in old(rows) && old(rows)[id].expires > now && old(rows)[id].worker != w;
              && (ok <==> a.connected && a.selectOk && !taken && a.upsertOk)
              && (taken <==> Denied(Row(old(rows), id), w, now))
              && rows == if ok then old(rows)[id := Lease(w, start + ttl)] else old(rows)
    {
      if !a.connected {
        return false;
      }
      var expires := start + ttl;
      var effective := workerId;
      if effective == "" {
        effective := token;
      }
      if !a.selectOk {
        return false;
      }
      var held := false;
      if id in rows {
        held := true;
      }
      if held && rows[id].expires > now && rows[id].worker != effective {
        return false;
      }
      if !a.upsertOk {
        return false;
      }
      rows := rows[id := Lease(effective, expires)];
      ok := true;
    }

    method ReleaseLock(id: int, deleteOk: bool) returns (ok: bool)
      modifies this
      ensures ok <==> deleteOk
      ensures rows == if ok then old(rows) - {id} else old(rows)
    {
      if deleteOk {
        rows := rows - {id};
      }
      ok := deleteOk;
    }
  }
}
