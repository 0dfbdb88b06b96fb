/**
 The rotation coalescer: many rotation intents per import, one dispatch per
 grace period.  The dispatcher thread releases the mutex while it works, so
 every locked region is one atomic step of the machine below, and `Queue`
 calls may fall between any two of them.

 The headline result is a refinement.  `Settled` is the abstraction function:
 what every import's orientation will be once nothing is outstanding.  The
 simple system behind it applies each intent the moment it is queued.
 */
module Rotation {
  import opened Options

  type ImportId = int

  /** One `Queue` call, in the order in which the calls got the mutex. */
  datatype Intent = Intent(id: ImportId, orientation: int, dngPath: string, clientId: string, at: int)

  /** An entry of the `pending` map; `ticket` numbers the `Queue` call that made it. */
  datatype PendingRot = PendingRot(orientation: int, dngPath: string, clientId: string, deadline: int, ticket: nat)

  /** What the outside world answered during one dispatch. */
  datatype Outcome = Outcome(lockGranted: bool, exiftoolOk: bool, updateOk: bool)

  datatype Fate = Superseded(newer: nat) | Dispatched(outcome: Outcome)

  /** Where the dispatcher thread stands between two locked regions. */
  datatype Position =
    | LoopTop
    | Checked
    | Sleeping(until: int)
    | Scanning(now: int)
    | Holding(now: int, id: ImportId, rot: PendingRot)
    | Exited

  datatype Drain = NotStarted | Draining(remaining: map<ImportId, PendingRot>) | Drained

  datatype State = State(
    now: int,
    pending: map<ImportId, PendingRot>,
    worker: Position,
    stopped: bool,
    drain: Drain,
    db: map<ImportId, int>,
    tag: map<ImportId, int>,
    history: seq<Intent>,
    fates: map<nat, Fate>,
    log: seq<nat>)

  /** The two places a dispatch writes to. */
  datatype Target = DbColumn | ExifTag

  datatype Step =
    | Tick(to: int)
    | Queue(id: ImportId, orientation: int, dngPath: string, clientId: string)
    | CheckStop
    | WaitMore
    | Sleep(until: int)
    | Wake
    | Take(id: ImportId)
    | Finish(outcome: Outcome)
    | EndScan
    | Exit
    | Stop
    | StartDrain
    | DrainOne(id: ImportId, outcome: Outcome)
    | EndDrain

  function GraceMs(configured: int): (grace: int)
    ensures grace > 0 && (configured > 0 ==> grace == configured)
    ensures configured <= 0 ==> grace == 1500
  {
    if configured > 0 then configured else 1500
  }

  function MakePending(i: Intent, grace: int, ticket: nat): PendingRot {
    PendingRot(i.orientation, i.dngPath, i.clientId, i.at + grace, ticket)
  }

  /** `Dispatch` writes the column only after exiftool succeeded; the drain in `Stop` ignores its exit code. */
  predicate Writes(t: Target, draining: bool, o: Outcome) {
    o.lockGranted &&
    match t
    case ExifTag => o.exiftoolOk
    case DbColumn => (draining || o.exiftoolOk) && o.updateOk
  }

  function Written(base: map<ImportId, int>, t: Target, draining: bool, o: Outcome, id: ImportId, orientation: int)
    : map<ImportId, int>
  {
    if Writes(t, draining, o) then base[id := orientation] else base
  }

  predicate IsSoonest(pending: map<ImportId, PendingRot>, t: int) {
    && (exists id :: id in pending && pending[id].deadline == t)
    && forall id :: id in pending ==> t <= pending[id].deadline
  }

  ghost predicate Enabled(s: State, e: Step) {
    match e
    case Tick(to) => s.now <= to
    case Queue(_, _, _, _) => true
    case CheckStop => s.worker.LoopTop? && !s.stopped
    case WaitMore => s.worker.Checked? && s.pending == map[]
    case Sleep(until) => s.worker.Checked? && IsSoonest(s.pending, until)
    case Wake => s.worker.Sleeping? && (s.stopped || s.worker.until <= s.now)
    case Take(id) => s.worker.Scanning? && id in s.pending && s.pending[id].deadline <= s.worker.now
    case Finish(_) => s.worker.Holding?
    case EndScan => s.worker.Scanning?
    case Exit => s.worker.LoopTop? && s.stopped
    case Stop => !s.stopped
    case StartDrain => s.worker.Exited? && s.drain.NotStarted?
    case DrainOne(id, _) => s.drain.Draining? && id in s.drain.remaining
    case EndDrain => s.drain.Draining? && s.drain.remaining == map[]
  }

  ghost function Next(grace: int, s: State, e: Step): State
    requires Enabled(s, e)
  {
    match e
    case Tick(to) => s.(now := to)
    case Queue(id, o, path, client) =>
      var i := Intent(id, o, path, client, s.now);
      var ticket := |s.history|;
      s.(pending := s.pending[id := MakePending(i, grace, ticket)],
         history := s.history + [i],
         fates := if id in s.pending then s.fates[s.pending[id].ticket := Superseded(ticket)] else s.fates)
    case CheckStop => s.(worker := Checked)
    case WaitMore => s.(worker := LoopTop)
    case Sleep(until) => s.(worker := Sleeping(until))
    case Wake => s.(worker := Scanning(s.now))
    case Take(id) =>
      s.(worker := Holding(s.worker.now, id, s.pending[id]), pending := s.pending - {id})
    case Finish(o) =>
      var Holding(n, id, rot) := s.worker;
      s.(worker := Scanning(n),
         db := Written(s.db, DbColumn, false, o, id, rot.orientation),
         tag := Written(s.tag, ExifTag, false, o, id, rot.orientation),
         fates := s.fates[rot.ticket := Dispatched(o)],
         log := s.log + [rot.ticket])
    case EndScan => s.(worker := LoopTop)
    case Exit => s.(worker := Exited)
    case Stop => s.(stopped := true)
    case StartDrain => s.(drain := Draining(s.pending), pending := map[])
    case DrainOne(id, o) =>
      var rot := s.drain.remaining[id];
      s.(drain := Draining(s.drain.remaining - {id}),
         db := Written(s.db, DbColumn, true, o, id, rot.orientation),
         tag := Written(s.tag, ExifTag, true, o, id, rot.orientation),
         fates := s.fates[rot.ticket := Dispatched(o)],
         log := s.log + [rot.ticket])
    case EndDrain => s.(drain := Drained)
  }

  ghost predicate Init(s: State) {
    s.pending == map[] && s.worker == LoopTop && !s.stopped && s.drain == NotStarted &&
    s.history == [] && s.fates == map[] && s.log == []
  }

  // ---------------------------------------------------------------- runs

  ghost predicate Run(grace: int, s: State, es: seq<Step>)
    decreases |es|
  {
    es == [] || (Enabled(s, es[0]) && Run(grace, Next(grace, s, es[0]), es[1..]))
  }

  ghost function Exec(grace: int, s: State, es: seq<Step>): State
    requires Run(grace, s, es)
    decreases |es|
  {
    if es == [] then s else Exec(grace, Next(grace, s, es[0]), es[1..])
  }

  // ---------------------------------------------------------------- where each intent is

  predicate InPending(s: State, t: nat) {
    t < |s.history| && s.history[t].id in s.pending && s.pending[s.history[t].id].ticket == t
  }

  predicate InHand(s: State, t: nat) {
    s.worker.Holding? && s.worker.rot.ticket == t
  }

  predicate InDrain(s: State, t: nat) {
    t < |s.history| && s.drain.Draining? && s.history[t].id in s.drain.remaining &&
    s.drain.remaining[s.history[t].id].ticket == t
  }

  function Count(b: bool): nat { if b then 1 else 0 }

  /** Exactly one of: waiting, being dispatched, left for the drain, or finished with. */
  predicate InOnePlace(s: State, t: nat) {
    Count(InPending(s, t)) + Count(InHand(s, t)) + Count(InDrain(s, t)) + Count(t in s.fates) == 1
  }

  /** `rot` is what the `Queue` call numbered `rot.ticket` stored for `id`. */
  predicate Backed(grace: int, s: State, id: ImportId, rot: PendingRot) {
    rot.ticket < |s.history| && s.history[rot.ticket].id == id &&
    rot == MakePending(s.history[rot.ticket], grace, rot.ticket)
  }

  ghost predicate LastFor(history: seq<Intent>, id: ImportId, t: nat) {
    t < |history| && history[t].id == id && forall u :: t < u < |history| ==> history[u].id != id
  }

  ghost predicate EntriesInv(grace: int, s: State) {
    && (forall id :: id in s.pending ==>
          Backed(grace, s, id, s.pending[id]) && LastFor(s.history, id, s.pending[id].ticket))
    && (s.worker.Holding? ==> Backed(grace, s, s.worker.id, s.worker.rot))
    && (s.drain.Draining? ==> forall id :: id in s.drain.remaining ==> Backed(grace, s, id, s.drain.remaining[id]))
    && (!s.drain.NotStarted? ==> s.worker.Exited?)
  }

  ghost predicate FatesInv(s: State) {
    && (forall t: nat :: t < |s.history| ==> InOnePlace(s, t))
    && (forall t :: t in s.fates ==> t < |s.history|)
    && (forall t :: t in s.fates && s.fates[t].Superseded? ==>
          t < s.fates[t].newer < |s.history| && s.history[s.fates[t].newer].id == s.history[t].id)
  }

  ghost predicate LogInv(s: State) {
    && (forall t: nat :: t in s.log <==> t in s.fates && s.fates[t].Dispatched?)
    && (forall i, j :: 0 <= i < j < |s.log| ==> s.log[i] != s.log[j])
  }

  ghost predicate BookkeepingInv(grace: int, s: State) {
    EntriesInv(grace, s) && FatesInv(s) && LogInv(s)
  }

  ghost predicate ClockInv(grace: int, s: State) {
    && (forall k :: 0 <= k < |s.history| ==> s.history[k].at <= s.now)
    && (forall j, k :: 0 <= j < k < |s.history| ==> s.history[j].at <= s.history[k].at)
    && (s.worker.Scanning? ==> s.worker.now <= s.now)
    && (s.worker.Holding? ==> s.worker.rot.deadline <= s.worker.now <= s.now)
    && (s.worker.Sleeping? ==> s.worker.until <= s.now + grace)
    && (s.worker.Sleeping? ==> forall id :: id in s.pending ==> s.worker.until <= s.pending[id].deadline)
  }

  ghost predicate Inv(grace: int, s: State) {
    BookkeepingInv(grace, s) && ClockInv(grace, s)
  }

  lemma InvInit(grace: int, s: State)
    requires Init(s)
    ensures Inv(grace, s)
  {
  }

  lemma ClockInvStep(grace: int, s: State, e: Step)
    requires grace > 0 && Inv(grace, s) && Enabled(s, e)
    ensures ClockInv(grace, Next(grace, s, e))
  {
    var s' := Next(grace, s, e);
    if e.Queue? {
      assert s'.worker == s.worker;
      assert s'.history == s.history + [Intent(e.id, e.orientation, e.dngPath, e.clientId, s.now)];
    } else if e.Sleep? {
      var id :| id in s.pending && s.pending[id].deadline == e.until;
      assert Backed(grace, s, id, s.pending[id]);
    } else {
      assert s'.history == s.history;
    }
  }

  predicate IsDispatch(e: Step) { e.Finish? || e.DrainOne? }

  /** The import a dispatch step is about, and the entry it dispatches. */
  function DispatchedId(s: State, e: Step): ImportId
    requires IsDispatch(e) && (e.Finish? ==> s.worker.Holding?)
  {
    if e.Finish? then s.worker.id else e.id
  }

  function DispatchedRot(s: State, e: Step): PendingRot
    requires IsDispatch(e) && (e.Finish? ==> s.worker.Holding?)
    requires e.DrainOne? ==> s.drain.Draining? && e.id in s.drain.remaining
  {
    if e.Finish? then s.worker.rot else s.drain.remaining[e.id]
  }

  lemma QueuePlace(grace: int, s: State, e: Step, t: nat)
    requires BookkeepingInv(grace, s) && e.Queue? && t <= |s.history|
    ensures InOnePlace(Next(grace, s, e), t)
  {
    var s' := Next(grace, s, e);
    if t < |s.history| {
      assert InOnePlace(s, t) && s'.history[t] == s.history[t];
      if e.id in s.pending {
        assert InOnePlace(s, s.pending[e.id].ticket);
      }
    } else {
      assert t !in s.fates && InPending(s', t);
    }
  }

  lemma TakePlace(grace: int, s: State, e: Step, t: nat)
    requires BookkeepingInv(grace, s) && Enabled(s, e) && e.Take? && t < |s.history|
    ensures InOnePlace(Next(grace, s, e), t)
  {
    assert InOnePlace(s, t);
    assert InOnePlace(s, s.pending[e.id].ticket);
  }

  lemma DispatchPlace(grace: int, s: State, e: Step, t: nat)
    requires BookkeepingInv(grace, s) && Enabled(s, e) && IsDispatch(e) && t < |s.history|
    ensures InOnePlace(Next(grace, s, e), t)
  {
    assert InOnePlace(s, t);
    assert InOnePlace(s, DispatchedRot(s, e).ticket);
  }

  lemma InOnePlaceStep(grace: int, s: State, e: Step, t: nat)
    requires BookkeepingInv(grace, s) && Enabled(s, e)
    requires t < |Next(grace, s, e).history|
    ensures InOnePlace(Next(grace, s, e), t)
  {
    if e.Queue? {
      QueuePlace(grace, s, e, t);
    } else if e.Take? {
      TakePlace(grace, s, e, t);
    } else if IsDispatch(e) {
      DispatchPlace(grace, s, e, t);
    } else {
      assert InOnePlace(s, t);
    }
  }

  lemma EntriesInvStep(grace: int, s: State, e: Step)
    requires EntriesInv(grace, s) && Enabled(s, e)
    ensures EntriesInv(grace, Next(grace, s, e))
  {
  }

  lemma FatesInvStep(grace: int, s: State, e: Step)
    requires BookkeepingInv(grace, s) && Enabled(s, e)
    ensures FatesInv(Next(grace, s, e))
  {
    var s' := Next(grace, s, e);
    forall t: nat | t < |s'.history| ensures InOnePlace(s', t) {
      InOnePlaceStep(grace, s, e, t);
    }
  }

  lemma DispatchLogged(grace: int, s: State, e: Step)
    requires BookkeepingInv(grace, s) && Enabled(s, e) && IsDispatch(e)
    ensures LogInv(Next(grace, s, e))
  {
    var s' := Next(grace, s, e);
    var ticket := DispatchedRot(s, e).ticket;
    assert InOnePlace(s, ticket);
    assert s'.log == s.log + [ticket] && s'.fates == s.fates[ticket := Dispatched(e.outcome)];
  }

  lemma LogInvStep(grace: int, s: State, e: Step)
    requires BookkeepingInv(grace, s) && Enabled(s, e)
    ensures LogInv(Next(grace, s, e))
  {
    if IsDispatch(e) {
      DispatchLogged(grace, s, e);
    } else if e.Queue? {
      if e.id in s.pending {
        assert InOnePlace(s, s.pending[e.id].ticket);
      }
    } else {
      assert Next(grace, s, e).log == s.log && Next(grace, s, e).fates == s.fates;
    }
  }

  lemma InvStep(grace: int, s: State, e: Step)
    requires grace > 0 && Inv(grace, s) && Enabled(s, e)
    ensures Inv(grace, Next(grace, s, e))
  {
    ClockInvStep(grace, s, e);
    EntriesInvStep(grace, s, e);
    FatesInvStep(grace, s, e);
    LogInvStep(grace, s, e);
  }

  // ---------------------------------------------------------------- refinement

  function Orientations(m: map<ImportId, PendingRot>): map<ImportId, int> {
    map id | id in m :: m[id].orientation
  }

  function InFlight(s: State): map<ImportId, int> {
    if s.worker.Holding? then map[s.worker.id := s.worker.rot.orientation]
    else if s.drain.Draining? then Orientations(s.drain.remaining)
    else map[]
  }

  function Stored(s: State, t: Target): map<ImportId, int> {
    if t.DbColumn? then s.db else s.tag
  }

  /** What `t` will hold once everything taken or waiting has been written. */
  function Settled(s: State, t: Target): map<ImportId, int> {
    Stored(s, t) + InFlight(s) + Orientations(s.pending)
  }

  /** The specification: a `Queue` call takes effect at once, nothing else has any effect. */
  function Immediate(base: map<ImportId, int>, e: Step): map<ImportId, int> {
    if e.Queue? then base[e.id := e.orientation] else base
  }

  /** This dispatch fails to write, no newer intent waits for the import, and `t` holds something else. */
  ghost predicate Loses(s: State, e: Step, t: Target)
    requires Enabled(s, e)
  {
    match e
    case Finish(o) => LosesIntent(s, t, false, o, s.worker.id, s.worker.rot.orientation)
    case DrainOne(id, o) => LosesIntent(s, t, true, o, id, s.drain.remaining[id].orientation)
    case _ => false
  }

  predicate LosesIntent(s: State, t: Target, draining: bool, o: Outcome, id: ImportId, orientation: int) {
    && !Writes(t, draining, o)
    && id !in s.pending
    && !(id in Stored(s, t) && Stored(s, t)[id] == orientation)
  }

  lemma WriteKeepsSettled(base: map<ImportId, int>, over: map<ImportId, int>, id: ImportId, o: int,
                          rest: map<ImportId, int>, wrote: bool)
    requires id in over && over[id] == o && rest == over - {id}
    ensures (if wrote then base[id := o] else base) + rest == base + over <==> wrote || (id in base && base[id] == o)
  {
    var out := if wrote then base[id := o] else base;
    assert forall k :: k != id ==> (k in out + rest <==> k in base + over);
    assert (base + over)[id] == o;
    if wrote || (id in base && base[id] == o) {
      assert out + rest == base + over;
    }
  }

  lemma OverlayHides(a: map<ImportId, int>, b: map<ImportId, int>, over: map<ImportId, int>, id: ImportId)
    requires forall k :: k != id ==> (k in a <==> k in b) && (k in a ==> a[k] == b[k])
    ensures a + over == b + over <==> id in over || a == b
  {
    var x, y := a + over, b + over;
    if id in over {
      assert forall k :: k in x <==> k in y;
      assert forall k :: k in x ==> x[k] == y[k];
      assert x == y;
    } else if x == y {
      assert forall k :: k in over ==> k != id;
      assert id in a <==> id in x;
      assert id in b <==> id in y;
      assert forall k :: k in a <==> k in b;
      assert forall k :: k in a ==> a[k] == b[k];
    }
  }

  /** The two dispatch steps: what is settled stays settled exactly when nothing is lost. */
  lemma DispatchRefines(grace: int, s: State, e: Step, t: Target)
    requires Inv(grace, s) && Enabled(s, e) && IsDispatch(e)
    ensures Settled(Next(grace, s, e), t) == Settled(s, t) <==> !Loses(s, e, t)
  {
    var s' := Next(grace, s, e);
    var id, rot := DispatchedId(s, e), DispatchedRot(s, e);
    assert InFlight(s') == InFlight(s) - {id};
    WriteKeepsSettled(Stored(s, t), InFlight(s), id, rot.orientation, InFlight(s'), Writes(t, e.DrainOne?, e.outcome));
    OverlayHides(Stored(s', t) + InFlight(s'), Stored(s, t) + InFlight(s), Orientations(s.pending), id);
  }

  lemma OverlayPush(a: map<ImportId, int>, b: map<ImportId, int>, id: ImportId, o: int)
    ensures a + b[id := o] == (a + b)[id := o]
  {
  }

  lemma QueueRefines(grace: int, s: State, e: Step, t: Target)
    requires Enabled(s, e) && e.Queue?
    ensures Settled(Next(grace, s, e), t) == Settled(s, t)[e.id := e.orientation]
  {
    var s' := Next(grace, s, e);
    assert Stored(s', t) == Stored(s, t) && InFlight(s') == InFlight(s);
    assert Orientations(s'.pending) == Orientations(s.pending)[e.id := e.orientation];
    OverlayPush(Stored(s, t) + InFlight(s), Orientations(s.pending), e.id, e.orientation);
  }

  lemma OverlayAssociates(a: map<ImportId, int>, b: map<ImportId, int>, c: map<ImportId, int>)
    ensures (a + b) + c == a + (b + c)
  {
  }

  lemma TakeMovesEntry(m: map<ImportId, PendingRot>, id: ImportId)
    requires id in m
    ensures map[id := m[id].orientation] + Orientations(m - {id}) == Orientations(m)
  {
  }

  /** Entries wander from waiting to being worked on, and nothing else happens. */
  lemma HandOver(s: State, s': State, t: Target)
    requires Stored(s', t) == Stored(s, t)
    requires InFlight(s') + Orientations(s'.pending) == InFlight(s) + Orientations(s.pending)
    ensures Settled(s', t) == Settled(s, t)
  {
    OverlayAssociates(Stored(s, t), InFlight(s), Orientations(s.pending));
    OverlayAssociates(Stored(s, t), InFlight(s'), Orientations(s'.pending));
  }

  lemma OverlayUnits(a: map<ImportId, int>)
    ensures map[] + a == a && a + map[] == a
  {
  }

  lemma TakeRefines(grace: int, s: State, e: Step, t: Target)
    requires Inv(grace, s) && Enabled(s, e) && e.Take?
    ensures Settled(Next(grace, s, e), t) == Settled(s, t)
  {
    TakeMovesEntry(s.pending, e.id);
    assert InFlight(s) == map[];
    OverlayUnits(Orientations(s.pending));
    HandOver(s, Next(grace, s, e), t);
  }

  lemma DrainRefines(grace: int, s: State, e: Step, t: Target)
    requires Inv(grace, s) && Enabled(s, e) && (e.StartDrain? || e.EndDrain?)
    ensures Settled(Next(grace, s, e), t) == Settled(s, t)
  {
    var s' := Next(grace, s, e);
    assert InFlight(s) == map[];
    OverlayUnits(Orientations(s.pending));
    if e.StartDrain? {
      assert Orientations(s'.pending) == map[];
    }
    HandOver(s, s', t);
  }

  /** One step of the coalescer is one step of immediate application, exactly when it loses nothing. */
  lemma StepRefines(grace: int, s: State, e: Step, t: Target)
    requires Inv(grace, s) && Enabled(s, e)
    ensures Settled(Next(grace, s, e), t) == Immediate(Settled(s, t), e) <==> !Loses(s, e, t)
  {
    if IsDispatch(e) {
      DispatchRefines(grace, s, e, t);
    } else if e.Queue? {
      QueueRefines(grace, s, e, t);
    } else if e.Take? {
      TakeRefines(grace, s, e, t);
    } else if e.StartDrain? || e.EndDrain? {
      DrainRefines(grace, s, e, t);
    } else {
      assert Next(grace, s, e).pending == s.pending;
      assert InFlight(Next(grace, s, e)) == InFlight(s);
    }
  }

  // ---------------------------------------------------------------- whole runs

  ghost predicate LossFree(grace: int, s: State, es: seq<Step>, t: Target)
    requires Run(grace, s, es)
    decreases |es|
  {
    es == [] || (!Loses(s, es[0], t) && LossFree(grace, Next(grace, s, es[0]), es[1..], t))
  }

  /** The simple system: every `Queue` call applied at once, everything else ignored. */
  function ImmediateAll(base: map<ImportId, int>, es: seq<Step>): map<ImportId, int>
    decreases |es|
  {
    if es == [] then base else ImmediateAll(Immediate(base, es[0]), es[1..])
  }

  lemma {:induction false} RunInv(grace: int, s: State, es: seq<Step>)
    requires grace > 0 && Inv(grace, s) && Run(grace, s, es)
    ensures Inv(grace, Exec(grace, s, es))
    decreases |es|
  {
    if es == [] {
    } else {
      InvStep(grace, s, es[0]);
      RunInv(grace, Next(grace, s, es[0]), es[1..]);
    }
  }

  lemma {:induction false} RunRefines(grace: int, s: State, es: seq<Step>, t: Target)
    requires grace > 0 && Inv(grace, s) && Run(grace, s, es) && LossFree(grace, s, es, t)
    ensures Settled(Exec(grace, s, es), t) == ImmediateAll(Settled(s, t), es)
    decreases |es|
  {
    if es == [] {
    } else {
      InvStep(grace, s, es[0]);
      StepRefines(grace, s, es[0], t);
      RunRefines(grace, Next(grace, s, es[0]), es[1..], t);
    }
  }

  lemma OverlayIsNeutral(a: map<ImportId, int>, over: map<ImportId, int>)
    ensures a + over == a <==> forall k :: k in over ==> k in a && a[k] == over[k]
  {
    if forall k :: k in over ==> k in a && a[k] == over[k] {
      assert a + over == a;
    } else {
      var k :| k in over && !(k in a && a[k] == over[k]);
      assert (a + over)[k] == over[k];
    }
  }

  /**
   Whatever the interleaving of `Queue` calls, scans, dispatches and the final
   drain: if no dispatch loses its intent, what is stored afterwards plus what
   was queued too late is what immediate application would have stored.
   */
  lemma CoalescingRefinesImmediate(grace: int, s: State, es: seq<Step>, t: Target)
    requires grace > 0 && Init(s) && Run(grace, s, es) && LossFree(grace, s, es, t)
    requires Exec(grace, s, es).drain.Drained?
    ensures var end := Exec(grace, s, es);
            var want := ImmediateAll(Stored(s, t), es);
            && Stored(end, t) + Orientations(end.pending) == want
            && (Stored(end, t) == want <==>
                forall id :: id in end.pending ==>
                  id in Stored(end, t) && Stored(end, t)[id] == end.pending[id].orientation)
  {
    InvInit(grace, s);
    RunInv(grace, s, es);
    RunRefines(grace, s, es, t);
    var end := Exec(grace, s, es);
    assert Settled(s, t) == Stored(s, t);
    assert InFlight(end) == map[];
    assert Stored(end, t) + map[] == Stored(end, t);
    OverlayIsNeutral(Stored(end, t), Orientations(end.pending));
  }

  predicate QueuesFor(e: Step, id: ImportId) { e.Queue? && e.id == id }

  /** The tail of `es` holds no intent for `id`, so neither does what immediate application does to it. */
  lemma {:induction false} ImmediateUntouched(base: map<ImportId, int>, es: seq<Step>, id: ImportId)
    requires forall k :: 0 <= k < |es| ==> !QueuesFor(es[k], id)
    ensures id in ImmediateAll(base, es) <==> id in base
    ensures id in base ==> ImmediateAll(base, es)[id] == base[id]
    decreases |es|
  {
    if es == [] {
    } else {
      assert !QueuesFor(es[0], id);
      ImmediateUntouched(Immediate(base, es[0]), es[1..], id);
    }
  }

  /** Immediate application leaves the last queued intent. */
  lemma {:induction false} ImmediateIsLastIntent(base: map<ImportId, int>, es: seq<Step>, id: ImportId, k: nat)
    requires k < |es| && QueuesFor(es[k], id)
    requires forall j :: k < j < |es| ==> !QueuesFor(es[j], id)
    ensures id in ImmediateAll(base, es) && ImmediateAll(base, es)[id] == es[k].orientation
    decreases |es|
  {
    var base' := Immediate(base, es[0]);
    if k == 0 {
      ImmediateUntouched(base', es[1..], id);
    } else {
      ImmediateIsLastIntent(base', es[1..], id, k - 1);
    }
  }

  lemma FateStays(grace: int, s: State, e: Step, t: nat)
    requires BookkeepingInv(grace, s) && Enabled(s, e) && t in s.fates
    ensures t in Next(grace, s, e).fates && Next(grace, s, e).fates[t] == s.fates[t]
  {
    assert InOnePlace(s, t);
    if IsDispatch(e) {
      assert InOnePlace(s, DispatchedRot(s, e).ticket);
    }
  }

  /** A fate, once decided, never changes: nothing is dispatched twice or superseded after its dispatch. */
  lemma {:induction false} FatesAreFinal(grace: int, s: State, es: seq<Step>, t: nat)
    requires grace > 0 && Inv(grace, s) && Run(grace, s, es) && t in s.fates
    ensures t in Exec(grace, s, es).fates && Exec(grace, s, es).fates[t] == s.fates[t]
    decreases |es|
  {
    if es == [] {
    } else {
      FateStays(grace, s, es[0], t);
      InvStep(grace, s, es[0]);
      FatesAreFinal(grace, Next(grace, s, es[0]), es[1..], t);
    }
  }

  /** After the drain, with nothing queued late, every intent was superseded or dispatched, and no dispatch repeats. */
  lemma EachIntentHandledOnce(grace: int, s: State, es: seq<Step>)
    requires grace > 0 && Init(s) && Run(grace, s, es)
    requires Exec(grace, s, es).drain.Drained? && Exec(grace, s, es).pending == map[]
    ensures var end := Exec(grace, s, es);
            && (forall t: nat :: t < |end.history| <==> t in end.fates)
            && (forall t: nat :: t in end.log <==> t in end.fates && end.fates[t].Dispatched?)
            && (forall i, j :: 0 <= i < j < |end.log| ==> end.log[i] != end.log[j])
            && (forall t: nat :: t in end.fates && end.fates[t].Superseded? ==>
                  exists u :: t < u < |end.history| && end.history[u].id == end.history[t].id)
  {
    InvInit(grace, s);
    RunInv(grace, s, es);
    var end := Exec(grace, s, es);
    forall t: nat | t < |end.history| ensures t in end.fates {
      assert InOnePlace(end, t);
    }
  }

  // ---------------------------------------------------------------- what a dispatch does

  /**
   The ordinary dispatch, by its outcome: the tag is written if the lock was
   granted and exiftool succeeded, the column if the update succeeded as well.
   */
  lemma FinishWrites(grace: int, s: State, o: Outcome)
    requires Enabled(s, Finish(o))
    ensures var s' := Next(grace, s, Finish(o));
            var id, orientation := s.worker.id, s.worker.rot.orientation;
            && s'.tag == (if o.lockGranted && o.exiftoolOk then s.tag[id := orientation] else s.tag)
            && s'.db == (if o.lockGranted && o.exiftoolOk && o.updateOk then s.db[id := orientation] else s.db)
            && s'.pending == s.pending && s'.worker == Scanning(s.worker.now)
  {
  }

  /** The drain's dispatch updates the column whatever exiftool says. */
  lemma DrainWrites(grace: int, s: State, id: ImportId, o: Outcome)
    requires Enabled(s, DrainOne(id, o))
    ensures var s' := Next(grace, s, DrainOne(id, o));
            var orientation := s.drain.remaining[id].orientation;
            && s'.tag == (if o.lockGranted && o.exiftoolOk then s.tag[id := orientation] else s.tag)
            && s'.db == (if o.lockGranted && o.updateOk then s.db[id := orientation] else s.db)
            && s'.pending == s.pending && s'.drain == Draining(s.drain.remaining - {id})
  {
  }

  /** Every lock is granted, every exiftool run and every update succeeds. */
  ghost predicate AllSucceed(es: seq<Step>) {
    forall k :: 0 <= k < |es| && (es[k].Finish? || es[k].DrainOne?) ==> es[k].outcome == Outcome(true, true, true)
  }

  lemma {:induction false} SuccessIsLossFree(grace: int, s: State, es: seq<Step>, t: Target)
    requires Run(grace, s, es) && AllSucceed(es)
    ensures LossFree(grace, s, es, t)
    decreases |es|
  {
    if es == [] {
    } else {
      assert es[0].Finish? || es[0].DrainOne? ==> es[0].outcome == Outcome(true, true, true);
      SuccessIsLossFree(grace, Next(grace, s, es[0]), es[1..], t);
    }
  }

  /**
   If all dispatches succeed and nothing is queued too late, column and tag end
   up as if every intent had been applied at once.
   */
  lemma SuccessRefinesImmediate(grace: int, s: State, es: seq<Step>, t: Target)
    requires grace > 0 && Init(s) && Run(grace, s, es) && AllSucceed(es)
    requires Exec(grace, s, es).drain.Drained? && Exec(grace, s, es).pending == map[]
    ensures Stored(Exec(grace, s, es), t) == ImmediateAll(Stored(s, t), es)
  {
    SuccessIsLossFree(grace, s, es, t);
    CoalescingRefinesImmediate(grace, s, es, t);
    assert Orientations(Exec(grace, s, es).pending) == map[];
  }

  /** So the last `Queue` call for an import decides about its column and its tag. */
  lemma LastQueueWins(grace: int, s: State, es: seq<Step>, id: ImportId, k: nat)
    requires grace > 0 && Init(s) && Run(grace, s, es) && AllSucceed(es)
    requires Exec(grace, s, es).drain.Drained? && Exec(grace, s, es).pending == map[]
    requires k < |es| && es[k].Queue? && es[k].id == id
    requires forall j :: k < j < |es| ==> !(es[j].Queue? && es[j].id == id)
    ensures var end := Exec(grace, s, es);
            && id in end.db && end.db[id] == es[k].orientation
            && id in end.tag && end.tag[id] == es[k].orientation
  {
    assert forall j :: k < j < |es| ==> !QueuesFor(es[j], id);
    SuccessRefinesImmediate(grace, s, es, DbColumn);
    SuccessRefinesImmediate(grace, s, es, ExifTag);
    ImmediateIsLastIntent(s.db, es, id, k);
    ImmediateIsLastIntent(s.tag, es, id, k);
  }

  // ---------------------------------------------------------------- the records are the steps

  /** What a step adds to the history of `Queue` calls. */
  function QueuedBy(s: State, e: Step): seq<Intent> {
    if e.Queue? then [Intent(e.id, e.orientation, e.dngPath, e.clientId, s.now)] else []
  }

  ghost function QueuedIn(grace: int, s: State, es: seq<Step>): seq<Intent>
    requires Run(grace, s, es)
    decreases |es|
  {
    if es == [] then [] else QueuedBy(s, es[0]) + QueuedIn(grace, Next(grace, s, es[0]), es[1..])
  }

  /** The ticket a step dispatches, if it dispatches one. */
  function DispatchedBy(s: State, e: Step): seq<nat> {
    if e.Finish? && s.worker.Holding? then [s.worker.rot.ticket]
    else if e.DrainOne? && s.drain.Draining? && e.id in s.drain.remaining then [s.drain.remaining[e.id].ticket]
    else []
  }

  ghost function DispatchedIn(grace: int, s: State, es: seq<Step>): seq<nat>
    requires Run(grace, s, es)
    decreases |es|
  {
    if es == [] then [] else DispatchedBy(s, es[0]) + DispatchedIn(grace, Next(grace, s, es[0]), es[1..])
  }

  lemma Associates<T>(a: seq<T>, b: seq<T>, c: seq<T>)
    ensures a + b + c == a + (b + c)
  {
  }

  lemma RecordsOfStep(grace: int, s: State, e: Step)
    requires Enabled(s, e)
    ensures Next(grace, s, e).history == s.history + QueuedBy(s, e)
    ensures Next(grace, s, e).log == s.log + DispatchedBy(s, e)
  {
    if e.Queue? {
    } else if IsDispatch(e) {
    } else {
      assert Next(grace, s, e).history == s.history && Next(grace, s, e).log == s.log;
    }
  }

  /** History and log hold exactly what the `Queue` calls and the dispatches of the run have put there. */
  lemma {:induction false} RecordsAreSteps(grace: int, s: State, es: seq<Step>)
    requires Run(grace, s, es)
    ensures Exec(grace, s, es).history == s.history + QueuedIn(grace, s, es)
    ensures Exec(grace, s, es).log == s.log + DispatchedIn(grace, s, es)
    decreases |es|
  {
    if es == [] {
    } else {
      var s' := Next(grace, s, es[0]);
      RecordsOfStep(grace, s, es[0]);
      RecordsAreSteps(grace, s', es[1..]);
      Associates(s.history, QueuedBy(s, es[0]), QueuedIn(grace, s', es[1..]));
      Associates(s.log, DispatchedBy(s, es[0]), DispatchedIn(grace, s', es[1..]));
    }
  }

  /** What is dispatched is what its `Queue` call asked for: import, orientation, path and client. */
  lemma DispatchIsItsIntent(grace: int, s: State, es: seq<Step>, e: Step)
    requires grace > 0 && Init(s) && Run(grace, s, es) && Enabled(Exec(grace, s, es), e) && IsDispatch(e)
    ensures var end := Exec(grace, s, es);
            var rot := DispatchedRot(end, e);
            && rot.ticket < |end.history|
            && end.history[rot.ticket].id == DispatchedId(end, e)
            && end.history[rot.ticket].orientation == rot.orientation
            && end.history[rot.ticket].dngPath == rot.dngPath
            && end.history[rot.ticket].clientId == rot.clientId
  {
    InvInit(grace, s);
    RunInv(grace, s, es);
    var end := Exec(grace, s, es);
    assert Backed(grace, end, DispatchedId(end, e), DispatchedRot(end, e));
  }

  // ---------------------------------------------------------------- one import at a time

  function Value(s: State, t: Target, id: ImportId): Option<int> {
    if id in Stored(s, t) then Some(Stored(s, t)[id]) else None
  }

  predicate TakenUp(s: State, t: nat) {
    InHand(s, t) || InDrain(s, t) || (t in s.fates && s.fates[t].Dispatched?)
  }

  /** Once an intent is taken up, the older ones of its import are done with. */
  ghost predicate OrderInv(s: State) {
    forall u: nat, t: nat :: u < t < |s.history| && s.history[u].id == s.history[t].id && TakenUp(s, t) ==> u in s.fates
  }

  lemma OrderStepFor(grace: int, s: State, e: Step, u: nat, t: nat)
    requires BookkeepingInv(grace, s) && OrderInv(s) && Enabled(s, e)
    requires u < t < |Next(grace, s, e).history|
    requires Next(grace, s, e).history[u].id == Next(grace, s, e).history[t].id && TakenUp(Next(grace, s, e), t)
    ensures u in Next(grace, s, e).fates
  {
    var s' := Next(grace, s, e);
    if e.Queue? {
      if t < |s.history| {
        assert TakenUp(s, t) && s'.history[u] == s.history[u] && s'.history[t] == s.history[t];
      }
    } else if IsDispatch(e) {
      assert TakenUp(s, t);
    } else if TakenUp(s, t) {
    } else {
      assert InOnePlace(s, u) && InPending(s, t);
      assert !InPending(s, u) && !InHand(s, u) && !InDrain(s, u);
    }
  }

  lemma OrderStep(grace: int, s: State, e: Step)
    requires BookkeepingInv(grace, s) && OrderInv(s) && Enabled(s, e)
    ensures OrderInv(Next(grace, s, e))
  {
    var s' := Next(grace, s, e);
    forall u: nat, t: nat | u < t < |s'.history| && s'.history[u].id == s'.history[t].id && TakenUp(s', t)
      ensures u in s'.fates
    {
      OrderStepFor(grace, s, e, u, t);
    }
  }

  /** A step that does not dispatch for this import leaves its value alone. */
  lemma ValueStays(grace: int, s: State, e: Step, id: ImportId, t: Target)
    requires Enabled(s, e) && (IsDispatch(e) ==> DispatchedId(s, e) != id)
    ensures Value(Next(grace, s, e), t, id) == Value(s, t, id)
  {
    if !IsDispatch(e) {
      assert Next(grace, s, e).db == s.db && Next(grace, s, e).tag == s.tag;
    }
  }

  lemma {:induction false} HistoryGrows(grace: int, s: State, es: seq<Step>)
    requires Run(grace, s, es)
    ensures s.history <= Exec(grace, s, es).history
    decreases |es|
  {
    if es == [] {
    } else {
      assert s.history <= Next(grace, s, es[0]).history;
      HistoryGrows(grace, Next(grace, s, es[0]), es[1..]);
    }
  }

  lemma {:induction false} UntouchedFrom(grace: int, s: State, es: seq<Step>, id: ImportId, t: Target)
    requires grace > 0 && Inv(grace, s) && Run(grace, s, es)
    requires forall k :: 0 <= k < |Exec(grace, s, es).history| ==> Exec(grace, s, es).history[k].id != id
    ensures Value(Exec(grace, s, es), t, id) == Value(s, t, id)
    decreases |es|
  {
    if es == [] {
    } else {
      HistoryGrows(grace, s, es);
      if IsDispatch(es[0]) {
        assert Backed(grace, s, DispatchedId(s, es[0]), DispatchedRot(s, es[0]));
      }
      ValueStays(grace, s, es[0], id, t);
      InvStep(grace, s, es[0]);
      UntouchedFrom(grace, Next(grace, s, es[0]), es[1..], id, t);
    }
  }

  /** Whatever fails elsewhere, an import without intents keeps what it had. */
  lemma UntouchedImport(grace: int, s: State, es: seq<Step>, id: ImportId, t: Target)
    requires grace > 0 && Init(s) && Run(grace, s, es)
    requires forall k :: 0 <= k < |Exec(grace, s, es).history| ==> Exec(grace, s, es).history[k].id != id
    ensures Value(Exec(grace, s, es), t, id) == Value(s, t, id)
  {
    InvInit(grace, s);
    UntouchedFrom(grace, s, es, id, t);
  }

  /** Once the last intent of an import is dispatched, no later dispatch is about that import. */
  lemma LastIsLast(grace: int, s: State, e: Step, es: seq<Step>, id: ImportId, ticket: nat)
    requires grace > 0 && Inv(grace, s) && OrderInv(s) && Enabled(s, e) && IsDispatch(e)
    requires Run(grace, Next(grace, s, e), es)
    requires ticket in s.fates && s.fates[ticket].Dispatched?
    requires LastFor(Exec(grace, Next(grace, s, e), es).history, id, ticket)
    ensures DispatchedId(s, e) != id
  {
    HistoryGrows(grace, Next(grace, s, e), es);
    var u := DispatchedRot(s, e).ticket;
    assert Backed(grace, s, DispatchedId(s, e), DispatchedRot(s, e));
    assert InOnePlace(s, u) && u !in s.fates && s.history[u] == Exec(grace, Next(grace, s, e), es).history[u];
    assert ticket < |s.history| && s.history[ticket] == Exec(grace, Next(grace, s, e), es).history[ticket];
    assert TakenUp(s, ticket);
  }

  lemma {:induction false} NoMoreWrites(grace: int, s: State, es: seq<Step>, id: ImportId, ticket: nat, t: Target)
    requires grace > 0 && Inv(grace, s) && OrderInv(s) && Run(grace, s, es)
    requires ticket in s.fates && s.fates[ticket].Dispatched?
    requires LastFor(Exec(grace, s, es).history, id, ticket)
    ensures Value(Exec(grace, s, es), t, id) == Value(s, t, id)
    decreases |es|
  {
    if es == [] {
    } else {
      if IsDispatch(es[0]) {
        LastIsLast(grace, s, es[0], es[1..], id, ticket);
      }
      ValueStays(grace, s, es[0], id, t);
      FateStays(grace, s, es[0], ticket);
      InvStep(grace, s, es[0]);
      OrderStep(grace, s, es[0]);
      NoMoreWrites(grace, Next(grace, s, es[0]), es[1..], id, ticket, t);
    }
  }

  /** Step `k` of the run dispatches the intent numbered `ticket`. */
  ghost predicate DispatchesAt(grace: int, s: State, es: seq<Step>, k: nat, ticket: nat) {
    && k < |es| && Run(grace, s, es[..k]) && Enabled(Exec(grace, s, es[..k]), es[k]) && IsDispatch(es[k])
    && DispatchedRot(Exec(grace, s, es[..k]), es[k]).ticket == ticket
  }

  lemma DispatchesLater(grace: int, s: State, es: seq<Step>, k: nat, ticket: nat)
    requires es != [] && Enabled(s, es[0]) && DispatchesAt(grace, Next(grace, s, es[0]), es[1..], k, ticket)
    ensures DispatchesAt(grace, s, es, k + 1, ticket)
    ensures Exec(grace, s, es[..k + 1]) == Exec(grace, Next(grace, s, es[0]), es[1..][..k])
  {
    assert es[..k + 1][1..] == es[1..][..k] && es[..k + 1][0] == es[0];
  }

  lemma FirstDispatch(grace: int, s: State, e: Step, ticket: nat)
    requires Inv(grace, s) && Enabled(s, e) && ticket !in s.fates
    requires ticket in Next(grace, s, e).fates && Next(grace, s, e).fates[ticket].Dispatched?
    ensures IsDispatch(e) && DispatchedRot(s, e).ticket == ticket
  {
  }

  /** The value left by the dispatch of the last intent is the final one. */
  lemma {:induction false} LastIntentFrom(grace: int, s: State, es: seq<Step>, id: ImportId, ticket: nat, t: Target)
    returns (k: nat)
    requires grace > 0 && Inv(grace, s) && OrderInv(s) && Run(grace, s, es)
    requires LastFor(Exec(grace, s, es).history, id, ticket) && ticket !in s.fates
    requires ticket in Exec(grace, s, es).fates && Exec(grace, s, es).fates[ticket].Dispatched?
    ensures DispatchesAt(grace, s, es, k, ticket) && Inv(grace, Exec(grace, s, es[..k]))
    ensures Value(Exec(grace, s, es), t, id) == Value(Next(grace, Exec(grace, s, es[..k]), es[k]), t, id)
    ensures Exec(grace, s, es[..k]).history <= Exec(grace, s, es).history
    decreases |es|
  {
    var s' := Next(grace, s, es[0]);
    InvStep(grace, s, es[0]);
    OrderStep(grace, s, es[0]);
    if ticket in s'.fates {
      k := 0;
      FatesAreFinal(grace, s', es[1..], ticket);
      FirstDispatch(grace, s, es[0], ticket);
      NoMoreWrites(grace, s', es[1..], id, ticket, t);
      HistoryGrows(grace, s, es);
      assert es[..0] == [];
    } else {
      k := LastIntentFrom(grace, s', es[1..], id, ticket, t);
      DispatchesLater(grace, s, es, k, ticket);
      k := k + 1;
    }
  }

  lemma LastIntentIsDispatched(grace: int, s: State, id: ImportId, ticket: nat)
    requires BookkeepingInv(grace, s) && s.drain.Drained? && id !in s.pending && LastFor(s.history, id, ticket)
    ensures ticket in s.fates && s.fates[ticket].Dispatched?
  {
    assert InOnePlace(s, ticket);
  }

  /**
   Import by import, whatever happens to the others: after the drain the last
   intent was dispatched by some step, and the final value is the one it asked
   for exactly when that dispatch wrote it or it was already there.
   */
  lemma LastIntentDecides(grace: int, s: State, es: seq<Step>, id: ImportId, ticket: nat, t: Target) returns (k: nat)
    requires grace > 0 && Init(s) && Run(grace, s, es)
    requires Exec(grace, s, es).drain.Drained? && id !in Exec(grace, s, es).pending
    requires LastFor(Exec(grace, s, es).history, id, ticket)
    ensures DispatchesAt(grace, s, es, k, ticket)
    ensures var want := Some(Exec(grace, s, es).history[ticket].orientation);
            Value(Exec(grace, s, es), t, id) == want <==>
              Writes(t, es[k].DrainOne?, es[k].outcome) || Value(Exec(grace, s, es[..k]), t, id) == want
  {
    InvInit(grace, s);
    RunInv(grace, s, es);
    LastIntentIsDispatched(grace, Exec(grace, s, es), id, ticket);
    k := LastIntentFrom(grace, s, es, id, ticket, t);
    var at := Exec(grace, s, es[..k]);
    assert Backed(grace, at, DispatchedId(at, es[k]), DispatchedRot(at, es[k]));
  }

  // ---------------------------------------------------------------- timing

  /**
   The scan takes an intent only a full grace period after every `Queue` call
   for that import, although it compares deadlines with the `now` it read
   before it last released the mutex.
   */
  lemma NeverEarly(grace: int, s: State, es: seq<Step>, id: ImportId, k: nat)
    requires grace > 0 && Init(s) && Run(grace, s, es)
    requires Enabled(Exec(grace, s, es), Take(id))
    requires k < |Exec(grace, s, es).history| && Exec(grace, s, es).history[k].id == id
    ensures Exec(grace, s, es).history[k].at + grace <= Exec(grace, s, es).now
  {
    InvInit(grace, s);
    RunInv(grace, s, es);
    var end := Exec(grace, s, es);
    assert Backed(grace, end, id, end.pending[id]);
    assert LastFor(end.history, id, end.pending[id].ticket);
  }

  /** Conversely: what waits is taken as soon as the grace period after the last `Queue` call is over. */
  lemma DueExactly(grace: int, s: State, es: seq<Step>, id: ImportId, k: nat)
    requires grace > 0 && Init(s) && Run(grace, s, es) && Exec(grace, s, es).worker.Scanning?
    requires id in Exec(grace, s, es).pending && LastFor(Exec(grace, s, es).history, id, k)
    ensures Enabled(Exec(grace, s, es), Take(id)) <==>
              Exec(grace, s, es).history[k].at + grace <= Exec(grace, s, es).worker.now
  {
    InvInit(grace, s);
    RunInv(grace, s, es);
    var end := Exec(grace, s, es);
    assert Backed(grace, end, id, end.pending[id]);
    assert LastFor(end.history, id, end.pending[id].ticket);
  }

  /** The dispatcher never sleeps past a deadline, not even one queued while it sleeps. */
  lemma NeverOversleeps(grace: int, s: State, es: seq<Step>, id: ImportId)
    requires grace > 0 && Init(s) && Run(grace, s, es)
    requires Exec(grace, s, es).worker.Sleeping? && id in Exec(grace, s, es).pending
    ensures Exec(grace, s, es).worker.until <= Exec(grace, s, es).pending[id].deadline
  {
    InvInit(grace, s);
    RunInv(grace, s, es);
  }

  // ---------------------------------------------------------------- where the hypotheses are needed

  lemma DrainedStep(grace: int, s: State, e: Step)
    requires Inv(grace, s) && s.drain.Drained? && Enabled(s, e)
    ensures Next(grace, s, e).drain.Drained? && s.pending.Keys <= Next(grace, s, e).pending.Keys
    ensures Next(grace, s, e).db == s.db && Next(grace, s, e).tag == s.tag
  {
    assert s.worker.Exited? && !IsDispatch(e);
  }

  /** Once the drain is over nothing is written any more, whatever is queued. */
  lemma {:induction false} LateQueuesAreLost(grace: int, s: State, es: seq<Step>, t: Target)
    requires grace > 0 && Inv(grace, s) && s.drain.Drained? && Run(grace, s, es)
    ensures Stored(Exec(grace, s, es), t) == Stored(s, t)
    ensures s.pending.Keys <= Exec(grace, s, es).pending.Keys
    decreases |es|
  {
    if es == [] {
    } else {
      DrainedStep(grace, s, es[0]);
      InvStep(grace, s, es[0]);
      LateQueuesAreLost(grace, Next(grace, s, es[0]), es[1..], t);
    }
  }

  /**
   The dispatch writes one of column and tag but not the other: the drain records
   the orientation even when exiftool failed, and either kind of dispatch may
   fail to record what exiftool has written.
   */
  predicate Splits(s: State, e: Step)
    requires IsDispatch(e) && (e.Finish? ==> s.worker.Holding?)
    requires e.DrainOne? ==> s.drain.Draining? && e.id in s.drain.remaining
  {
    && e.outcome.lockGranted
    && (if e.Finish? then e.outcome.exiftoolOk && !e.outcome.updateOk else e.outcome.exiftoolOk != e.outcome.updateOk)
    && !(DispatchedId(s, e) in s.db && s.db[DispatchedId(s, e)] == DispatchedRot(s, e).orientation)
  }

  lemma UpdateIsNeutral(m: map<ImportId, int>, id: ImportId, o: int)
    ensures m[id := o] == m <==> id in m && m[id] == o
  {
    if id in m && m[id] == o {
      assert m[id := o] == m;
    } else {
      assert m[id := o][id] == o;
    }
  }

  /** Column and tag that agree before a step agree after it exactly when it is no dispatch that splits them. */
  lemma AgreeStep(grace: int, s: State, e: Step)
    requires Enabled(s, e) && s.db == s.tag
    ensures Next(grace, s, e).db == Next(grace, s, e).tag <==> !(IsDispatch(e) && Splits(s, e))
  {
    if IsDispatch(e) {
      UpdateIsNeutral(s.db, DispatchedId(s, e), DispatchedRot(s, e).orientation);
    }
  }

  ghost predicate AlwaysAgree(grace: int, s: State, es: seq<Step>)
    requires Run(grace, s, es)
    decreases |es|
  {
    s.db == s.tag && (es == [] || AlwaysAgree(grace, Next(grace, s, es[0]), es[1..]))
  }

  ghost predicate NeverSplits(grace: int, s: State, es: seq<Step>)
    requires Run(grace, s, es)
    decreases |es|
  {
    es == [] ||
    (!(IsDispatch(es[0]) && Splits(s, es[0])) && NeverSplits(grace, Next(grace, s, es[0]), es[1..]))
  }

  /** Over a whole run column and tag agree in every state exactly when no dispatch splits them. */
  lemma {:induction false} TargetsAgreeExactly(grace: int, s: State, es: seq<Step>)
    requires s.db == s.tag && Run(grace, s, es)
    ensures AlwaysAgree(grace, s, es) <==> NeverSplits(grace, s, es)
    decreases |es|
  {
    if es == [] {
    } else {
      AgreeStep(grace, s, es[0]);
      var s' := Next(grace, s, es[0]);
      if s'.db == s'.tag {
        TargetsAgreeExactly(grace, s', es[1..]);
      } else if |es| == 1 {
        assert !AlwaysAgree(grace, s', es[1..]);
      }
    }
  }

  // ---------------------------------------------------------------- the object itself

  /** The mutable state behind the mutex, one method per locked region. */
  class RotationManager {
    const graceMs: int
    var pending: map<ImportId, PendingRot>
    var queued: nat

    constructor (configuredGrace: int)
      ensures pending == map[] && queued == 0 && graceMs == GraceMs(configuredGrace)
    {
      graceMs := GraceMs(configuredGrace);
      pending := map[];
      queued := 0;
    }

    method Enqueue(id: ImportId, dngPath: string, orientation: int, clientId: string, now: int)
      modifies this`pending, this`queued
      ensures var intent := Intent(id, orientation, dngPath, clientId, now);
              pending == old(pending)[id := MakePending(intent, graceMs, old(queued))]
      ensures pending[id] == PendingRot(orientation, dngPath, clientId, now + graceMs, old(queued))
      ensures queued == old(queued) + 1
    {
      pending := pending[id := PendingRot(orientation, dngPath, clientId, now + graceMs, queued)];
      queued := queued + 1;
    }

    /** The scan for the soonest deadline. */
    method Soonest() returns (t: int)
      requires exists id :: id in pending
      ensures IsSoonest(pending, t)
      ensures (exists id :: id in pending && pending[id].deadline == t) &&
              forall id :: id in pending ==> t <= pending[id].deadline
    {
      var first :| first in pending;
      t := pending[first].deadline;
      var left := pending.Keys - {first};
      while exists id :: id in left
        invariant left <= pending.Keys
        invariant exists id :: id in pending && pending[id].deadline == t
        invariant forall id :: id in pending && id !in left ==> t <= pending[id].deadline
        decreases left
      {
        var id :| id in left;
        if pending[id].deadline < t {
          t := pending[id].deadline;
        }
        left := left - {id};
      }
    }

    /** The scan up to the next due entry, which it erases; `None` when it reached the end. */
    method TakeDue(now: int, unvisited: set<ImportId>)
      returns (due: bool, id: ImportId, rot: PendingRot, left: set<ImportId>)
      modifies this`pending
      ensures left <= unvisited
      ensures due ==> id in unvisited - left && id in old(pending) && rot == old(pending)[id] && rot.deadline <= now
      ensures pending == if due then old(pending) - {id} else old(pending)
      ensures !due ==> forall k :: k in unvisited && k in old(pending) ==> now < old(pending)[k].deadline
    {
      left := unvisited;
      due, id, rot := false, 0, PendingRot(1, "", "", 0, 0);
      while exists k :: k in left
        invariant left <= unvisited && pending == old(pending)
        invariant forall k :: k in unvisited - left && k in pending ==> now < pending[k].deadline
        decreases left
      {
        var k :| k in left;
        left := left - {k};
        if k in pending && pending[k].deadline <= now {
          due, id, rot := true, k, pending[k];
          pending := pending - {k};
          return;
        }
      }
    }

    /** The locked region of `Stop`. */
    method TakeAll() returns (remaining: map<ImportId, PendingRot>)
      modifies this`pending
      ensures remaining == old(pending) && pending == map[]
    {
      remaining := pending;
      pending := map[];
    }
  }
}
