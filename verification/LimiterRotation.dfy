/** The rotating cleanup over runs: every step of the interleavings is a sequence of the primitive
    changes of LimiterTable.dfy, so what holds of those holds of the running limiter. */
module LimiterRotations {
  import opened AttemptStates
  import opened LimiterTables
  import opened LimiterConcurrency

  function PerformAll(cfg: Config, t: Table<Key>, ops: seq<TableOp<Key>>): Table<Key>
    decreases |ops|
  {
    if ops == [] then t else PerformAll(cfg, Perform(cfg, t, ops[0]), ops[1..])
  }

  /** What a failure writes after the key's state has been found. */
  function RecordOps(cfg: Config, o: Table<Key>, key: Key, now: real): seq<TableOp<Key>> {
    if key in o.slots then [Assign(key, Record(cfg, o.slots[key].state, now).0)] else []
  }

  /** The changes of a step after its scheduled cleanup. */
  function LaterOps(cfg: Config, w: World, step: Step): seq<TableOp<Key>>
    requires Enabled(w, step)
  {
    var now := w.clock;
    match step
    case EnterStep(_, key) => [Take(key, now), Hold(key, 1)]
    case AdmitStep(thread, _) =>
      var a := w.attempts[thread];
      if Attached(w.table, a.key, a.id) then [Assign(a.key, Expire(cfg, w.table.slots[a.key].state, now))] else []
    case FailStep(thread) => FailureOps(cfg, w, w.attempts[thread].key)
    case SucceedStep(thread) => ClearOps(w, w.attempts[thread].key)
    case LeaveStep(thread) =>
      var a := w.attempts[thread];
      if Attached(w.table, a.key, a.id) then [Hold(a.key, -1), Forget(a.key, a.id)] else []
    case OutsideQuery(key) => [Look(key, now)]
    case OutsideFailure(key) => FailureOps(cfg, w, key)
    case OutsideClear(key) => ClearOps(w, key)
    case _ => []
  }

  function FailureOps(cfg: Config, w: World, key: Key): seq<TableOp<Key>> {
    [Take(key, w.clock)] + RecordOps(cfg, Obtain(cfg, Cleanup(cfg, w.table, w.clock), key, w.clock), key, w.clock)
  }

  function ClearOps(w: World, key: Key): seq<TableOp<Key>> {
    if key in w.table.slots then [Assign(key, EMPTY), Forget(key, w.table.slots[key].id)] else []
  }

  /** The steps whose section begins with the scheduled cleanup. */
  predicate Sweeps(step: Step) {
    step.EnterStep? || step.FailStep? || step.OutsideQuery? || step.OutsideFailure?
  }

  function SectionOps(cfg: Config, w: World, step: Step): seq<TableOp<Key>>
    requires Enabled(w, step)
  {
    (if Sweeps(step) then [Sweep(w.clock)] else []) + LaterOps(cfg, w, step)
  }

  lemma AfterFirst(cfg: Config, t: Table<Key>, op: TableOp<Key>, ops: seq<TableOp<Key>>)
    ensures PerformAll(cfg, t, [op] + ops) == PerformAll(cfg, Perform(cfg, t, op), ops)
  {
    assert ([op] + ops)[1..] == ops;
  }

  lemma TwoOps(cfg: Config, t: Table<Key>, a: TableOp<Key>, b: TableOp<Key>)
    ensures PerformAll(cfg, t, [a, b]) == Perform(cfg, Perform(cfg, t, a), b)
    ensures PerformAll(cfg, t, [a]) == Perform(cfg, t, a)
  {
    assert [a, b] == [a] + [b] && [b] == [b] + [] && [a] == [a] + [];
    AfterFirst(cfg, t, a, [b]);
    AfterFirst(cfg, Perform(cfg, t, a), b, []);
    AfterFirst(cfg, t, a, []);
  }

  lemma FailureIsOps(cfg: Config, w: World, key: Key)
    ensures PerformAll(cfg, Cleanup(cfg, w.table, w.clock), FailureOps(cfg, w, key))
      == RecordFailure(cfg, w.table, key, w.clock).0
  {
    var c, o := Cleanup(cfg, w.table, w.clock), Obtain(cfg, Cleanup(cfg, w.table, w.clock), key, w.clock);
    AfterFirst(cfg, c, Take(key, w.clock), RecordOps(cfg, o, key, w.clock));
    if key in o.slots {
      TwoOps(cfg, o, Assign(key, Record(cfg, o.slots[key].state, w.clock).0), Sweep(w.clock));
    }
  }

  lemma ClearIsOps(cfg: Config, w: World, key: Key)
    ensures PerformAll(cfg, w.table, ClearOps(w, key)) == Clear(w.table, key)
  {
    if key in w.table.slots {
      TwoOps(cfg, w.table, Assign(key, EMPTY), Forget(key, w.table.slots[key].id));
    }
  }

  lemma EnterIsOps(cfg: Config, w: World, key: Key)
    ensures PerformAll(cfg, Cleanup(cfg, w.table, w.clock), [Take(key, w.clock), Hold(key, 1)])
      == Enter(cfg, w.table, key, w.clock)
  {
    TwoOps(cfg, Cleanup(cfg, w.table, w.clock), Take(key, w.clock), Hold(key, 1));
  }

  lemma AdmitIsOps(cfg: Config, w: World, thread: Thread, stray: int)
    requires Inv(cfg, w) && In(w, thread, Gated)
    ensures PerformAll(cfg, w.table, LaterOps(cfg, w, AdmitStep(thread, stray))) == Admitted(cfg, w, thread, stray).table
  {
    var key := w.attempts[thread].key;
    TwoOps(cfg, w.table, Assign(key, Expire(cfg, w.table.slots[key].state, w.clock)), Sweep(w.clock));
  }

  lemma LeaveIsOps(cfg: Config, w: World, thread: Thread)
    requires Inv(cfg, w) && In(w, thread, Leaving)
    ensures PerformAll(cfg, w.table, LaterOps(cfg, w, LeaveStep(thread))) == Left(w, thread).table
  {
    var a := w.attempts[thread];
    TwoOps(cfg, w.table, Hold(a.key, -1), Forget(a.key, a.id));
  }

  lemma LaterIsOps(cfg: Config, w: World, step: Step)
    requires Inv(cfg, w) && Enabled(w, step)
    ensures Apply(cfg, w, step).table
      == PerformAll(cfg, if Sweeps(step) then Cleanup(cfg, w.table, w.clock) else w.table, LaterOps(cfg, w, step))
  {
    match step
    case EnterStep(_, key) => EnterIsOps(cfg, w, key);
    case AdmitStep(thread, stray) => AdmitIsOps(cfg, w, thread, stray);
    case FailStep(thread) => FailureIsOps(cfg, w, w.attempts[thread].key);
    case SucceedStep(thread) => ClearIsOps(cfg, w, w.attempts[thread].key);
    case LeaveStep(thread) => LeaveIsOps(cfg, w, thread);
    case OutsideQuery(key) => TwoOps(cfg, Cleanup(cfg, w.table, w.clock), Look(key, w.clock), Sweep(w.clock));
    case OutsideFailure(key) => FailureIsOps(cfg, w, key);
    case OutsideClear(key) => ClearIsOps(cfg, w, key);
    case _ =>
  }

  lemma LaterHasNoSweep(cfg: Config, w: World, step: Step)
    requires Enabled(w, step)
    ensures NoSweep(LaterOps(cfg, w, step))
  {
  }

  lemma SectionIs(cfg: Config, w: World, step: Step)
    requires Enabled(w, step)
    ensures var later := LaterOps(cfg, w, step);
      SectionOps(cfg, w, step) == if Sweeps(step) then [Sweep(w.clock)] + later else later
  {
  }

  /** Every step changes the table by its sequence of primitive changes. */
  lemma StepIsOps(cfg: Config, w: World, step: Step)
    requires Inv(cfg, w) && Enabled(w, step)
    ensures Apply(cfg, w, step).table == PerformAll(cfg, w.table, SectionOps(cfg, w, step))
  {
    SectionIs(cfg, w, step);
    LaterIsOps(cfg, w, step);
    AfterFirst(cfg, w.table, Sweep(w.clock), LaterOps(cfg, w, step));
  }

  // ----- the changes of a whole run -----

  function RunOps(cfg: Config, worlds: seq<World>, steps: seq<Step>, n: nat, m: nat): seq<TableOp<Key>>
    requires n <= m <= |steps| <= |worlds| && forall i :: n <= i < m ==> Enabled(worlds[i], steps[i])
    decreases m - n
  {
    if n == m then [] else SectionOps(cfg, worlds[n], steps[n]) + RunOps(cfg, worlds, steps, n + 1, m)
  }

  predicate SweepDue(w: World, step: Step) {
    Sweeps(step) && CleanupDue(w.table, w.clock)
  }

  /** The scheduled cleanups that are due between two points of a run. */
  function SweepsBetween(worlds: seq<World>, steps: seq<Step>, n: nat, m: nat): nat
    requires n <= m <= |steps| <= |worlds|
    decreases m - n
  {
    if n == m then 0
    else (if SweepDue(worlds[n], steps[n]) then 1 else 0) + SweepsBetween(worlds, steps, n + 1, m)
  }

  lemma {:induction false} DueSweepsSplit(cfg: Config, t: Table<Key>, a: seq<TableOp<Key>>, b: seq<TableOp<Key>>)
    ensures DueSweeps(cfg, t, a + b) == DueSweeps(cfg, t, a) + DueSweeps(cfg, PerformAll(cfg, t, a), b)
    decreases |a|
  {
    if a == [] {
      assert a + b == b;
    } else {
      assert (a + b)[1..] == a[1..] + b;
      DueSweepsSplit(cfg, Perform(cfg, t, a[0]), a[1..], b);
    }
  }

  predicate NoSweep(ops: seq<TableOp<Key>>) {
    forall i :: 0 <= i < |ops| ==> !ops[i].Sweep?
  }

  lemma {:induction false} NoSweepNoneDue(cfg: Config, t: Table<Key>, ops: seq<TableOp<Key>>)
    requires NoSweep(ops)
    ensures DueSweeps(cfg, t, ops) == 0
    decreases |ops|
  {
    if ops != [] {
      NoSweepNoneDue(cfg, Perform(cfg, t, ops[0]), ops[1..]);
    }
  }

  lemma SectionSweeps(cfg: Config, w: World, step: Step)
    requires Enabled(w, step)
    ensures DueSweeps(cfg, w.table, SectionOps(cfg, w, step)) == if SweepDue(w, step) then 1 else 0
  {
    var later := LaterOps(cfg, w, step);
    SectionIs(cfg, w, step);
    LaterHasNoSweep(cfg, w, step);
    if Sweeps(step) {
      assert ([Sweep(w.clock)] + later)[1..] == later;
      NoSweepNoneDue(cfg, Cleanup(cfg, w.table, w.clock), later);
    } else {
      NoSweepNoneDue(cfg, w.table, later);
    }
  }

  lemma {:induction false} RunSweeps(cfg: Config, worlds: seq<World>, steps: seq<Step>, n: nat, m: nat)
    requires Run(cfg, worlds, steps) && n <= m <= |steps|
    ensures DueSweeps(cfg, worlds[n].table, RunOps(cfg, worlds, steps, n, m)) == SweepsBetween(worlds, steps, n, m)
    decreases m - n
  {
    if n < m {
      RunInv(cfg, worlds, steps, n);
      StepIsOps(cfg, worlds[n], steps[n]);
      SectionSweeps(cfg, worlds[n], steps[n]);
      DueSweepsSplit(cfg, worlds[n].table, SectionOps(cfg, worlds[n], steps[n]), RunOps(cfg, worlds, steps, n + 1, m));
      RunSweeps(cfg, worlds, steps, n + 1, m);
    }
  }

  // ----- visits in a run -----

  lemma {:induction false} VisitedSplits(
      cfg: Config, t: Table<Key>, a: seq<TableOp<Key>>, b: seq<TableOp<Key>>, key: Key, id: nat)
    requires VisitedOrGone(cfg, t, a + b, key, id)
    ensures VisitedOrGone(cfg, t, a, key, id) || VisitedOrGone(cfg, PerformAll(cfg, t, a), b, key, id)
    decreases |a|
  {
    if a == [] {
      assert a + b == b;
    } else if !VisitedOrGone(cfg, t, a, key, id) {
      assert (a + b)[1..] == a[1..] + b;
      VisitedSplits(cfg, Perform(cfg, t, a[0]), a[1..], b, key, id);
    }
  }

  /** An object that has left the table never comes back. */
  lemma GoneStaysGone(cfg: Config, t: Table<Key>, op: TableOp<Key>, key: Key, id: nat)
    requires WellFormed(t) && |t.order| <= cfg.maxStates && id < t.nextId && !Attached(t, key, id)
    ensures !Attached(Perform(cfg, t, op), key, id) && id < Perform(cfg, t, op).nextId
  {
    match op
    case Sweep(now) => CleanupTidies(cfg, t, now);
    case Look(other, now) => CurrentTidies(cfg, t, other, now);
    case Take(other, now) => ObtainTidies(cfg, t, other, now);
    case Forget(other, i) => DiscardTidies(cfg, t, other, i, 0.0);
    case _ =>
  }

  lemma NumberStaysUsed(cfg: Config, t: Table<Key>, op: TableOp<Key>)
    requires WellFormed(t) && |t.order| <= cfg.maxStates
    ensures t.nextId <= Perform(cfg, t, op).nextId
  {
    match op
    case Sweep(now) => CleanupTidies(cfg, t, now);
    case Look(other, now) => CurrentTidies(cfg, t, other, now);
    case Take(other, now) => ObtainTidies(cfg, t, other, now);
    case Forget(other, i) => DiscardTidies(cfg, t, other, i, 0.0);
    case _ =>
  }

  /** Without a cleanup, "visited or gone" can only mean gone, and then gone at the end. */
  lemma {:induction false} GoneAtEnd(cfg: Config, t: Table<Key>, ops: seq<TableOp<Key>>, key: Key, id: nat)
    requires WellFormed(t) && |t.order| <= cfg.maxStates && id < t.nextId && NoSweep(ops)
    requires VisitedOrGone(cfg, t, ops, key, id)
    ensures !Attached(PerformAll(cfg, t, ops), key, id)
    decreases |ops|
  {
    if ops != [] {
      var u := Perform(cfg, t, ops[0]);
      OpKeepsTable(cfg, t, ops[0]);
      NumberStaysUsed(cfg, t, ops[0]);
      if !Attached(t, key, id) {
        GoneStaysGone(cfg, t, ops[0], key, id);
      }
      GoneAtEnd(cfg, u, ops[1..], key, id);
    }
  }

  /** The step begins with a due cleanup whose batch reaches the state. */
  ghost predicate VisitedBy(cfg: Config, w: World, step: Step, key: Key, id: nat) {
    && Attached(w.table, key, id) && SweepDue(w, step)
    && key in w.table.order && Position(w.table.order, key) < Batch(cfg, w.table)
  }

  /** Such a cleanup expires the state and keeps it exactly if it is then still active. */
  lemma VisitExpires(cfg: Config, w: World, step: Step, key: Key, id: nat)
    requires Inv(cfg, w) && cfg.Accepted() && VisitedBy(cfg, w, step, key, id)
    ensures Visited(cfg, Cleanup(cfg, w.table, w.clock), key, w.table.slots[key], w.clock)
  {
    CleanupVisits(cfg, w.table, w.clock, key);
  }

  lemma SectionVisits(cfg: Config, w: World, step: Step, key: Key, id: nat)
    requires Inv(cfg, w) && Enabled(w, step) && Attached(w.table, key, id)
    requires VisitedOrGone(cfg, w.table, SectionOps(cfg, w, step), key, id)
    ensures VisitedBy(cfg, w, step, key, id) || !Attached(Apply(cfg, w, step).table, key, id)
  {
    var later, sweep := LaterOps(cfg, w, step), Sweep(w.clock);
    SectionIs(cfg, w, step);
    LaterIsOps(cfg, w, step);
    LaterHasNoSweep(cfg, w, step);
    if !Sweeps(step) {
      GoneAtEnd(cfg, w.table, later, key, id);
    } else if !VisitedBy(cfg, w, step, key, id) {
      assert ([sweep] + later)[1..] == later;
      OpKeepsTable(cfg, w.table, sweep);
      NumberStaysUsed(cfg, w.table, sweep);
      GoneAtEnd(cfg, Perform(cfg, w.table, sweep), later, key, id);
    }
  }

  /** Some step of the run between n and m visits the state, or it is gone by then. */
  ghost predicate VisitedOrGoneInRun(
      cfg: Config, worlds: seq<World>, steps: seq<Step>, n: nat, m: nat, key: Key, id: nat)
    requires n <= m <= |steps| < |worlds|
  {
    || (exists i :: n <= i < m && VisitedBy(cfg, worlds[i], steps[i], key, id))
    || (exists i :: n <= i <= m && !Attached(worlds[i].table, key, id))
  }

  lemma {:induction false} RunVisits(
      cfg: Config, worlds: seq<World>, steps: seq<Step>, n: nat, m: nat, key: Key, id: nat)
    requires Run(cfg, worlds, steps) && n <= m <= |steps|
    requires VisitedOrGone(cfg, worlds[n].table, RunOps(cfg, worlds, steps, n, m), key, id)
    ensures VisitedOrGoneInRun(cfg, worlds, steps, n, m, key, id)
    decreases m - n
  {
    if n < m && Attached(worlds[n].table, key, id) {
      var w, ops := worlds[n], SectionOps(cfg, worlds[n], steps[n]);
      RunInv(cfg, worlds, steps, n);
      StepIsOps(cfg, w, steps[n]);
      VisitedSplits(cfg, w.table, ops, RunOps(cfg, worlds, steps, n + 1, m), key, id);
      if VisitedOrGone(cfg, w.table, ops, key, id) {
        SectionVisits(cfg, w, steps[n], key, id);
      } else {
        RunVisits(cfg, worlds, steps, n + 1, m, key, id);
      }
    }
  }

  /** In every interleaving a state at position p is visited by the time the due cleanups have taken
      more than p entries together, unless it leaves the table before. */
  lemma RotationReachesEveryStateInRuns(
      cfg: Config, worlds: seq<World>, steps: seq<Step>, n: nat, m: nat, key: Key, id: nat)
    requires Run(cfg, worlds, steps) && n <= m <= |steps| && Attached(worlds[n].table, key, id)
    requires key in worlds[n].table.order
      && SweepsBetween(worlds, steps, n, m) * cfg.cleanupBatchSize > Position(worlds[n].table.order, key)
    ensures VisitedOrGoneInRun(cfg, worlds, steps, n, m, key, id)
  {
    RunInv(cfg, worlds, steps, n);
    RunSweeps(cfg, worlds, steps, n, m);
    RotationReachesEveryState(cfg, worlds[n].table, RunOps(cfg, worlds, steps, n, m), key, id);
    RunVisits(cfg, worlds, steps, n, m, key, id);
  }

  // ----- how much a cleanup takes, and how often -----

  /** A due cleanup leaves every state behind its batch as it is, and moves it forward by one batch;
      a cleanup that is not due leaves everything as it is. */
  lemma CleanupTakesOneBatch(cfg: Config, t: Table<Key>, now: real, key: Key)
    requires cfg.Accepted() && WellFormed(t) && |t.order| <= cfg.maxStates && key in t.order
    ensures now < t.nextCleanupAt ==> Cleanup(cfg, t, now) == t
    ensures now >= t.nextCleanupAt && Position(t.order, key) >= cfg.cleanupBatchSize ==>
      var u := Cleanup(cfg, t, now);
      && key in u.slots && u.slots[key] == t.slots[key]
      && key in u.order && Position(u.order, key) == Position(t.order, key) - cfg.cleanupBatchSize
  {
    if now >= t.nextCleanupAt && Position(t.order, key) >= cfg.cleanupBatchSize {
      RotationsAdvance(cfg, t.(nextCleanupAt := now + cfg.cleanupIntervalSeconds), now, Batch(cfg, t), key,
        Position(t.order, key), t.slots[key]);
    }
  }

  lemma {:induction false} RotationsKeepDate(cfg: Config, t: Table<Key>, now: real, n: nat)
    ensures Rotations(cfg, t, now, n).nextCleanupAt == t.nextCleanupAt
    decreases n
  {
    if n != 0 && t.order != [] && t.order[0] in t.slots {
      RotationsKeepDate(cfg, Rotate(cfg, t, now), now, n - 1);
    }
  }

  lemma CleanupSetsDate(cfg: Config, t: Table<Key>, now: real)
    ensures Cleanup(cfg, t, now).nextCleanupAt ==
      if CleanupDue(t, now) then now + cfg.cleanupIntervalSeconds else t.nextCleanupAt
  {
    RotationsKeepDate(cfg, t.(nextCleanupAt := now + cfg.cleanupIntervalSeconds), now, Batch(cfg, t));
  }

  lemma {:induction false} OpsKeepDate(cfg: Config, t: Table<Key>, ops: seq<TableOp<Key>>)
    requires NoSweep(ops)
    ensures PerformAll(cfg, t, ops).nextCleanupAt == t.nextCleanupAt
    decreases |ops|
  {
    if ops != [] {
      OpsKeepDate(cfg, Perform(cfg, t, ops[0]), ops[1..]);
    }
  }

  /** When the last due cleanup of the run began, or the run itself. */
  function LastSweepAt(worlds: seq<World>, steps: seq<Step>, n: nat): real
    requires n <= |steps| < |worlds|
  {
    if n == 0 then worlds[0].clock
    else if SweepDue(worlds[n - 1], steps[n - 1]) then worlds[n - 1].clock
    else LastSweepAt(worlds, steps, n - 1)
  }

  lemma {:induction false} NextCleanupIs(cfg: Config, worlds: seq<World>, steps: seq<Step>, n: nat)
    requires Run(cfg, worlds, steps) && n <= |steps|
    ensures worlds[n].table.nextCleanupAt == LastSweepAt(worlds, steps, n) + cfg.cleanupIntervalSeconds
  {
    if n > 0 {
      var w, step := worlds[n - 1], steps[n - 1];
      NextCleanupIs(cfg, worlds, steps, n - 1);
      RunInv(cfg, worlds, steps, n - 1);
      LaterIsOps(cfg, w, step);
      LaterHasNoSweep(cfg, w, step);
      CleanupSetsDate(cfg, w.table, w.clock);
      OpsKeepDate(cfg, if Sweeps(step) then Cleanup(cfg, w.table, w.clock) else w.table, LaterOps(cfg, w, step));
    }
  }

  /** A step that may clean up does so exactly if the whole interval has passed since the last time. */
  lemma SweepsExactlyAfterInterval(cfg: Config, worlds: seq<World>, steps: seq<Step>, n: nat)
    requires Run(cfg, worlds, steps) && n < |steps|
    ensures SweepDue(worlds[n], steps[n]) <==>
      && (steps[n].EnterStep? || steps[n].FailStep? || steps[n].OutsideQuery? || steps[n].OutsideFailure?)
      && worlds[n].clock >= LastSweepAt(worlds, steps, n) + cfg.cleanupIntervalSeconds
  {
    NextCleanupIs(cfg, worlds, steps, n);
  }

  // ----- nothing idle is kept -----

  /** Every state of the table is referenced, has failures or is locked. */
  ghost predicate NoneIdle(t: Table<Key>) {
    forall k :: k in t.slots ==>
      t.slots[k].references != 0 || t.slots[k].state.failures != [] || t.slots[k].state.lockedUntil != 0.0
  }

  lemma {:induction false} RotationsNoneIdle(cfg: Config, t: Table<Key>, now: real, n: nat)
    requires NoneIdle(t)
    ensures NoneIdle(Rotations(cfg, t, now, n))
    decreases n
  {
    if n != 0 && t.order != [] && t.order[0] in t.slots {
      RotationsNoneIdle(cfg, Rotate(cfg, t, now), now, n - 1);
    }
  }

  /** The common beginning of attempt and record_failure may leave one idle state: that of its key. */
  lemma PrologueIdlesOne(cfg: Config, t: Table<Key>, key: Key, now: real)
    requires NoneIdle(t)
    ensures NoneIdle(Cleanup(cfg, t, now)) && NoneIdle(Current(cfg, Cleanup(cfg, t, now), key, now))
    ensures var o := Obtain(cfg, Cleanup(cfg, t, now), key, now);
      forall k :: k in o.slots && k != key ==> !Inactive(o.slots[k])
  {
    if CleanupDue(t, now) {
      RotationsNoneIdle(cfg, t.(nextCleanupAt := now + cfg.cleanupIntervalSeconds), now, Batch(cfg, t));
    }
  }

  lemma StepNoneIdle(cfg: Config, w: World, step: Step)
    requires Inv(cfg, w) && Enabled(w, step) && NoneIdle(w.table)
    ensures NoneIdle(Apply(cfg, w, step).table)
  {
    match step
    case EnterStep(thread, key) => EnterNoneIdle(cfg, w, thread, key);
    case AdmitStep(thread, stray) => AdmitNoneIdle(cfg, w, thread, stray);
    case FailStep(thread) => FailureNoneIdle(cfg, w, w.attempts[thread].key);
    case SucceedStep(thread) => ClearNoneIdle(w.table, w.attempts[thread].key);
    case LeaveStep(thread) => LeftNoneIdle(w, thread);
    case OutsideQuery(key) => PrologueIdlesOne(cfg, w.table, key, w.clock);
    case OutsideFailure(key) => FailureNoneIdle(cfg, w, key);
    case OutsideClear(key) => ClearNoneIdle(w.table, key);
    case _ =>
  }

  lemma ClearNoneIdle(t: Table<Key>, key: Key)
    requires NoneIdle(t)
    ensures NoneIdle(Clear(t, key))
  {
    if key in t.slots {
      DiscardNoneIdle(Put(t, key, EMPTY), key);
    }
  }

  lemma LeftNoneIdle(w: World, thread: Thread)
    requires thread in w.attempts && NoneIdle(w.table)
    ensures NoneIdle(Left(w, thread).table)
  {
    var a := w.attempts[thread];
    if Attached(w.table, a.key, a.id) {
      DiscardNoneIdle(Refer(w.table, a.key, -1), a.key);
    }
  }

  lemma DiscardNoneIdle(t: Table<Key>, key: Key)
    requires key in t.slots && forall k :: k in t.slots && k != key ==> !Inactive(t.slots[k])
    ensures NoneIdle(Discard(t, key, t.slots[key].id))
  {
  }

  lemma EnterNoneIdle(cfg: Config, w: World, thread: Thread, key: Key)
    requires Inv(cfg, w) && thread !in w.attempts && NoneIdle(w.table)
    ensures NoneIdle(Entered(cfg, w, thread, key).table)
  {
    PrologueIdlesOne(cfg, w.table, key, w.clock);
    var o := Obtain(cfg, Cleanup(cfg, w.table, w.clock), key, w.clock);
    PrologueTidies(cfg, w.table, key, w.clock);
    TidyingKeepsHolds(cfg, w.table, o, w.attempts, w.clock);
    if key in o.slots {
      ReferNoneIdle(o, key);
    }
  }

  lemma ReferNoneIdle(t: Table<Key>, key: Key)
    requires key in t.slots && t.slots[key].references >= 0
    requires forall k :: k in t.slots && k != key ==> !Inactive(t.slots[k])
    ensures NoneIdle(Refer(t, key, 1))
  {
  }

  lemma AdmitNoneIdle(cfg: Config, w: World, thread: Thread, stray: int)
    requires Inv(cfg, w) && In(w, thread, Gated) && NoneIdle(w.table)
    ensures NoneIdle(Admitted(cfg, w, thread, stray).table)
  {
    var a := w.attempts[thread];
    assert thread in Holders(w.attempts, a.id);
  }

  lemma FailureNoneIdle(cfg: Config, w: World, key: Key)
    requires NoneIdle(w.table)
    ensures NoneIdle(RecordFailure(cfg, w.table, key, w.clock).0)
  {
    PrologueIdlesOne(cfg, w.table, key, w.clock);
  }

  /** In every interleaving, between the sections, the table holds no state that nobody needs. */
  lemma {:induction false} NoIdleStates(cfg: Config, worlds: seq<World>, steps: seq<Step>, n: nat)
    requires Run(cfg, worlds, steps) && n <= |steps|
    ensures NoneIdle(worlds[n].table)
  {
    if n > 0 {
      NoIdleStates(cfg, worlds, steps, n - 1);
      RunInv(cfg, worlds, steps, n - 1);
      StepNoneIdle(cfg, worlds[n - 1], steps[n - 1]);
    }
  }
}
