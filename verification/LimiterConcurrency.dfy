/** Threads running `attempt` (and the calls around it), interleaved: every section under
    `_lock`, every gate operation and every passage of time is one step. The history lists
    what the limiter was asked and answered, in the order of the steps. */
module LimiterConcurrency {
  import opened AttemptStates
  import opened LimiterTables
  import opened LimiterHistory

  type Thread = nat

  datatype Phase =
    | Queued                             // reference taken, waiting for the gate
    | Gated                              // gate taken, before the second section
    | Body(answer: int, settled: bool)   // inside the `with` body
    | Leaving                            // gate released, reference still held

  datatype Attempt = Attempt(key: Key, id: nat, phase: Phase)
  {
    predicate HasGate() { phase.Gated? || phase.Body? }
  }

  datatype World = World(
    table: Table<Key>,
    gates: map<nat, Thread>,          // the gate of an object is absent when free
    attempts: map<Thread, Attempt>,
    clock: real,
    history: seq<Event>)

  datatype Step =
    | Tick(elapsed: real)
    | EnterStep(thread: Thread, key: Key)
    | AcquireGate(thread: Thread)
    | AdmitStep(thread: Thread, stray: int)  // stray: the answer, were the state no longer in the table
    | FailStep(thread: Thread)               // login: verification failed, record_failure
    | SucceedStep(thread: Thread)            // login: verification succeeded, clear
    | ReleaseGate(thread: Thread)
    | LeaveStep(thread: Thread)
    | OutsideQuery(key: Key)                 // retry_after, record_failure, clear called by anyone
    | OutsideFailure(key: Key)
    | OutsideClear(key: Key)
  {
    /** The steps of threads that only run `login` (app/auth.py). */
    predicate OfLogin() {
      !OutsideFailure? && !OutsideClear?
    }
  }

  predicate In(w: World, thread: Thread, phase: Phase) {
    thread in w.attempts && w.attempts[thread].phase == phase
  }

  predicate Enabled(w: World, step: Step) {
    match step
    case Tick(elapsed) => elapsed >= 0.0
    case EnterStep(thread, _) => thread !in w.attempts
    case AcquireGate(thread) => In(w, thread, Queued) && w.attempts[thread].id !in w.gates
    case AdmitStep(thread, _) => In(w, thread, Gated)
    case FailStep(thread) => In(w, thread, Body(0, false))
    case SucceedStep(thread) => In(w, thread, Body(0, false))
    case ReleaseGate(thread) => thread in w.attempts && w.attempts[thread].phase.Body?
    case LeaveStep(thread) => In(w, thread, Leaving)
    case _ => true
  }

  function Move(w: World, thread: Thread, phase: Phase): World
    requires thread in w.attempts
  {
    w.(attempts := w.attempts[thread := w.attempts[thread].(phase := phase)])
  }

  function Note(w: World, table: Table<Key>, event: Event): World {
    w.(table := table, history := w.history + [event])
  }

  function Failure(cfg: Config, w: World, key: Key): World {
    var (table, answer) := RecordFailure(cfg, w.table, key, w.clock);
    Note(w, table, if key in table.slots then Recorded(key, w.clock, answer) else Refused(key, w.clock, answer))
  }

  function Entered(cfg: Config, w: World, thread: Thread, key: Key): World {
    var table := Enter(cfg, w.table, key, w.clock);
    if key in table.slots
    then w.(table := table, attempts := w.attempts[thread := Attempt(key, table.slots[key].id, Queued)])
    else Note(w, table, Refused(key, w.clock, CapacityRetryAfter(cfg)))
  }

  function Admitted(cfg: Config, w: World, thread: Thread, stray: int): World
    requires thread in w.attempts
  {
    var a := w.attempts[thread];
    if Attached(w.table, a.key, a.id) then
      var (table, answer) := Admit(cfg, w.table, a.key, w.clock);
      Move(Note(w, table, Asked(a.key, w.clock, answer)), thread, Body(answer, false))
    else Move(Note(w, w.table, Asked(a.key, w.clock, stray)), thread, Body(stray, false))
  }

  function Left(w: World, thread: Thread): World
    requires thread in w.attempts
  {
    var a := w.attempts[thread];
    w.(table := if Attached(w.table, a.key, a.id) then Leave(w.table, a.key) else w.table,
       attempts := w.attempts - {thread})
  }

  function Apply(cfg: Config, w: World, step: Step): World
    requires Enabled(w, step)
  {
    match step
    case Tick(elapsed) => w.(clock := w.clock + elapsed)
    case EnterStep(thread, key) => Entered(cfg, w, thread, key)
    case AcquireGate(thread) => Move(w.(gates := w.gates[w.attempts[thread].id := thread]), thread, Gated)
    case AdmitStep(thread, stray) => Admitted(cfg, w, thread, stray)
    case FailStep(thread) =>
      var failed := Failure(cfg, w, w.attempts[thread].key);
      Move(failed, thread, Body(0, true))
    case SucceedStep(thread) =>
      var key := w.attempts[thread].key;
      Move(Note(w, Clear(w.table, key), Cleared(key, w.clock)), thread, Body(0, true))
    case ReleaseGate(thread) => Move(w.(gates := w.gates - {w.attempts[thread].id}), thread, Leaving)
    case LeaveStep(thread) => Left(w, thread)
    case OutsideQuery(key) =>
      var (table, answer) := Query(cfg, w.table, key, w.clock);
      Note(w, table, Asked(key, w.clock, answer))
    case OutsideFailure(key) => Failure(cfg, w, key)
    case OutsideClear(key) => Note(w, Clear(w.table, key), Cleared(key, w.clock))
  }

  // ----- runs -----

  ghost predicate Initial(cfg: Config, w: World) {
    && cfg.Accepted()
    && w.table.order == [] && w.table.slots == map[]
    && w.table.nextCleanupAt == w.clock + cfg.cleanupIntervalSeconds
    && w.gates == map[] && w.attempts == map[] && w.history == [] && w.clock >= 0.0
  }

  ghost predicate Run(cfg: Config, worlds: seq<World>, steps: seq<Step>) {
    && |worlds| == |steps| + 1
    && Initial(cfg, worlds[0])
    && forall i :: 0 <= i < |steps| ==> Enabled(worlds[i], steps[i]) && worlds[i + 1] == Apply(cfg, worlds[i], steps[i])
  }

  // ----- invariant -----

  ghost function Holders(attempts: map<Thread, Attempt>, id: nat): set<Thread> {
    set t | t in attempts && attempts[t].id == id
  }

  ghost predicate TableInv(cfg: Config, table: Table<Key>) {
    WellFormed(table) && |table.order| <= cfg.maxStates
  }

  ghost predicate HoldInv(table: Table<Key>, attempts: map<Thread, Attempt>) {
    && (forall t :: t in attempts ==> Attached(table, attempts[t].key, attempts[t].id))
    && (forall k :: k in table.slots ==> table.slots[k].references == |Holders(attempts, table.slots[k].id)|)
  }

  ghost predicate GateInv(gates: map<nat, Thread>, attempts: map<Thread, Attempt>) {
    && (forall t :: t in attempts && attempts[t].HasGate() ==> attempts[t].id in gates && gates[attempts[t].id] == t)
    && (forall id :: id in gates ==>
        gates[id] in attempts && attempts[gates[id]].id == id && attempts[gates[id]].HasGate())
  }

  ghost predicate ValueInv(cfg: Config, table: Table<Key>, history: seq<Event>, now: real) {
    && (forall k :: Expire(cfg, Value(table, k), now) == Expire(cfg, Replay(cfg, history, k), now))
    && ReferenceAnswers(cfg, history)
  }

  ghost predicate Inv(cfg: Config, w: World) {
    && w.clock >= 0.0
    && TableInv(cfg, w.table)
    && HoldInv(w.table, w.attempts)
    && GateInv(w.gates, w.attempts)
    && ValueInv(cfg, w.table, w.history, w.clock)
  }

  lemma InitialInv(cfg: Config, w: World)
    requires Initial(cfg, w)
    ensures Inv(cfg, w)
  {
  }

  /** Tidying the table leaves every held reference attached and every count right. */
  lemma TidyingKeepsHolds(cfg: Config, t: Table<Key>, u: Table<Key>, attempts: map<Thread, Attempt>, now: real)
    requires TableInv(cfg, t) && HoldInv(t, attempts) && Tidies(cfg, t, u, now)
    ensures TableInv(cfg, u) && HoldInv(u, attempts)
  {
    forall h | h in attempts
      ensures Attached(u, attempts[h].key, attempts[h].id)
    {
      assert h in Holders(attempts, attempts[h].id);
    }
    forall k | k in u.slots
      ensures u.slots[k].references == |Holders(attempts, u.slots[k].id)|
    {
      if !Attached(t, k, u.slots[k].id) {
        assert Holders(attempts, u.slots[k].id) == {};
      }
    }
  }

  lemma PutKeepsHolds(cfg: Config, t: Table<Key>, key: Key, state: KeyState, attempts: map<Thread, Attempt>)
    requires TableInv(cfg, t) && HoldInv(t, attempts) && key in t.slots
    ensures TableInv(cfg, Put(t, key, state)) && HoldInv(Put(t, key, state), attempts)
  {
  }

  /** Writing one key's value and the matching event keeps table and reference in agreement. */
  lemma NotingKeepsValues(cfg: Config, t: Table<Key>, u: Table<Key>, history: seq<Event>, now: real, e: Event)
    requires ValueInv(cfg, t, history, now)
    requires forall k :: k != e.key ==> Expire(cfg, Value(u, k), now) == Expire(cfg, Value(t, k), now)
    requires var s := Replay(cfg, history, e.key);
      && Expire(cfg, Value(u, e.key), now) == Expire(cfg, ReplayEvent(cfg, s, e), now)
      && ReferenceAnswer(cfg, s, e)
    ensures ValueInv(cfg, u, history + [e], now)
  {
    forall k
      ensures Expire(cfg, Value(u, k), now) == Expire(cfg, Replay(cfg, history + [e], k), now)
    {
      ReplayOneMore(cfg, history, e, k);
    }
    AnswersOneMore(cfg, history, e);
  }

  lemma PhaseKeepsHolds(table: Table<Key>, w: World, thread: Thread, phase: Phase)
    requires HoldInv(table, w.attempts) && thread in w.attempts
    ensures HoldInv(table, Move(w, thread, phase).attempts)
  {
    var attempts := Move(w, thread, phase).attempts;
    assert forall id :: Holders(attempts, id) == Holders(w.attempts, id);
  }

  /** A thread without the gate, before and after, does not matter to the gates. */
  lemma GatesIgnore(gates: map<nat, Thread>, attempts: map<Thread, Attempt>, thread: Thread, a: Attempt)
    requires GateInv(gates, attempts) && !a.HasGate()
    requires thread in attempts ==> !attempts[thread].HasGate()
    ensures GateInv(gates, attempts[thread := a]) && GateInv(gates, attempts - {thread})
  {
  }

  lemma BodyKeepsGates(w: World, thread: Thread, phase: Phase)
    requires GateInv(w.gates, w.attempts) && thread in w.attempts && w.attempts[thread].HasGate() && phase.Body?
    ensures GateInv(w.gates, Move(w, thread, phase).attempts)
  {
  }

  lemma TickInv(cfg: Config, w: World, elapsed: real)
    requires Inv(cfg, w) && elapsed >= 0.0
    ensures Inv(cfg, w.(clock := w.clock + elapsed))
  {
    forall k
      ensures Expire(cfg, Value(w.table, k), w.clock + elapsed) == Expire(cfg, Replay(cfg, w.history, k), w.clock + elapsed)
    {
      ExpireAgrees(cfg, Value(w.table, k), Replay(cfg, w.history, k), w.clock, w.clock + elapsed);
    }
  }

  lemma ReferenceTaken(t: Table<Key>, attempts: map<Thread, Attempt>, thread: Thread, key: Key, phase: Phase)
    requires WellFormed(t) && HoldInv(t, attempts) && thread !in attempts && key in t.slots
    ensures HoldInv(Refer(t, key, 1), attempts[thread := Attempt(key, t.slots[key].id, phase)])
  {
    var id, u := t.slots[key].id, Refer(t, key, 1);
    var more := attempts[thread := Attempt(key, id, phase)];
    assert Holders(more, id) == Holders(attempts, id) + {thread};
    forall h | h in more
      ensures Attached(u, more[h].key, more[h].id)
    {
      assert h == thread || (h in attempts && Attached(t, attempts[h].key, attempts[h].id));
    }
    forall k | k in u.slots
      ensures u.slots[k].references == |Holders(more, u.slots[k].id)|
    {
      if k != key {
        OtherHolders(attempts, thread, Attempt(key, id, phase), u.slots[k].id);
      }
    }
  }

  lemma OtherHolders(attempts: map<Thread, Attempt>, thread: Thread, a: Attempt, id: nat)
    requires thread !in attempts && a.id != id
    ensures Holders(attempts[thread := a], id) == Holders(attempts, id)
  {
  }

  lemma ReferenceGivenBack(t: Table<Key>, attempts: map<Thread, Attempt>, thread: Thread)
    requires WellFormed(t) && HoldInv(t, attempts) && thread in attempts
    ensures HoldInv(Refer(t, attempts[thread].key, -1), attempts - {thread})
  {
    var key, id, fewer := attempts[thread].key, attempts[thread].id, attempts - {thread};
    var u := Refer(t, key, -1);
    assert Holders(attempts, id) == Holders(fewer, id) + {thread};
    forall k | k in u.slots
      ensures u.slots[k].references == |Holders(fewer, u.slots[k].id)|
    {
      if k != key {
        assert Holders(fewer, u.slots[k].id) == Holders(attempts, u.slots[k].id);
      }
    }
  }

  lemma TidyingKeepsValues(cfg: Config, t: Table<Key>, u: Table<Key>, history: seq<Event>, now: real)
    requires ValueInv(cfg, t, history, now) && SameValues(cfg, t, u, now)
    ensures ValueInv(cfg, u, history, now)
  {
    forall k
      ensures Expire(cfg, Value(u, k), now) == Expire(cfg, Replay(cfg, history, k), now)
    {
      TidiesAgrees(cfg, t, u, k, now);
    }
  }

  lemma ReferKeepsValues(
      cfg: Config, t: Table<Key>, u: Table<Key>, key: Key, change: int, history: seq<Event>, now: real)
    requires ValueInv(cfg, t, history, now) && SameValues(cfg, t, u, now) && key in u.slots
    ensures ValueInv(cfg, Refer(u, key, change), history, now)
  {
    forall k
      ensures Expire(cfg, Value(Refer(u, key, change), k), now) == Expire(cfg, Replay(cfg, history, k), now)
    {
      TidiesAgrees(cfg, t, u, k, now);
    }
  }

  lemma ReferKeepsTable(cfg: Config, t: Table<Key>, key: Key, change: int)
    requires TableInv(cfg, t) && key in t.slots
    ensures TableInv(cfg, Refer(t, key, change))
  {
  }

  lemma EnterInv(cfg: Config, w: World, thread: Thread, key: Key)
    requires Inv(cfg, w) && thread !in w.attempts
    ensures Inv(cfg, Entered(cfg, w, thread, key))
  {
    var o := Obtain(cfg, Cleanup(cfg, w.table, w.clock), key, w.clock);
    PrologueTidies(cfg, w.table, key, w.clock);
    TidyingKeepsHolds(cfg, w.table, o, w.attempts, w.clock);
    if key in o.slots {
      ReferenceTaken(o, w.attempts, thread, key, Queued);
      GatesIgnore(w.gates, w.attempts, thread, Attempt(key, o.slots[key].id, Queued));
      ReferKeepsTable(cfg, o, key, 1);
      ReferKeepsValues(cfg, w.table, o, key, 1, w.history, w.clock);
    } else {
      NotingKeepsValues(cfg, w.table, o, w.history, w.clock, Refused(key, w.clock, CapacityRetryAfter(cfg)));
    }
  }

  lemma AcquireInv(cfg: Config, w: World, thread: Thread)
    requires Inv(cfg, w) && Enabled(w, AcquireGate(thread))
    ensures Inv(cfg, Apply(cfg, w, AcquireGate(thread)))
  {
    PhaseKeepsHolds(w.table, w, thread, Gated);
  }

  lemma ReleaseInv(cfg: Config, w: World, thread: Thread)
    requires Inv(cfg, w) && Enabled(w, ReleaseGate(thread))
    ensures Inv(cfg, Apply(cfg, w, ReleaseGate(thread)))
  {
    PhaseKeepsHolds(w.table, w, thread, Leaving);
  }

  lemma AdmitInv(cfg: Config, w: World, thread: Thread, stray: int)
    requires Inv(cfg, w) && In(w, thread, Gated)
    ensures Inv(cfg, Admitted(cfg, w, thread, stray))
  {
    var key := w.attempts[thread].key;
    var (table, answer) := Admit(cfg, w.table, key, w.clock);
    ExpiryTidies(cfg, w.table, key, w.clock);
    TidyingKeepsHolds(cfg, w.table, table, w.attempts, w.clock);
    NotingKeepsValues(cfg, w.table, table, w.history, w.clock, Asked(key, w.clock, answer));
    PhaseKeepsHolds(table, w, thread, Body(answer, false));
    BodyKeepsGates(w, thread, Body(answer, false));
  }

  lemma FailureKeepsHolds(cfg: Config, w: World, key: Key)
    requires Inv(cfg, w)
    ensures var v := Failure(cfg, w, key); TableInv(cfg, v.table) && HoldInv(v.table, w.attempts)
  {
    var o := Obtain(cfg, Cleanup(cfg, w.table, w.clock), key, w.clock);
    PrologueTidies(cfg, w.table, key, w.clock);
    TidyingKeepsHolds(cfg, w.table, o, w.attempts, w.clock);
    if key in o.slots {
      PutKeepsHolds(cfg, o, key, Record(cfg, o.slots[key].state, w.clock).0, w.attempts);
    }
  }

  lemma FailureKeepsValues(cfg: Config, w: World, key: Key)
    requires Inv(cfg, w)
    ensures var v := Failure(cfg, w, key); ValueInv(cfg, v.table, v.history, w.clock)
  {
    var o := Obtain(cfg, Cleanup(cfg, w.table, w.clock), key, w.clock);
    PrologueTidies(cfg, w.table, key, w.clock);
    var (table, answer) := RecordFailure(cfg, w.table, key, w.clock);
    forall k | k != key
      ensures Expire(cfg, Value(table, k), w.clock) == Expire(cfg, Value(w.table, k), w.clock)
    {
      TidiesAgrees(cfg, w.table, o, k, w.clock);
    }
    if key in o.slots {
      NotingKeepsValues(cfg, w.table, table, w.history, w.clock, Recorded(key, w.clock, answer));
    } else {
      TidiesAgrees(cfg, w.table, o, key, w.clock);
      NotingKeepsValues(cfg, w.table, table, w.history, w.clock, Refused(key, w.clock, answer));
    }
  }

  lemma FailureInv(cfg: Config, w: World, key: Key)
    requires Inv(cfg, w)
    ensures Inv(cfg, Failure(cfg, w, key))
  {
    FailureKeepsHolds(cfg, w, key);
    FailureKeepsValues(cfg, w, key);
  }

  lemma ClearInv(cfg: Config, w: World, key: Key)
    requires Inv(cfg, w)
    ensures var table := Clear(w.table, key);
      && TableInv(cfg, table) && HoldInv(table, w.attempts)
      && ValueInv(cfg, table, w.history + [Cleared(key, w.clock)], w.clock)
  {
    var table := Clear(w.table, key);
    if key in w.table.slots {
      var u := Put(w.table, key, EMPTY);
      PutKeepsHolds(cfg, w.table, key, EMPTY, w.attempts);
      DiscardTidies(cfg, u, key, w.table.slots[key].id, w.clock);
      TidyingKeepsHolds(cfg, u, table, w.attempts, w.clock);
    }
    NotingKeepsValues(cfg, w.table, table, w.history, w.clock, Cleared(key, w.clock));
  }

  lemma QueryInv(cfg: Config, w: World, key: Key)
    requires Inv(cfg, w)
    ensures Inv(cfg, Apply(cfg, w, OutsideQuery(key)))
  {
    var (table, answer) := Query(cfg, w.table, key, w.clock);
    QueryTidies(cfg, w.table, key, w.clock);
    TidyingKeepsHolds(cfg, w.table, table, w.attempts, w.clock);
    NotingKeepsValues(cfg, w.table, table, w.history, w.clock, Asked(key, w.clock, answer));
  }

  /** The last section: one reference less, then the discard. */
  lemma LeaveKeepsHolds(cfg: Config, w: World, thread: Thread)
    requires Inv(cfg, w) && In(w, thread, Leaving)
    ensures var t := Left(w, thread).table;
      TableInv(cfg, t) && HoldInv(t, w.attempts - {thread})
  {
    var a := w.attempts[thread];
    var u := Refer(w.table, a.key, -1);
    ReferenceGivenBack(w.table, w.attempts, thread);
    ReferKeepsTable(cfg, w.table, a.key, -1);
    DiscardTidies(cfg, u, a.key, a.id, w.clock);
    TidyingKeepsHolds(cfg, u, Left(w, thread).table, w.attempts - {thread}, w.clock);
  }

  lemma LeaveKeepsValues(cfg: Config, w: World, thread: Thread)
    requires Inv(cfg, w) && In(w, thread, Leaving)
    ensures forall k :: Value(Left(w, thread).table, k) == Value(w.table, k)
  {
  }

  lemma LeaveInv(cfg: Config, w: World, thread: Thread)
    requires Inv(cfg, w) && In(w, thread, Leaving)
    ensures Inv(cfg, Left(w, thread))
  {
    LeaveKeepsHolds(cfg, w, thread);
    LeaveKeepsValues(cfg, w, thread);
    TidyingKeepsValues(cfg, w.table, Left(w, thread).table, w.history, w.clock);
    GatesIgnore(w.gates, w.attempts, thread, w.attempts[thread]);
  }

  lemma FailStepInv(cfg: Config, w: World, thread: Thread)
    requires Inv(cfg, w) && In(w, thread, Body(0, false))
    ensures Inv(cfg, Apply(cfg, w, FailStep(thread)))
  {
    var v := Failure(cfg, w, w.attempts[thread].key);
    FailureInv(cfg, w, w.attempts[thread].key);
    SettledInv(cfg, v, thread);
  }

  lemma SucceedStepInv(cfg: Config, w: World, thread: Thread)
    requires Inv(cfg, w) && In(w, thread, Body(0, false))
    ensures Inv(cfg, Apply(cfg, w, SucceedStep(thread)))
  {
    var key := w.attempts[thread].key;
    ClearInv(cfg, w, key);
    var v := Note(w, Clear(w.table, key), Cleared(key, w.clock));
    assert Inv(cfg, v);
    SettledInv(cfg, v, thread);
  }

  lemma SettledInv(cfg: Config, v: World, thread: Thread)
    requires Inv(cfg, v) && In(v, thread, Body(0, false))
    ensures Inv(cfg, Move(v, thread, Body(0, true)))
  {
    PhaseKeepsHolds(v.table, v, thread, Body(0, true));
    BodyKeepsGates(v, thread, Body(0, true));
  }

  lemma StepInv(cfg: Config, w: World, step: Step)
    requires Inv(cfg, w) && Enabled(w, step)
    ensures Inv(cfg, Apply(cfg, w, step))
  {
    match step
    case Tick(elapsed) => TickInv(cfg, w, elapsed);
    case EnterStep(thread, key) => EnterInv(cfg, w, thread, key);
    case AcquireGate(thread) => AcquireInv(cfg, w, thread);
    case AdmitStep(thread, stray) => AdmitInv(cfg, w, thread, stray);
    case FailStep(thread) => FailStepInv(cfg, w, thread);
    case SucceedStep(thread) => SucceedStepInv(cfg, w, thread);
    case ReleaseGate(thread) => ReleaseInv(cfg, w, thread);
    case LeaveStep(thread) => LeaveInv(cfg, w, thread);
    case OutsideQuery(key) => QueryInv(cfg, w, key);
    case OutsideFailure(key) => FailureInv(cfg, w, key);
    case OutsideClear(key) => ClearInv(cfg, w, key);
  }

  lemma {:induction false} RunInv(cfg: Config, worlds: seq<World>, steps: seq<Step>, n: nat)
    requires Run(cfg, worlds, steps) && n <= |steps|
    ensures Inv(cfg, worlds[n])
  {
    if n == 0 {
      InitialInv(cfg, worlds[0]);
    } else {
      RunInv(cfg, worlds, steps, n - 1);
      StepInv(cfg, worlds[n - 1], steps[n - 1]);
    }
  }

  // ----- what holds in every interleaving -----

  lemma OneThreadPerKey(w: World, t1: Thread, t2: Thread)
    requires HoldInv(w.table, w.attempts) && GateInv(w.gates, w.attempts)
    requires t1 in w.attempts && t2 in w.attempts && w.attempts[t1].HasGate() && w.attempts[t2].HasGate()
    requires w.attempts[t1].key == w.attempts[t2].key
    ensures t1 == t2
  {
  }

  /** At most one thread per key is ever inside the `with` body. */
  lemma MutualExclusion(cfg: Config, worlds: seq<World>, steps: seq<Step>, n: nat, t1: Thread, t2: Thread)
    requires Run(cfg, worlds, steps) && n <= |steps|
    requires t1 in worlds[n].attempts && worlds[n].attempts[t1].phase.Body?
    requires t2 in worlds[n].attempts && worlds[n].attempts[t2].phase.Body?
    requires worlds[n].attempts[t1].key == worlds[n].attempts[t2].key
    ensures t1 == t2
  {
    RunInv(cfg, worlds, steps, n);
    OneThreadPerKey(worlds[n], t1, t2);
  }

  /** From its increment to its decrement a thread finds its own state object in the table,
      and that object's reference count is the number of such threads. */
  lemma ReferencedStateStays(cfg: Config, worlds: seq<World>, steps: seq<Step>, n: nat, thread: Thread)
    requires Run(cfg, worlds, steps) && n <= |steps| && thread in worlds[n].attempts
    ensures var w, a := worlds[n], worlds[n].attempts[thread];
      && Attached(w.table, a.key, a.id)
      && w.table.slots[a.key].references == |set t | t in w.attempts && w.attempts[t].key == a.key| > 0
  {
    RunInv(cfg, worlds, steps, n);
    var w, a := worlds[n], worlds[n].attempts[thread];
    assert Holders(w.attempts, a.id) == set t | t in w.attempts && w.attempts[t].key == a.key;
    assert thread in Holders(w.attempts, a.id);
  }

  lemma CapacityKept(cfg: Config, worlds: seq<World>, steps: seq<Step>, n: nat)
    requires Run(cfg, worlds, steps) && n <= |steps|
    ensures |worlds[n].table.slots| <= cfg.maxStates
  {
    RunInv(cfg, worlds, steps, n);
    OrderCounts(worlds[n].table.order, worlds[n].table.slots.Keys);
  }

  lemma {:induction false} OrderCounts<K(!new)>(order: seq<K>, keys: set<K>)
    requires forall k :: k in keys ==> k in order
    ensures |keys| <= |order|
  {
    if order != [] {
      OrderCounts(order[1..], keys - {order[0]});
      assert keys <= (keys - {order[0]}) + {order[0]};
    } else {
      assert keys == {};
    }
  }

  /** Lazy expiry, discarding, and the rotating cleanup are invisible: every answer is the one
      the limiter would give that forgets no key and tidies nothing. */
  lemma AnswersAreTheReference(cfg: Config, worlds: seq<World>, steps: seq<Step>, n: nat, i: nat)
    requires Run(cfg, worlds, steps) && n <= |steps| && i < |worlds[n].history|
    ensures var h := worlds[n].history; ReferenceAnswer(cfg, Replay(cfg, h[..i], h[i].key), h[i])
  {
    RunInv(cfg, worlds, steps, n);
    assert AnsweredAt(cfg, worlds[n].history, i);
  }

  /** A failed verification inside an attempt always counts. */
  lemma FailedVerificationCounts(cfg: Config, worlds: seq<World>, steps: seq<Step>, n: nat, thread: Thread)
    requires Run(cfg, worlds, steps) && n < |steps| && steps[n] == FailStep(thread)
    ensures var h := worlds[n + 1].history;
      |h| == |worlds[n].history| + 1 && h[|h| - 1].Recorded? && h[|h| - 1].key == worlds[n].attempts[thread].key
  {
    RunInv(cfg, worlds, steps, n);
    HeldFailureIsRecorded(cfg, worlds[n], thread);
  }

  // ----- when a call is refused -----

  lemma {:induction false} DistinctCounts<K(!new)>(order: seq<K>)
    requires Distinct(order)
    ensures |set k | k in order| == |order|
  {
    if order != [] {
      var rest := order[1..];
      DistinctCounts(rest);
      assert (set k | k in order) == (set k | k in rest) + {order[0]};
      assert order[0] !in rest;
    }
  }

  lemma ListedCounts(t: Table<Key>)
    requires Listed(t)
    ensures |t.slots| == |t.order|
  {
    DistinctCounts(t.order);
    assert t.slots.Keys == set k | k in t.order;
  }

  /** The table in which the key finds no place: after the scheduled cleanup and the look-up of the key. */
  ghost predicate Full(cfg: Config, w: World, key: Key) {
    var looked := Current(cfg, Cleanup(cfg, w.table, w.clock), key, w.clock);
    key !in looked.slots && |looked.slots| == cfg.maxStates
  }

  lemma ObtainFailsExactlyWhenFull(cfg: Config, w: World, key: Key)
    requires Inv(cfg, w)
    ensures key !in Obtain(cfg, Cleanup(cfg, w.table, w.clock), key, w.clock).slots <==> Full(cfg, w, key)
  {
    var cleaned := Cleanup(cfg, w.table, w.clock);
    CleanupTidies(cfg, w.table, w.clock);
    CurrentTidies(cfg, cleaned, key, w.clock);
    ListedCounts(Current(cfg, cleaned, key, w.clock));
  }

  predicate RefusedBy(w: World, v: World) {
    |v.history| == |w.history| + 1 && v.history[|w.history|].Refused?
  }

  /** An attempt, or a failure recorded from elsewhere, is refused exactly if the table, cleaned up as far as
      it is due, holds max_states entries and none for the key. */
  lemma RefusedExactlyWhenFull(cfg: Config, worlds: seq<World>, steps: seq<Step>, n: nat)
    requires Run(cfg, worlds, steps) && n < |steps| && (steps[n].EnterStep? || steps[n].OutsideFailure?)
    ensures RefusedBy(worlds[n], worlds[n + 1]) <==> Full(cfg, worlds[n], steps[n].key)
  {
    RunInv(cfg, worlds, steps, n);
    assert worlds[n + 1] == Apply(cfg, worlds[n], steps[n]);
    ObtainFailsExactlyWhenFull(cfg, worlds[n], steps[n].key);
  }

  /** No other step is ever refused. */
  lemma OthersAreNotRefused(cfg: Config, worlds: seq<World>, steps: seq<Step>, n: nat)
    requires Run(cfg, worlds, steps) && n < |steps| && !steps[n].EnterStep? && !steps[n].OutsideFailure?
    ensures !RefusedBy(worlds[n], worlds[n + 1])
  {
    if steps[n].FailStep? {
      FailedVerificationCounts(cfg, worlds, steps, n, steps[n].thread);
    }
    assert worlds[n + 1] == Apply(cfg, worlds[n], steps[n]);
  }

  // ----- what holds when all threads run login -----

  ghost predicate LoginInv(cfg: Config, w: World) {
    && Disciplined(cfg, w.history) && Timed(w.history, w.clock)
    && (forall t :: t in w.attempts && w.attempts[t].phase == Body(0, false) ==>
        Open(cfg, w.history, w.attempts[t].key, w.clock))
    && (forall k :: Bounded(cfg, Value(w.table, k)))
  }

  lemma TidyingKeepsBounds(cfg: Config, t: Table<Key>, u: Table<Key>, now: real)
    requires cfg.LoginSettings() && SameValues(cfg, t, u, now)
    requires forall k :: Bounded(cfg, Value(t, k))
    ensures forall k :: Bounded(cfg, Value(u, k))
  {
    forall k
      ensures Bounded(cfg, Value(u, k))
    {
      ExpireBounded(cfg, Value(t, k), now);
    }
  }

  lemma TickLogin(cfg: Config, w: World, elapsed: real)
    requires LoginInv(cfg, w) && elapsed >= 0.0
    ensures LoginInv(cfg, w.(clock := w.clock + elapsed))
  {
    forall t | t in w.attempts && w.attempts[t].phase == Body(0, false)
      ensures Open(cfg, w.history, w.attempts[t].key, w.clock + elapsed)
    {
      OpenStaysOpen(cfg, w.history, w.attempts[t].key, w.clock, w.clock + elapsed);
    }
  }

  /** Adding an event that judges nothing, at the present time. */
  lemma AskingKeepsLogin(cfg: Config, history: seq<Event>, e: Event, now: real)
    requires Disciplined(cfg, history) && Timed(history, now) && !Verdict(e) && e.at == now >= 0.0
    ensures Disciplined(cfg, history + [e]) && Timed(history + [e], now)
    ensures forall k :: Open(cfg, history + [e], k, now) == Open(cfg, history, k, now)
  {
    DisciplinedOneMore(cfg, history, e);
    forall k
      ensures Open(cfg, history + [e], k, now) == Open(cfg, history, k, now)
    {
      ReplayOneMore(cfg, history, e, k);
    }
  }

  lemma EnterLogin(cfg: Config, w: World, thread: Thread, key: Key)
    requires cfg.LoginSettings() && Inv(cfg, w) && LoginInv(cfg, w) && thread !in w.attempts
    ensures LoginInv(cfg, Entered(cfg, w, thread, key))
  {
    var o := Obtain(cfg, Cleanup(cfg, w.table, w.clock), key, w.clock);
    PrologueTidies(cfg, w.table, key, w.clock);
    TidyingKeepsBounds(cfg, w.table, o, w.clock);
    if key in o.slots {
      ReferLogin(cfg, w, o, thread, key);
    } else {
      RefusalLogin(cfg, w, o, key);
    }
  }

  lemma ReferLogin(cfg: Config, w: World, o: Table<Key>, thread: Thread, key: Key)
    requires LoginInv(cfg, w) && key in o.slots && forall k :: Bounded(cfg, Value(o, k))
    ensures LoginInv(cfg, w.(table := Refer(o, key, 1), attempts := w.attempts[thread := Attempt(key, o.slots[key].id, Queued)]))
  {
    assert forall k :: Value(Refer(o, key, 1), k) == Value(o, k);
  }

  lemma RefusalLogin(cfg: Config, w: World, o: Table<Key>, key: Key)
    requires LoginInv(cfg, w) && w.clock >= 0.0 && forall k :: Bounded(cfg, Value(o, k))
    ensures LoginInv(cfg, Note(w, o, Refused(key, w.clock, CapacityRetryAfter(cfg))))
  {
    AskingKeepsLogin(cfg, w.history, Refused(key, w.clock, CapacityRetryAfter(cfg)), w.clock);
  }

  lemma AdmitLogin(cfg: Config, w: World, thread: Thread, stray: int)
    requires cfg.LoginSettings() && Inv(cfg, w) && LoginInv(cfg, w) && In(w, thread, Gated)
    ensures LoginInv(cfg, Admitted(cfg, w, thread, stray))
  {
    var key := w.attempts[thread].key;
    var (table, answer) := Admit(cfg, w.table, key, w.clock);
    ExpiryTidies(cfg, w.table, key, w.clock);
    TidyingKeepsBounds(cfg, w.table, table, w.clock);
    AskingKeepsLogin(cfg, w.history, Asked(key, w.clock, answer), w.clock);
    assert Expire(cfg, Value(w.table, key), w.clock) == Expire(cfg, Replay(cfg, w.history, key), w.clock);
    RetryAfterIsLeast(Expire(cfg, Value(w.table, key), w.clock), w.clock, 0);
  }

  lemma QueryLogin(cfg: Config, w: World, key: Key)
    requires cfg.LoginSettings() && Inv(cfg, w) && LoginInv(cfg, w)
    ensures LoginInv(cfg, Apply(cfg, w, OutsideQuery(key)))
  {
    var (table, answer) := Query(cfg, w.table, key, w.clock);
    QueryTidies(cfg, w.table, key, w.clock);
    TidyingKeepsBounds(cfg, w.table, table, w.clock);
    AskingKeepsLogin(cfg, w.history, Asked(key, w.clock, answer), w.clock);
  }

  /** A verdict by the thread that has the gate: nobody else is inside on that key. */
  lemma VerdictKeepsOthersOpen(cfg: Config, w: World, thread: Thread, e: Event)
    requires Inv(cfg, w) && LoginInv(cfg, w) && In(w, thread, Body(0, false))
    requires Verdict(e) && e.key == w.attempts[thread].key && e.at == w.clock
    ensures Disciplined(cfg, w.history + [e]) && Timed(w.history + [e], w.clock)
    ensures forall t :: t in w.attempts && t != thread && w.attempts[t].phase == Body(0, false) ==>
      Open(cfg, w.history + [e], w.attempts[t].key, w.clock)
  {
    DisciplinedOneMore(cfg, w.history, e);
    forall t | t in w.attempts && t != thread && w.attempts[t].phase == Body(0, false)
      ensures Open(cfg, w.history + [e], w.attempts[t].key, w.clock)
    {
      if w.attempts[t].key == e.key {
        OneThreadPerKey(w, t, thread);
      }
      ReplayOneMore(cfg, w.history, e, w.attempts[t].key);
    }
  }

  /** A failure on a key whose state is held is recorded, never refused for capacity. */
  lemma HeldFailureIsRecorded(cfg: Config, w: World, thread: Thread)
    requires Inv(cfg, w) && thread in w.attempts
    ensures w.attempts[thread].key in RecordFailure(cfg, w.table, w.attempts[thread].key, w.clock).0.slots
  {
    var key := w.attempts[thread].key;
    var o := Obtain(cfg, Cleanup(cfg, w.table, w.clock), key, w.clock);
    PrologueTidies(cfg, w.table, key, w.clock);
    TidyingKeepsHolds(cfg, w.table, o, w.attempts, w.clock);
  }

  lemma FailureBounded(cfg: Config, w: World, key: Key)
    requires cfg.LoginSettings() && Inv(cfg, w) && LoginInv(cfg, w) && Open(cfg, w.history, key, w.clock)
    ensures forall k :: Bounded(cfg, Value(RecordFailure(cfg, w.table, key, w.clock).0, k))
  {
    var o := Obtain(cfg, Cleanup(cfg, w.table, w.clock), key, w.clock);
    var table := RecordFailure(cfg, w.table, key, w.clock).0;
    PrologueTidies(cfg, w.table, key, w.clock);
    TidyingKeepsBounds(cfg, w.table, o, w.clock);
    assert Expire(cfg, Value(w.table, key), w.clock) == Expire(cfg, Replay(cfg, w.history, key), w.clock);
    RecordBounded(cfg, Value(o, key), w.clock);
    assert forall k :: k != key ==> Value(table, k) == Value(o, k);
  }

  lemma FailLogin(cfg: Config, w: World, thread: Thread)
    requires cfg.LoginSettings() && Inv(cfg, w) && LoginInv(cfg, w) && In(w, thread, Body(0, false))
    ensures LoginInv(cfg, Apply(cfg, w, FailStep(thread)))
  {
    var key := w.attempts[thread].key;
    var answer := RecordFailure(cfg, w.table, key, w.clock).1;
    HeldFailureIsRecorded(cfg, w, thread);
    FailureBounded(cfg, w, key);
    VerdictKeepsOthersOpen(cfg, w, thread, Recorded(key, w.clock, answer));
  }

  lemma ClearedValues(t: Table<Key>, key: Key)
    ensures forall k :: Value(Clear(t, key), k) == if k == key then EMPTY else Value(t, k)
  {
  }

  lemma SucceedLogin(cfg: Config, w: World, thread: Thread)
    requires cfg.LoginSettings() && Inv(cfg, w) && LoginInv(cfg, w) && In(w, thread, Body(0, false))
    ensures LoginInv(cfg, Apply(cfg, w, SucceedStep(thread)))
  {
    var key := w.attempts[thread].key;
    VerdictKeepsOthersOpen(cfg, w, thread, Cleared(key, w.clock));
    ClearedValues(w.table, key);
  }

  lemma GateLogin(cfg: Config, w: World, gates: map<nat, Thread>, thread: Thread, phase: Phase)
    requires LoginInv(cfg, w) && thread in w.attempts && !phase.Body?
    ensures LoginInv(cfg, Move(w.(gates := gates), thread, phase))
  {
  }

  lemma LeaveLogin(cfg: Config, w: World, thread: Thread)
    requires Inv(cfg, w) && LoginInv(cfg, w) && In(w, thread, Leaving)
    ensures LoginInv(cfg, Left(w, thread))
  {
    LeaveKeepsValues(cfg, w, thread);
  }

  lemma LoginStepInv(cfg: Config, w: World, step: Step)
    requires cfg.LoginSettings() && Inv(cfg, w) && LoginInv(cfg, w) && Enabled(w, step) && step.OfLogin()
    ensures LoginInv(cfg, Apply(cfg, w, step))
  {
    match step
    case Tick(elapsed) => TickLogin(cfg, w, elapsed);
    case EnterStep(thread, key) => EnterLogin(cfg, w, thread, key);
    case AcquireGate(thread) => GateLogin(cfg, w, w.gates[w.attempts[thread].id := thread], thread, Gated);
    case AdmitStep(thread, stray) => AdmitLogin(cfg, w, thread, stray);
    case FailStep(thread) => FailLogin(cfg, w, thread);
    case SucceedStep(thread) => SucceedLogin(cfg, w, thread);
    case ReleaseGate(thread) => GateLogin(cfg, w, w.gates - {w.attempts[thread].id}, thread, Leaving);
    case LeaveStep(thread) => LeaveLogin(cfg, w, thread);
    case OutsideQuery(key) => QueryLogin(cfg, w, key);
  }

  ghost predicate LoginRun(cfg: Config, worlds: seq<World>, steps: seq<Step>) {
    cfg.LoginSettings() && Run(cfg, worlds, steps) && forall i :: 0 <= i < |steps| ==> steps[i].OfLogin()
  }

  lemma {:induction false} LoginRunInv(cfg: Config, worlds: seq<World>, steps: seq<Step>, n: nat)
    requires LoginRun(cfg, worlds, steps) && n <= |steps|
    ensures LoginInv(cfg, worlds[n])
  {
    if n > 0 {
      LoginRunInv(cfg, worlds, steps, n - 1);
      RunInv(cfg, worlds, steps, n - 1);
      LoginStepInv(cfg, worlds[n - 1], steps[n - 1]);
    }
  }

  /** No state ever holds more than maxFailures failures; an unlocked one holds fewer. */
  lemma FailuresBounded(cfg: Config, worlds: seq<World>, steps: seq<Step>, n: nat, key: Key)
    requires LoginRun(cfg, worlds, steps) && n <= |steps| && key in worlds[n].table.slots
    ensures var s := worlds[n].table.slots[key].state;
      && |s.failures| <= cfg.maxFailures
      && (s.lockedUntil == 0.0 ==> |s.failures| < cfg.maxFailures)
  {
    LoginRunInv(cfg, worlds, steps, n);
    assert Bounded(cfg, Value(worlds[n].table, key));
  }

  /** A locking failure keeps everyone out of the key for the whole lockout. */
  lemma LockoutIsServed(cfg: Config, worlds: seq<World>, steps: seq<Step>, n: nat, i: nat, j: nat)
    requires LoginRun(cfg, worlds, steps) && n <= |steps|
    requires var h := worlds[n].history;
      && i < j < |h| && h[i].key == h[j].key && h[i].Recorded? && h[i].answer != 0
      && (Verdict(h[j]) || (h[j].Asked? && h[j].answer == 0))
    ensures worlds[n].history[j].at >= worlds[n].history[i].at + cfg.lockoutSeconds as real
  {
    LoginRunInv(cfg, worlds, steps, n);
    RunInv(cfg, worlds, steps, n);
    LockKeepsOut(cfg, worlds[n].history, i, j, worlds[n].clock);
  }

  /** Within one failure window, with no success and no lock that was set and ended meanwhile, a key
      sees at most maxFailures failed verifications. */
  lemma GuessesAreLimited(
      cfg: Config, worlds: seq<World>, steps: seq<Step>, n: nat, key: Key, a: nat, b: nat, from: real)
    requires LoginRun(cfg, worlds, steps) && n <= |steps|
    requires QuietSpan(cfg, worlds[n].history, key, a, b, from)
    ensures Failures(worlds[n].history, key, a, b) <= cfg.maxFailures
  {
    LoginRunInv(cfg, worlds, steps, n);
    RateLimit(cfg, worlds[n].history, key, a, b, from, worlds[n].clock);
  }

  /** In less than window and lockout, with no success, there are never more. */
  lemma ShortSpansAreLimited(
      cfg: Config, worlds: seq<World>, steps: seq<Step>, n: nat, key: Key, a: nat, b: nat, from: real)
    requires LoginRun(cfg, worlds, steps) && n <= |steps|
    requires ShortSpan(cfg, worlds[n].history, key, a, b, from)
    ensures Failures(worlds[n].history, key, a, b) <= cfg.maxFailures
  {
    LoginRunInv(cfg, worlds, steps, n);
    ShortSpanIsQuiet(cfg, worlds[n].history, key, a, b, from);
    GuessesAreLimited(cfg, worlds, steps, n, key, a, b, from);
  }
}
