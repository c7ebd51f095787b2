/** The expiring lease of app/execution_lock.py: the table and the context manager as the
    source writes them, and all interleavings of contenders, whose clock reading, upsert and
    release are separate steps and who may crash between any two of them. */
module ExecutionLeases {
  import opened Outcomes

  type RuleId = int
  type Token = nat    // uuid4().hex: a new one for every use of the context manager

  datatype Row = Row(ownerToken: Token, expiresAt: int)

  /** The conflict clause: insert, or overwrite a row that expired by `acquiredAt`. */
  predicate Free(rows: map<RuleId, Row>, rule: RuleId, acquiredAt: int) {
    rule in rows ==> rows[rule].expiresAt <= acquiredAt
  }

  function Deleted(rows: map<RuleId, Row>, rule: RuleId, token: Token): map<RuleId, Row> {
    if rule in rows && rows[rule].ownerToken == token then rows - {rule} else rows
  }

  // ----- the context manager -----

  datatype Failure = InvalidLease | AcquireError | InProgress | BodyError | ReleaseError

  datatype Outcome = Finished | Raised(failure: Failure)

  function EntryFailure(leaseSeconds: int, upsertRaises: bool, free: bool): Option<Failure> {
    if leaseSeconds < 1 then Some(InvalidLease)
    else if upsertRaises then Some(AcquireError)
    else if !free then Some(InProgress) else None
  }

  function ExitOutcome(bodyRaises: bool, releaseRaises: bool): Outcome {
    if bodyRaises then Raised(BodyError) else if releaseRaises then Raised(ReleaseError) else Finished
  }

  class LeaseTable {
    var rows: map<RuleId, Row>

    /** The upsert and its commit; the answer is whether a row was written. */
    method Acquire(rule: RuleId, token: Token, acquiredAt: int, leaseSeconds: int) returns (acquired: bool)
      modifies this
      ensures acquired == old(Free(rows, rule, acquiredAt))
      ensures rows == if acquired then old(rows)[rule := Row(token, acquiredAt + leaseSeconds)] else old(rows)
    {
      acquired := rule !in rows || rows[rule].expiresAt <= acquiredAt;
      if acquired {
        rows := rows[rule := Row(token, acquiredAt + leaseSeconds)];
      }
    }

    /** Deletes the row only if it still carries the token. */
    method Release(rule: RuleId, token: Token)
      modifies this
      ensures rows == old(Deleted(rows, rule, token))
    {
      if rule in rows && rows[rule].ownerToken == token {
        rows := rows - {rule};
      }
    }

    /** The context manager up to its `yield`; a failure means that the body is not entered. */
    method Enter(rule: RuleId, token: Token, acquiredAt: int, leaseSeconds: int, upsertRaises: bool)
        returns (failure: Option<Failure>)
      modifies this
      ensures failure == EntryFailure(leaseSeconds, upsertRaises, old(Free(rows, rule, acquiredAt)))
      ensures rows == if failure.None? then old(rows)[rule := Row(token, acquiredAt + leaseSeconds)] else old(rows)
    {
      if leaseSeconds < 1 {
        return Some(InvalidLease);
      }
      if upsertRaises {
        return Some(AcquireError);
      }
      var acquired := Acquire(rule, token, acquiredAt, leaseSeconds);
      return if acquired then None else Some(InProgress);
    }

    /** The context manager after its `yield`: what the caller sees, and what becomes of the row. */
    method Exit(rule: RuleId, token: Token, bodyRaises: bool, releaseRaises: bool) returns (outcome: Outcome)
      modifies this
      ensures outcome == ExitOutcome(bodyRaises, releaseRaises)
      ensures rows == if releaseRaises then old(rows) else old(Deleted(rows, rule, token))
    {
      if !releaseRaises {
        Release(rule, token);
      }
      return if bodyRaises then Raised(BodyError) else if releaseRaises then Raised(ReleaseError) else Finished;
    }

    /** One use of the context manager; `during` is the table as the others left it while the
        body ran, and the flags say which of the calls raise. */
    method WithLease(rule: RuleId, token: Token, acquiredAt: int, leaseSeconds: int,
                     upsertRaises: bool, bodyRaises: bool, releaseRaises: bool, during: map<RuleId, Row>)
        returns (outcome: Outcome, bodyRan: bool)
      modifies this
      ensures bodyRan <==> leaseSeconds >= 1 && !upsertRaises && old(Free(rows, rule, acquiredAt))
      ensures !bodyRan ==> rows == old(rows) && outcome.Raised?
      // which exception the caller sees, in every case; the body's own comes before the release's
      ensures outcome == Raised(InvalidLease) <==> leaseSeconds < 1
      ensures outcome == Raised(AcquireError) <==> leaseSeconds >= 1 && upsertRaises
      ensures outcome == Raised(InProgress) <==> leaseSeconds >= 1 && !upsertRaises && !old(Free(rows, rule, acquiredAt))
      ensures outcome == Raised(BodyError) <==> bodyRan && bodyRaises
      ensures outcome == Raised(ReleaseError) <==> bodyRan && !bodyRaises && releaseRaises
      ensures outcome == Finished <==> bodyRan && !bodyRaises && !releaseRaises
      // a successor's row is never deleted, whoever releases late
      ensures bodyRan ==> rows == if releaseRaises then during else Deleted(during, rule, token)
    {
      var failure := Enter(rule, token, acquiredAt, leaseSeconds, upsertRaises);
      if failure.Some? {
        return Raised(failure.value), false;
      }
      rows := during;
      outcome := Exit(rule, token, bodyRaises, releaseRaises);
      bodyRan := true;
    }
  }

  // ----- all interleavings -----

  datatype Phase =
    | Read(acquiredAt: int, leaseSeconds: int)   // clock read, upsert to come
    | Holding(expiresAt: int, running: bool)     // unreleased; not running after a crash or a failed release
    | Rejected
    | Released

  datatype Contender = Contender(rule: RuleId, phase: Phase)

  datatype World = World(clock: int, rows: map<RuleId, Row>, contenders: map<Token, Contender>)

  datatype Step =
    | Tick(elapsed: nat)
    | ReadClock(token: Token, rule: RuleId, leaseSeconds: int)
    | Upsert(token: Token)
    | UpsertFails(token: Token)
    | Release(token: Token)
    | Abandon(token: Token)                      // crash, or a release that raised

  predicate Reading(w: World, token: Token) {
    token in w.contenders && w.contenders[token].phase.Read?
  }

  predicate Running(w: World, token: Token) {
    token in w.contenders && w.contenders[token].phase.Holding? && w.contenders[token].phase.running
  }

  predicate Enabled(w: World, step: Step) {
    match step
    case Tick(_) => true
    case ReadClock(token, _, leaseSeconds) => token !in w.contenders && leaseSeconds >= 1
    case Upsert(token) => Reading(w, token)
    case UpsertFails(token) => Reading(w, token)
    case Release(token) => Running(w, token)
    case Abandon(token) => Running(w, token)
  }

  function To(w: World, token: Token, phase: Phase): World
    requires token in w.contenders
  {
    w.(contenders := w.contenders[token := w.contenders[token].(phase := phase)])
  }

  function Upserted(w: World, token: Token): World
    requires Reading(w, token)
  {
    var c := w.contenders[token];
    var expiresAt := c.phase.acquiredAt + c.phase.leaseSeconds;
    if Free(w.rows, c.rule, c.phase.acquiredAt)
    then To(w.(rows := w.rows[c.rule := Row(token, expiresAt)]), token, Holding(expiresAt, true))
    else To(w, token, Rejected)
  }

  function Apply(w: World, step: Step): World
    requires Enabled(w, step)
  {
    match step
    case Tick(elapsed) => w.(clock := w.clock + elapsed)
    case ReadClock(token, rule, leaseSeconds) =>
      w.(contenders := w.contenders[token := Contender(rule, Read(w.clock, leaseSeconds))])
    case Upsert(token) => Upserted(w, token)
    case UpsertFails(token) => To(w, token, Rejected)
    case Release(token) => To(w.(rows := Deleted(w.rows, w.contenders[token].rule, token)), token, Released)
    case Abandon(token) => To(w, token, Holding(w.contenders[token].phase.expiresAt, false))
  }

  ghost predicate Run(worlds: seq<World>, steps: seq<Step>) {
    && |worlds| == |steps| + 1
    && worlds[0].rows == map[] && worlds[0].contenders == map[]
    && forall i :: 0 <= i < |steps| ==> Enabled(worlds[i], steps[i]) && worlds[i + 1] == Apply(worlds[i], steps[i])
  }

  /** Unreleased, and the lease not yet over. */
  predicate Live(w: World, token: Token) {
    token in w.contenders && w.contenders[token].phase.Holding? && w.contenders[token].phase.expiresAt > w.clock
  }

  ghost predicate Inv(w: World) {
    && (forall t :: Reading(w, t) ==> w.contenders[t].phase.acquiredAt <= w.clock)
    && (forall t :: Live(w, t) ==>
        && w.contenders[t].rule in w.rows
        && w.rows[w.contenders[t].rule] == Row(t, w.contenders[t].phase.expiresAt))
    && (forall r :: r in w.rows ==>
        && w.rows[r].ownerToken in w.contenders
        && w.contenders[w.rows[r].ownerToken].rule == r
        && w.contenders[w.rows[r].ownerToken].phase.Holding?
        && w.contenders[w.rows[r].ownerToken].phase.expiresAt == w.rows[r].expiresAt)
  }

  lemma StepInv(w: World, step: Step)
    requires Inv(w) && Enabled(w, step)
    ensures Inv(Apply(w, step))
  {
    var v := Apply(w, step);
    forall t | Live(v, t)
      ensures v.contenders[t].rule in v.rows && v.rows[v.contenders[t].rule] == Row(t, v.contenders[t].phase.expiresAt)
    {
      if step.Upsert? && step.token == t {
      } else {
        assert Live(w, t);
      }
    }
  }

  lemma {:induction false} RunInv(worlds: seq<World>, steps: seq<Step>, n: nat)
    requires Run(worlds, steps) && n <= |steps|
    ensures Inv(worlds[n])
  {
    if n > 0 {
      RunInv(worlds, steps, n - 1);
      StepInv(worlds[n - 1], steps[n - 1]);
    }
  }

  /** What a contender got from its clock reading: a lease that ends so many seconds after that reading. */
  predicate ReadAt(worlds: seq<World>, steps: seq<Step>, i: nat, token: Token, c: Contender)
    requires i < |steps| && |worlds| == |steps| + 1
  {
    && steps[i].ReadClock? && steps[i].token == token && steps[i].rule == c.rule
    && match c.phase
       case Read(acquiredAt, leaseSeconds) => acquiredAt == worlds[i].clock && leaseSeconds == steps[i].leaseSeconds
       case Holding(expiresAt, _) => expiresAt == worlds[i].clock + steps[i].leaseSeconds
       case _ => true
  }

  /** However late the upsert comes, the lease is counted from the clock reading. */
  lemma {:induction false} LeaseCountsFromReading(worlds: seq<World>, steps: seq<Step>, n: nat, token: Token) returns (i: nat)
    requires Run(worlds, steps) && n <= |steps| && token in worlds[n].contenders
    ensures i < n && ReadAt(worlds, steps, i, token, worlds[n].contenders[token])
  {
    assert n > 0;
    assert Enabled(worlds[n - 1], steps[n - 1]) && worlds[n] == Apply(worlds[n - 1], steps[n - 1]);
    if token in worlds[n - 1].contenders {
      i := LeaseCountsFromReading(worlds, steps, n - 1, token);
    } else {
      i := n - 1;
    }
  }

  lemma {:induction false} NoLongerReading(worlds: seq<World>, steps: seq<Step>, i: nat, n: nat, token: Token)
    requires Run(worlds, steps) && i <= n <= |steps|
    requires token in worlds[i].contenders && !Reading(worlds[i], token)
    ensures token in worlds[n].contenders && !Reading(worlds[n], token)
  {
    if i < n {
      NoLongerReading(worlds, steps, i, n - 1, token);
      assert Enabled(worlds[n - 1], steps[n - 1]) && worlds[n] == Apply(worlds[n - 1], steps[n - 1]);
    }
  }

  /** One use of the context manager tries once: a refused or failed upsert is not repeated. */
  lemma OneTry(worlds: seq<World>, steps: seq<Step>, i: nat, j: nat)
    requires Run(worlds, steps) && i < j < |steps|
    requires (steps[i].Upsert? || steps[i].UpsertFails?) && (steps[j].Upsert? || steps[j].UpsertFails?)
    ensures steps[i].token != steps[j].token
  {
    assert Enabled(worlds[i], steps[i]) && worlds[i + 1] == Apply(worlds[i], steps[i]);
    NoLongerReading(worlds, steps, i + 1, j, steps[i].token);
    assert Enabled(worlds[j], steps[j]);
  }

  /** Per rule at most one contender is unreleased with its lease not over, and the row is its
      own: with stale clock readings, crashes, failed upserts and late releases. */
  lemma AtMostOneLive(worlds: seq<World>, steps: seq<Step>, n: nat, t1: Token, t2: Token)
    requires Run(worlds, steps) && n <= |steps|
    requires Live(worlds[n], t1) && Live(worlds[n], t2)
    requires worlds[n].contenders[t1].rule == worlds[n].contenders[t2].rule
    ensures t1 == t2
    ensures worlds[n].contenders[t1].rule in worlds[n].rows
    ensures worlds[n].rows[worlds[n].contenders[t1].rule] == Row(t1, worlds[n].contenders[t1].phase.expiresAt)
  {
    RunInv(worlds, steps, n);
  }

  /** Bodies of one rule exclude each other as long as they end within their leases. */
  lemma BodiesExclude(worlds: seq<World>, steps: seq<Step>, n: nat, t1: Token, t2: Token)
    requires Run(worlds, steps) && n <= |steps|
    requires Running(worlds[n], t1) && Running(worlds[n], t2) && t1 != t2
    requires worlds[n].contenders[t1].rule == worlds[n].contenders[t2].rule
    ensures !Live(worlds[n], t1) || !Live(worlds[n], t2)
  {
    RunInv(worlds, steps, n);
  }

  /** A second body starts beside the one that owns the row exactly if the newcomer read the
      clock at or after the end of the owner's lease. */
  lemma JoinedExactlyAfterExpiry(worlds: seq<World>, steps: seq<Step>, n: nat, owner: Token, token: Token)
    requires Run(worlds, steps) && n <= |steps|
    requires Running(worlds[n], owner) && Reading(worlds[n], token)
    requires var rule := worlds[n].contenders[token].rule;
      rule in worlds[n].rows && worlds[n].rows[rule].ownerToken == owner
    ensures var v := Apply(worlds[n], Upsert(token));
      && Running(v, owner)
      && (Running(v, token) <==>
          worlds[n].contenders[token].phase.acquiredAt >= worlds[n].contenders[owner].phase.expiresAt)
  {
    RunInv(worlds, steps, n);
  }

  predicate RunningOf(w: World, token: Token, rule: RuleId) {
    Running(w, token) && w.contenders[token].rule == rule
  }

  /** The step overwrites the expired row of a body that is still running. */
  predicate TakesOver(w: World, step: Step, rule: RuleId) {
    && step.Upsert? && Reading(w, step.token) && w.contenders[step.token].rule == rule
    && rule in w.rows && Running(w, w.rows[rule].ownerToken)
    && w.contenders[step.token].phase.acquiredAt >= w.rows[rule].expiresAt
  }

  ghost predicate NeverTakenOver(worlds: seq<World>, steps: seq<Step>, rule: RuleId, n: nat)
    requires |steps| < |worlds| && n <= |steps|
  {
    forall i :: 0 <= i < n ==> !TakesOver(worlds[i], steps[i], rule)
  }

  /** Until a running body's row is overwritten, a running body owns the row. */
  lemma {:induction false} RunningOwnsRow(
      worlds: seq<World>, steps: seq<Step>, rule: RuleId, n: nat, token: Token)
    requires Run(worlds, steps) && n <= |steps| && NeverTakenOver(worlds, steps, rule, n)
    requires RunningOf(worlds[n], token, rule)
    ensures rule in worlds[n].rows && worlds[n].rows[rule].ownerToken == token
  {
    if n > 0 {
      var w, step := worlds[n - 1], steps[n - 1];
      RunInv(worlds, steps, n - 1);
      assert worlds[n] == Apply(w, step) && !TakesOver(w, step, rule);
      if RunningOf(w, token, rule) {
        RunningOwnsRow(worlds, steps, rule, n - 1, token);
      }
      if step.Release? && RunningOf(w, step.token, rule) {
        RunningOwnsRow(worlds, steps, rule, n - 1, step.token);
      }
    }
  }

  /** Two different bodies of a rule are running at some time. */
  ghost predicate TwoRunning(w: World, rule: RuleId) {
    exists t1, t2 :: t1 != t2 && RunningOf(w, t1, rule) && RunningOf(w, t2, rule)
  }

  /** Over a whole run two bodies of a rule run at once exactly if some upsert takes the row of a
      body that is still running, having read the clock at or after the end of that row's lease. */
  lemma TwoRunExactlyAfterTakeover(worlds: seq<World>, steps: seq<Step>, rule: RuleId)
    requires Run(worlds, steps)
    ensures (exists n :: 0 <= n <= |steps| && TwoRunning(worlds[n], rule)) <==>
      (exists i :: 0 <= i < |steps| && TakesOver(worlds[i], steps[i], rule))
  {
    if n :| 0 <= n <= |steps| && TwoRunning(worlds[n], rule) {
      if NeverTakenOver(worlds, steps, rule, n) {
        var t1, t2 :| t1 != t2 && RunningOf(worlds[n], t1, rule) && RunningOf(worlds[n], t2, rule);
        RunningOwnsRow(worlds, steps, rule, n, t1);
        RunningOwnsRow(worlds, steps, rule, n, t2);
      }
    }
    if i :| 0 <= i < |steps| && TakesOver(worlds[i], steps[i], rule) {
      TakeoverJoins(worlds, steps, rule, i);
    }
  }

  lemma TakeoverJoins(worlds: seq<World>, steps: seq<Step>, rule: RuleId, i: nat)
    requires Run(worlds, steps) && i < |steps| && TakesOver(worlds[i], steps[i], rule)
    ensures TwoRunning(worlds[i + 1], rule)
  {
    RunInv(worlds, steps, i);
    var w, v, owner := worlds[i], worlds[i + 1], worlds[i].rows[rule].ownerToken;
    assert v == Apply(w, steps[i]);
    assert RunningOf(v, owner, rule) && RunningOf(v, steps[i].token, rule) && owner != steps[i].token;
  }

  /** A newcomer may also have read the clock before that: once two bodies of a rule have run at once
      and the later one has released, a contender with an early reading starts beside the other. */
  lemma EarlyReaderMayJoin() returns (worlds: seq<World>, steps: seq<Step>)
    ensures Run(worlds, steps) && |steps| == 8 && steps[7] == Upsert(3)
    ensures var w := worlds[7];
      && w.rows == map[] && RunningOf(w, 1, 7) && (forall t :: RunningOf(w, t, 7) ==> t == 1)
      && w.contenders[3].phase.Read? && w.contenders[3].phase.acquiredAt < w.contenders[1].phase.expiresAt
    ensures RunningOf(worlds[8], 1, 7) && RunningOf(worlds[8], 3, 7)
  {
    steps := [ReadClock(3, 7, 10), ReadClock(1, 7, 10), Upsert(1), Tick(10), ReadClock(2, 7, 10), Upsert(2),
              Release(2), Upsert(3)];
    var early, late, first := Contender(7, Read(0, 10)), Contender(7, Read(10, 10)), Contender(7, Holding(10, true));
    var second := Contender(7, Holding(20, true));
    worlds := [
      World(0, map[], map[]),
      World(0, map[], map[3 := early]),
      World(0, map[], map[3 := early, 1 := early]),
      World(0, map[7 := Row(1, 10)], map[3 := early, 1 := first]),
      World(10, map[7 := Row(1, 10)], map[3 := early, 1 := first]),
      World(10, map[7 := Row(1, 10)], map[3 := early, 1 := first, 2 := late]),
      World(10, map[7 := Row(2, 20)], map[3 := early, 1 := first, 2 := second]),
      World(10, map[], map[3 := early, 1 := first, 2 := second.(phase := Released)]),
      World(10, map[7 := Row(3, 10)], map[3 := first, 1 := first, 2 := second.(phase := Released)])];
    forall i | 0 <= i < 8
      ensures Enabled(worlds[i], steps[i]) && worlds[i + 1] == Apply(worlds[i], steps[i])
    {
      assert i == 0 || i == 1 || i == 2 || i == 3 || i == 4 || i == 5 || i == 6 || i == 7;
    }
  }

  /** The lease does not stop a body that outlives it: a run with two running bodies of a rule. */
  lemma ExpiredBodyMayBeJoined() returns (worlds: seq<World>, steps: seq<Step>)
    ensures Run(worlds, steps)
    ensures var w := worlds[|steps|];
      exists t1, t2 :: t1 != t2 && Running(w, t1) && Running(w, t2) && w.contenders[t1].rule == w.contenders[t2].rule
  {
    steps := [ReadClock(1, 7, 10), Upsert(1), Tick(10), ReadClock(2, 7, 10), Upsert(2)];
    var w0 := World(0, map[], map[]);
    var w1 := Apply(w0, steps[0]);
    var w2 := Apply(w1, steps[1]);
    var w3 := Apply(w2, steps[2]);
    var w4 := Apply(w3, steps[3]);
    var w5 := Apply(w4, steps[4]);
    worlds := [w0, w1, w2, w3, w4, w5];
    assert worlds[|steps|] == w5 && Running(w5, 1) && Running(w5, 2);
    assert w5.contenders[1].rule == w5.contenders[2].rule;
  }

  /** After the lease of a row is over (its owner crashed, say), the next contender to read the
      clock gets the rule, however long it takes to its upsert, if no other upsert on the rule
      comes first. */
  lemma {:induction false} ExpiredRowIsTaken(worlds: seq<World>, steps: seq<Step>, n: nat, m: nat, token: Token, rule: RuleId)
    requires Run(worlds, steps) && n < m < |steps|
    requires steps[n].ReadClock? && steps[n].token == token && steps[n].rule == rule
    requires rule in worlds[n].rows ==> worlds[n].rows[rule].expiresAt <= worlds[n].clock
    requires forall i :: n < i < m && steps[i].Upsert? ==> worlds[i].contenders[steps[i].token].rule != rule
    requires steps[m] == Upsert(token)
    ensures Running(worlds[m + 1], token) && rule in worlds[m + 1].rows && worlds[m + 1].rows[rule].ownerToken == token
  {
    StaysFree(worlds, steps, n, m, token, rule);
  }

  lemma {:induction false} StaysFree(worlds: seq<World>, steps: seq<Step>, n: nat, m: nat, token: Token, rule: RuleId)
    requires Run(worlds, steps) && n < m <= |steps|
    requires steps[n].ReadClock? && steps[n].token == token && steps[n].rule == rule
    requires rule in worlds[n].rows ==> worlds[n].rows[rule].expiresAt <= worlds[n].clock
    requires forall i :: n < i < m && steps[i].Upsert? ==> worlds[i].contenders[steps[i].token].rule != rule
    ensures token in worlds[m].contenders && worlds[m].contenders[token].rule == rule
    ensures Reading(worlds[m], token) ==> worlds[m].contenders[token].phase.acquiredAt == worlds[n].clock
    ensures Free(worlds[m].rows, rule, worlds[n].clock)
    decreases m
  {
    if m > n + 1 {
      StaysFree(worlds, steps, n, m - 1, token, rule);
      assert worlds[m] == Apply(worlds[m - 1], steps[m - 1]);
    }
  }
}
