/** The table `_states` of the limiter and each section that runs under `_lock`,
    as functions from table to table. The class in LoginRateLimiter.dfy refines
    them; LimiterConcurrency.dfy interleaves them. */
module LimiterTables {
  import opened AttemptStates

  /** One `_AttemptState` object: `id` stands for the object's identity. */
  datatype Slot = Slot(id: nat, state: KeyState, references: int)

  /** An OrderedDict: insertion order and contents. `nextId` numbers the objects created so far. */
  datatype Table<!K> = Table(order: seq<K>, slots: map<K, Slot>, nextId: nat, nextCleanupAt: real)

  ghost predicate Distinct<K(!new)>(order: seq<K>) {
    forall i, j :: 0 <= i < j < |order| ==> order[i] != order[j]
  }

  /** The order lists exactly the keys, each once. */
  ghost predicate Listed<K(!new)>(t: Table<K>) {
    Distinct(t.order) && (forall k :: k in t.order <==> k in t.slots)
  }

  ghost predicate WellFormed<K(!new)>(t: Table<K>) {
    && Listed(t)
    && (forall k :: k in t.slots ==> t.slots[k].id < t.nextId)
    && (forall k, l :: k in t.slots && l in t.slots && k != l ==> t.slots[k].id != t.slots[l].id)
  }

  /** What the table says about a key; a key without a state counts as empty. */
  function Value<K>(t: Table<K>, key: K): KeyState {
    if key in t.slots then t.slots[key].state else EMPTY
  }

  function Without<K(==)>(order: seq<K>, key: K): (r: seq<K>) {
    if order == [] then []
    else if order[0] == key then order[1..]
    else [order[0]] + Without(order[1..], key)
  }

  predicate Inactive(slot: Slot) {
    slot.references == 0 && slot.state == EMPTY
  }

  /** Whether `_states.get(key) is state`. */
  predicate Attached<K>(t: Table<K>, key: K, id: nat) {
    key in t.slots && t.slots[key].id == id
  }

  function Discard<K>(t: Table<K>, key: K, id: nat): Table<K> {
    if Attached(t, key, id) && Inactive(t.slots[key])
    then t.(order := Without(t.order, key), slots := t.slots - {key})
    else t
  }

  function Put<K>(t: Table<K>, key: K, state: KeyState): Table<K>
    requires key in t.slots
  {
    t.(slots := t.slots[key := t.slots[key].(state := state)])
  }

  function Refer<K>(t: Table<K>, key: K, change: int): Table<K>
    requires key in t.slots
  {
    t.(slots := t.slots[key := t.slots[key].(references := t.slots[key].references + change)])
  }

  /** `_current_state`; the key is in the resulting table iff the source returns a state. */
  function Current<K>(cfg: Config, t: Table<K>, key: K, now: real): Table<K> {
    if key !in t.slots then t
    else Discard(Put(t, key, Expire(cfg, t.slots[key].state, now)), key, t.slots[key].id)
  }

  /** `_reserve_state`; unchanged when the table is full. */
  function Reserve<K>(cfg: Config, t: Table<K>, key: K): Table<K> {
    if |t.order| >= cfg.maxStates then t
    else t.(order := t.order + [key], slots := t.slots[key := Slot(t.nextId, EMPTY, 0)], nextId := t.nextId + 1)
  }

  /** One turn of the cleanup loop: pop the oldest entry, put it back last if still active. */
  function Rotate<K>(cfg: Config, t: Table<K>, now: real): Table<K>
    requires t.order != [] && t.order[0] in t.slots
  {
    var key := t.order[0];
    var slot := t.slots[key].(state := Expire(cfg, t.slots[key].state, now));
    if Inactive(slot) then t.(order := t.order[1..], slots := t.slots - {key})
    else t.(order := t.order[1..] + [key], slots := t.slots[key := slot])
  }

  function Rotations<K>(cfg: Config, t: Table<K>, now: real, n: nat): Table<K>
    decreases n
  {
    if n == 0 || t.order == [] || t.order[0] !in t.slots then t
    else Rotations(cfg, Rotate(cfg, t, now), now, n - 1)
  }

  function Batch<K>(cfg: Config, t: Table<K>): nat {
    if cfg.cleanupBatchSize < 0 then 0
    else if cfg.cleanupBatchSize < |t.order| then cfg.cleanupBatchSize else |t.order|
  }

  predicate CleanupDue<K>(t: Table<K>, now: real) {
    now >= t.nextCleanupAt
  }

  function Cleanup<K>(cfg: Config, t: Table<K>, now: real): Table<K> {
    if !CleanupDue(t, now) then t
    else Rotations(cfg, t.(nextCleanupAt := now + cfg.cleanupIntervalSeconds), now, Batch(cfg, t))
  }

  /** `_current_state` followed, when it returned nothing, by `_reserve_state`. */
  function Obtain<K>(cfg: Config, t: Table<K>, key: K, now: real): Table<K> {
    var c := Current(cfg, t, key, now);
    if key in c.slots then c else Reserve(cfg, c, key)
  }

  // ----- the sections under _lock -----

  /** First section of attempt: the key is in the result iff the attempt was not refused. */
  function Enter<K>(cfg: Config, t: Table<K>, key: K, now: real): Table<K> {
    var o := Obtain(cfg, Cleanup(cfg, t, now), key, now);
    if key in o.slots then Refer(o, key, 1) else o
  }

  /** Second section of attempt, on an attached state. */
  function Admit<K>(cfg: Config, t: Table<K>, key: K, now: real): (Table<K>, int)
    requires key in t.slots
  {
    var state := Expire(cfg, t.slots[key].state, now);
    (Put(t, key, state), RetryAfter(state, now))
  }

  /** Last section of attempt, on an attached state. */
  function Leave<K>(t: Table<K>, key: K): Table<K>
    requires key in t.slots
  {
    Discard(Refer(t, key, -1), key, t.slots[key].id)
  }

  function Query<K>(cfg: Config, t: Table<K>, key: K, now: real): (Table<K>, int) {
    var c := Current(cfg, Cleanup(cfg, t, now), key, now);
    (c, if key in c.slots then RetryAfter(c.slots[key].state, now) else 0)
  }

  /** record_failure; the key is in the result iff the failure was recorded. */
  function RecordFailure<K>(cfg: Config, t: Table<K>, key: K, now: real): (Table<K>, int) {
    var o := Obtain(cfg, Cleanup(cfg, t, now), key, now);
    if key !in o.slots then (o, CapacityRetryAfter(cfg))
    else
      var (state, answer) := Record(cfg, o.slots[key].state, now);
      (Put(o, key, state), answer)
  }

  function Clear<K>(t: Table<K>, key: K): Table<K> {
    if key !in t.slots then t else Discard(Put(t, key, EMPTY), key, t.slots[key].id)
  }

  // ----- what every section keeps -----

  /** The table keeps the entry of every referenced key (same object, same count) ... */
  ghost predicate KeepsReferenced<K(!new)>(t: Table<K>, u: Table<K>) {
    forall k :: k in t.slots && t.slots[k].references != 0 ==>
      k in u.slots && u.slots[k].id == t.slots[k].id && u.slots[k].references == t.slots[k].references
  }

  /** ... gives a key a new object only under a number not used before ... */
  ghost predicate FreshObjects<K(!new)>(t: Table<K>, u: Table<K>) {
    && t.nextId <= u.nextId
    && (forall k :: k in u.slots && !Attached(t, k, u.slots[k].id) ==> t.nextId <= u.slots[k].id && u.slots[k].references == 0)
    && (forall k :: k in u.slots && Attached(t, k, u.slots[k].id) ==> u.slots[k].references == t.slots[k].references)
  }

  /** ... and changes no key's value but by expiring it. */
  ghost predicate SameValues<K(!new)>(cfg: Config, t: Table<K>, u: Table<K>, now: real) {
    forall k :: Value(u, k) == Value(t, k) || Value(u, k) == Expire(cfg, Value(t, k), now)
  }

  /** A section that only tidies the table. */
  ghost predicate Tidies<K(!new)>(cfg: Config, t: Table<K>, u: Table<K>, now: real) {
    && WellFormed(u)
    && KeepsReferenced(t, u)
    && FreshObjects(t, u)
    && SameValues(cfg, t, u, now)
    && |u.order| <= if |t.order| > cfg.maxStates then |t.order| else cfg.maxStates
  }

  lemma TidiesThen<K(!new)>(cfg: Config, t: Table<K>, u: Table<K>, v: Table<K>, now: real)
    requires WellFormed(t) && Tidies(cfg, t, u, now) && Tidies(cfg, u, v, now)
    ensures Tidies(cfg, t, v, now)
  {
    forall k
      ensures Value(v, k) == Value(t, k) || Value(v, k) == Expire(cfg, Value(t, k), now)
    {
      ExpireTwice(cfg, Value(t, k), now, now);
    }
  }

  lemma TidiesAgrees<K(!new)>(cfg: Config, t: Table<K>, u: Table<K>, key: K, now: real)
    requires SameValues(cfg, t, u, now)
    ensures Expire(cfg, Value(u, key), now) == Expire(cfg, Value(t, key), now)
  {
    ExpireTwice(cfg, Value(t, key), now, now);
  }

  lemma {:induction false} WithoutIs<K(!new)>(order: seq<K>, key: K)
    requires Distinct(order)
    ensures Distinct(Without(order, key))
    ensures forall k :: k in Without(order, key) <==> k in order && k != key
    ensures |Without(order, key)| == if key in order then |order| - 1 else |order|
  {
    if order != [] {
      var rest := order[1..];
      assert forall k :: k in order <==> k == order[0] || k in rest;
      assert order[0] !in rest;
      if order[0] != key {
        WithoutIs(rest, key);
        var w := Without(rest, key);
        assert Without(order, key) == [order[0]] + w;
        assert order[0] !in w;
      }
    }
  }

  lemma DiscardTidies<K(!new)>(cfg: Config, t: Table<K>, key: K, id: nat, now: real)
    requires WellFormed(t) && |t.order| <= cfg.maxStates
    ensures Tidies(cfg, t, Discard(t, key, id), now)
  {
    WithoutIs(t.order, key);
  }

  lemma ExpiryTidies<K(!new)>(cfg: Config, t: Table<K>, key: K, now: real)
    requires WellFormed(t) && |t.order| <= cfg.maxStates && key in t.slots
    ensures Tidies(cfg, t, Put(t, key, Expire(cfg, t.slots[key].state, now)), now)
  {
  }

  lemma CurrentTidies<K(!new)>(cfg: Config, t: Table<K>, key: K, now: real)
    requires WellFormed(t) && |t.order| <= cfg.maxStates
    ensures Tidies(cfg, t, Current(cfg, t, key, now), now)
    ensures Value(Current(cfg, t, key, now), key) == Expire(cfg, Value(t, key), now)
  {
    if key in t.slots {
      var u := Put(t, key, Expire(cfg, t.slots[key].state, now));
      ExpiryTidies(cfg, t, key, now);
      DiscardTidies(cfg, u, key, t.slots[key].id, now);
      TidiesThen(cfg, t, u, Current(cfg, t, key, now), now);
    }
  }

  lemma ReserveTidies<K(!new)>(cfg: Config, t: Table<K>, key: K, now: real)
    requires WellFormed(t) && |t.order| <= cfg.maxStates && key !in t.slots
    ensures Tidies(cfg, t, Reserve(cfg, t, key), now)
  {
  }

  lemma RotateKeepsTable<K(!new)>(cfg: Config, t: Table<K>, now: real)
    requires WellFormed(t) && t.order != []
    ensures WellFormed(Rotate(cfg, t, now)) && |Rotate(cfg, t, now).order| <= |t.order|
  {
    var key, u := t.order[0], Rotate(cfg, t, now);
    assert forall k :: k in t.order <==> k == key || k in t.order[1..];
    assert key !in t.order[1..];
    assert forall k :: k in u.order <==> k in u.slots;
  }

  lemma RotateTidies<K(!new)>(cfg: Config, t: Table<K>, now: real)
    requires WellFormed(t) && |t.order| <= cfg.maxStates && t.order != []
    ensures Tidies(cfg, t, Rotate(cfg, t, now), now)
  {
    RotateKeepsTable(cfg, t, now);
  }

  lemma {:induction false} RotationsTidy<K(!new)>(cfg: Config, t: Table<K>, now: real, n: nat)
    requires WellFormed(t) && |t.order| <= cfg.maxStates
    ensures Tidies(cfg, t, Rotations(cfg, t, now, n), now)
    decreases n
  {
    if n != 0 && t.order != [] {
      var u := Rotate(cfg, t, now);
      RotateTidies(cfg, t, now);
      RotationsTidy(cfg, u, now, n - 1);
      TidiesThen(cfg, t, u, Rotations(cfg, t, now, n), now);
    }
  }

  /** The scheduled cleanup never removes, replaces or alters a referenced state,
      and no key's value changes by it except through expiry. */
  lemma CleanupTidies<K(!new)>(cfg: Config, t: Table<K>, now: real)
    requires WellFormed(t) && |t.order| <= cfg.maxStates
    ensures Tidies(cfg, t, Cleanup(cfg, t, now), now)
  {
    if CleanupDue(t, now) {
      var u := t.(nextCleanupAt := now + cfg.cleanupIntervalSeconds);
      RotationsTidy(cfg, u, now, Batch(cfg, t));
    }
  }

  lemma ObtainTidies<K(!new)>(cfg: Config, t: Table<K>, key: K, now: real)
    requires WellFormed(t) && |t.order| <= cfg.maxStates
    ensures Tidies(cfg, t, Obtain(cfg, t, key, now), now)
    ensures Value(Obtain(cfg, t, key, now), key) == Expire(cfg, Value(t, key), now)
  {
    var c := Current(cfg, t, key, now);
    CurrentTidies(cfg, t, key, now);
    if key !in c.slots {
      ReserveTidies(cfg, c, key, now);
      TidiesThen(cfg, t, c, Reserve(cfg, c, key), now);
    }
  }

  /** Cleanup followed by the search for the key's state: the common beginning of
      attempt and record_failure. */
  lemma PrologueTidies<K(!new)>(cfg: Config, t: Table<K>, key: K, now: real)
    requires WellFormed(t) && |t.order| <= cfg.maxStates
    ensures Tidies(cfg, t, Obtain(cfg, Cleanup(cfg, t, now), key, now), now)
    ensures Value(Obtain(cfg, Cleanup(cfg, t, now), key, now), key) == Expire(cfg, Value(t, key), now)
  {
    var c := Cleanup(cfg, t, now);
    CleanupTidies(cfg, t, now);
    ObtainTidies(cfg, c, key, now);
    TidiesThen(cfg, t, c, Obtain(cfg, c, key, now), now);
  }

  lemma QueryTidies<K(!new)>(cfg: Config, t: Table<K>, key: K, now: real)
    requires WellFormed(t) && |t.order| <= cfg.maxStates
    ensures Tidies(cfg, t, Query(cfg, t, key, now).0, now)
    ensures now >= 0.0 ==> Query(cfg, t, key, now).1 == RetryAfter(Expire(cfg, Value(t, key), now), now)
  {
    var c := Cleanup(cfg, t, now);
    CleanupTidies(cfg, t, now);
    CurrentTidies(cfg, c, key, now);
    TidiesThen(cfg, t, c, Current(cfg, c, key, now), now);
  }

  // ----- the rotation reaches every entry -----

  ghost function Position<K>(order: seq<K>, key: K): (p: nat)
    requires key in order
    ensures p < |order| && order[p] == key
  {
    if order[0] == key then 0 else 1 + Position(order[1..], key)
  }

  /** The primitive changes the sections are made of. */
  datatype TableOp<!K> =
    | Sweep(now: real)                       // _run_scheduled_cleanup
    | Look(key: K, now: real)                // _current_state
    | Take(key: K, now: real)                // _current_state, then _reserve_state
    | Hold(key: K, change: int)              // references += 1, -= 1
    | Assign(key: K, state: KeyState)        // new failures and locked_until
    | Forget(key: K, id: nat)                // _discard_if_inactive

  function Perform<K>(cfg: Config, t: Table<K>, op: TableOp<K>): Table<K> {
    match op
    case Sweep(now) => Cleanup(cfg, t, now)
    case Look(key, now) => Current(cfg, t, key, now)
    case Take(key, now) => Obtain(cfg, t, key, now)
    case Hold(key, change) => if key in t.slots then Refer(t, key, change) else t
    case Assign(key, state) => if key in t.slots then Put(t, key, state) else t
    case Forget(key, id) => Discard(t, key, id)
  }

  predicate IsDueSweep<K>(t: Table<K>, op: TableOp<K>) {
    op.Sweep? && CleanupDue(t, op.now)
  }

  function DueSweeps<K>(cfg: Config, t: Table<K>, ops: seq<TableOp<K>>): nat
    decreases |ops|
  {
    if ops == [] then 0
    else (if IsDueSweep(t, ops[0]) then 1 else 0) + DueSweeps(cfg, Perform(cfg, t, ops[0]), ops[1..])
  }

  /** Some due sweep of the run reaches the state, unless it left the table before. */
  ghost predicate VisitedOrGone<K>(cfg: Config, t: Table<K>, ops: seq<TableOp<K>>, key: K, id: nat)
    decreases |ops|
  {
    || !Attached(t, key, id)
    || (ops != [] && IsDueSweep(t, ops[0]) && key in t.order && Position(t.order, key) < Batch(cfg, t))
    || (ops != [] && VisitedOrGone(cfg, Perform(cfg, t, ops[0]), ops[1..], key, id))
  }

  lemma {:induction false} WithoutMovesForward<K(!new)>(order: seq<K>, other: K, key: K)
    requires key in Without(order, other) && key in order && Distinct(order)
    ensures Position(Without(order, other), key) <= Position(order, key)
  {
    WithoutIs(order, other);
    if order[0] != other && order[0] != key {
      var rest := order[1..];
      assert Without(order, other)[1..] == Without(rest, other);
      assert key in rest && key in Without(rest, other);
      WithoutMovesForward(rest, other, key);
    }
  }

  lemma {:induction false} AppendKeepsPosition<K(!new)>(order: seq<K>, last: K, key: K)
    requires key in order
    ensures Position(order + [last], key) == Position(order, key)
  {
    if order[0] != key {
      assert (order + [last])[1..] == order[1..] + [last];
      AppendKeepsPosition(order[1..], last, key);
    }
  }

  lemma DiscardMovesForward<K(!new)>(t: Table<K>, other: K, id: nat, key: K)
    requires WellFormed(t) && key in t.order && key in Discard(t, other, id).order
    ensures Position(Discard(t, other, id).order, key) <= Position(t.order, key)
  {
    if Discard(t, other, id) != t {
      WithoutMovesForward(t.order, other, key);
    }
  }

  lemma CurrentMovesForward<K(!new)>(cfg: Config, t: Table<K>, other: K, now: real, key: K)
    requires WellFormed(t) && key in t.order && key in Current(cfg, t, other, now).order
    ensures Position(Current(cfg, t, other, now).order, key) <= Position(t.order, key)
  {
    if other in t.slots {
      DiscardMovesForward(Put(t, other, Expire(cfg, t.slots[other].state, now)), other, t.slots[other].id, key);
    }
  }

  /** No change but a due sweep moves an entry back. */
  lemma OpMovesForward<K(!new)>(cfg: Config, t: Table<K>, op: TableOp<K>, key: K, id: nat)
    requires WellFormed(t) && Attached(t, key, id) && Attached(Perform(cfg, t, op), key, id) && !IsDueSweep(t, op)
    requires WellFormed(Perform(cfg, t, op))
    ensures Position(Perform(cfg, t, op).order, key) <= Position(t.order, key)
  {
    match op
    case Forget(other, id) => DiscardMovesForward(t, other, id, key);
    case Look(other, now) => CurrentMovesForward(cfg, t, other, now, key);
    case Take(other, now) =>
      var c := Current(cfg, t, other, now);
      if key in c.order {
        CurrentMovesForward(cfg, t, other, now, key);
        AppendKeepsPosition(c.order, other, key);
      }
    case _ =>
  }

  lemma RotateListed<K(!new)>(cfg: Config, t: Table<K>, now: real)
    requires Listed(t) && t.order != []
    ensures Listed(Rotate(cfg, t, now))
    ensures forall k :: k != t.order[0] && k !in t.slots ==> k !in Rotate(cfg, t, now).slots
  {
    var key, u := t.order[0], Rotate(cfg, t, now);
    assert forall k :: k in t.order <==> k == key || k in t.order[1..];
    assert key !in t.order[1..];
    assert forall k :: k in u.order <==> k in u.slots;
  }

  /** The key is listed at position p with this slot. */
  ghost predicate Stands<K>(t: Table<K>, key: K, p: int, slot: Slot) {
    key in t.order && Position(t.order, key) == p && key in t.slots && t.slots[key] == slot
  }

  lemma RotateAdvances<K(!new)>(cfg: Config, t: Table<K>, now: real, key: K, p: int, slot: Slot)
    requires Listed(t) && Stands(t, key, p, slot) && p > 0
    ensures Stands(Rotate(cfg, t, now), key, p - 1, slot)
    ensures |Rotate(cfg, t, now).order| >= |t.order| - 1
  {
    assert key in t.order[1..];
    AppendKeepsPosition(t.order[1..], t.order[0], key);
  }

  lemma {:induction false} RotationsAdvance<K(!new)>(
      cfg: Config, t: Table<K>, now: real, n: nat, key: K, p: int, slot: Slot)
    requires Listed(t) && Stands(t, key, p, slot) && n <= p
    ensures Stands(Rotations(cfg, t, now, n), key, p - n, slot)
    decreases n
  {
    if n != 0 {
      RotateListed(cfg, t, now);
      RotateAdvances(cfg, t, now, key, p, slot);
      RotationsAdvance(cfg, Rotate(cfg, t, now), now, n - 1, key, p - 1, slot);
    }
  }

  /** What a visit does to a state: expire it, and keep it exactly if it is then still active. */
  ghost predicate Visited<K>(cfg: Config, u: Table<K>, key: K, slot: Slot, now: real) {
    var expired := slot.(state := Expire(cfg, slot.state, now));
    if Inactive(expired) then key !in u.slots else key in u.slots && u.slots[key] == expired
  }

  lemma VisitedThenKept<K(!new)>(cfg: Config, t: Table<K>, now: real, n: nat)
    requires Listed(t) && n < |t.order|
    ensures Visited(cfg, Rotations(cfg, Rotate(cfg, t, now), now, n), t.order[0], t.slots[t.order[0]], now)
  {
    var u, key := Rotate(cfg, t, now), t.order[0];
    RotateListed(cfg, t, now);
    if key in u.slots {
      LastPosition(u.order, key);
      RotationsAdvance(cfg, u, now, n, key, |u.order| - 1, u.slots[key]);
    } else {
      RotationsIgnoreAbsent(cfg, u, now, n, key);
    }
  }

  /** Every entry of the batch is visited. */
  lemma {:induction false} RotationsVisit<K(!new)>(
      cfg: Config, t: Table<K>, now: real, n: nat, key: K, p: int, slot: Slot)
    requires Listed(t) && Stands(t, key, p, slot) && p < n <= |t.order|
    ensures Visited(cfg, Rotations(cfg, t, now, n), key, slot, now)
    decreases n
  {
    if p == 0 {
      VisitedThenKept(cfg, t, now, n - 1);
    } else {
      RotateListed(cfg, t, now);
      RotateAdvances(cfg, t, now, key, p, slot);
      RotationsVisit(cfg, Rotate(cfg, t, now), now, n - 1, key, p - 1, slot);
    }
  }

  lemma {:induction false} LastPosition<K(!new)>(order: seq<K>, key: K)
    requires order != [] && Distinct(order) && order[|order| - 1] == key
    ensures key in order && Position(order, key) == |order| - 1
  {
  }

  lemma {:induction false} RotationsIgnoreAbsent<K(!new)>(cfg: Config, t: Table<K>, now: real, n: nat, key: K)
    requires Listed(t) && key !in t.slots
    ensures key !in Rotations(cfg, t, now, n).slots
    decreases n
  {
    if n != 0 && t.order != [] {
      RotateListed(cfg, t, now);
      RotationsIgnoreAbsent(cfg, Rotate(cfg, t, now), now, n - 1, key);
    }
  }

  /** A due cleanup visits its whole batch. */
  lemma CleanupVisits<K(!new)>(cfg: Config, t: Table<K>, now: real, key: K)
    requires cfg.Accepted() && Listed(t) && CleanupDue(t, now)
    requires key in t.order && Position(t.order, key) < Batch(cfg, t)
    ensures Visited(cfg, Cleanup(cfg, t, now), key, t.slots[key], now)
  {
    RotationsVisit(cfg, t.(nextCleanupAt := now + cfg.cleanupIntervalSeconds), now, Batch(cfg, t), key,
      Position(t.order, key), t.slots[key]);
  }

  lemma OpKeepsTable<K(!new)>(cfg: Config, t: Table<K>, op: TableOp<K>)
    requires WellFormed(t) && |t.order| <= cfg.maxStates
    ensures WellFormed(Perform(cfg, t, op)) && |Perform(cfg, t, op).order| <= cfg.maxStates
  {
    match op
    case Sweep(now) => CleanupTidies(cfg, t, now);
    case Look(key, now) => CurrentTidies(cfg, t, key, now);
    case Take(key, now) => ObtainTidies(cfg, t, key, now);
    case Forget(key, id) => DiscardTidies(cfg, t, key, id, 0.0);
    case _ =>
  }

  /** A state at position p is reached by the time the scheduled cleanups have taken more
      than p entries together (that is within p / batch + 1 of them), whatever
      else happens in between, unless it leaves the table before. */
  lemma {:induction false} RotationReachesEveryState<K(!new)>(
      cfg: Config, t: Table<K>, ops: seq<TableOp<K>>, key: K, id: nat)
    requires cfg.Accepted() && WellFormed(t) && |t.order| <= cfg.maxStates && Attached(t, key, id)
    requires DueSweeps(cfg, t, ops) * cfg.cleanupBatchSize > Position(t.order, key)
    ensures VisitedOrGone(cfg, t, ops, key, id)
    decreases |ops|
  {
    var op, u, rest := ops[0], Perform(cfg, t, ops[0]), ops[1..];
    OpKeepsTable(cfg, t, op);
    if Attached(u, key, id) {
      if !IsDueSweep(t, op) || Position(t.order, key) >= Batch(cfg, t) {
        OpAdvances(cfg, t, op, key, id);
        DueSweepsMultiplied(cfg, t, ops);
        RotationReachesEveryState(cfg, u, rest, key, id);
      }
    }
  }

  lemma DueSweepsMultiplied<K>(cfg: Config, t: Table<K>, ops: seq<TableOp<K>>)
    requires ops != []
    ensures DueSweeps(cfg, t, ops) * cfg.cleanupBatchSize ==
      DueSweeps(cfg, Perform(cfg, t, ops[0]), ops[1..]) * cfg.cleanupBatchSize
      + (if IsDueSweep(t, ops[0]) then cfg.cleanupBatchSize else 0)
  {
    var later := DueSweeps(cfg, Perform(cfg, t, ops[0]), ops[1..]);
    OneMore(later, cfg.cleanupBatchSize);
    assert DueSweeps(cfg, t, ops) == if IsDueSweep(t, ops[0]) then later + 1 else later;
  }

  lemma OneMore(a: nat, b: int)
    ensures (a + 1) * b == a * b + b
  {
  }

  /** An entry that a due sweep does not reach moves forward by a whole batch. */
  lemma OpAdvances<K(!new)>(cfg: Config, t: Table<K>, op: TableOp<K>, key: K, id: nat)
    requires cfg.Accepted() && WellFormed(t) && |t.order| <= cfg.maxStates && Attached(t, key, id)
    requires Attached(Perform(cfg, t, op), key, id)
    requires IsDueSweep(t, op) ==> Position(t.order, key) >= Batch(cfg, t)
    ensures key in Perform(cfg, t, op).order
    ensures Position(Perform(cfg, t, op).order, key)
      <= Position(t.order, key) - if IsDueSweep(t, op) then cfg.cleanupBatchSize else 0
  {
    OpKeepsTable(cfg, t, op);
    if IsDueSweep(t, op) {
      SweepAdvances(cfg, t, op.now, key);
    } else {
      OpMovesForward(cfg, t, op, key, id);
    }
  }

  lemma SweepAdvances<K(!new)>(cfg: Config, t: Table<K>, now: real, key: K)
    requires cfg.Accepted() && WellFormed(t) && |t.order| <= cfg.maxStates && CleanupDue(t, now)
    requires key in t.order && Position(t.order, key) >= Batch(cfg, t)
    ensures var u := Cleanup(cfg, t, now);
      key in u.order && Position(u.order, key) == Position(t.order, key) - cfg.cleanupBatchSize
  {
    RotationsAdvance(cfg, t.(nextCleanupAt := now + cfg.cleanupIntervalSeconds), now, Batch(cfg, t), key,
      Position(t.order, key), t.slots[key]);
  }
}
