/** The limiter as the source has it: an OrderedDict of mutable attempt states, changed in
    place. Every method is proved against the table function of LimiterTable.dfy that it
    implements, so what is proved there and in LimiterConcurrency.dfy holds of it. */
module LoginRateLimiting {
  import opened AttemptStates
  import opened LimiterTables
  import Outcomes

  class AttemptState {
    var failures: seq<real>
    var lockedUntil: real
    var references: int
    ghost const id: nat

    constructor (ghost id: nat)
      ensures this.id == id && View() == Slot(id, EMPTY, 0)
    {
      this.failures := [];
      this.lockedUntil := 0.0;
      this.references := 0;
      this.id := id;
    }

    ghost function View(): Slot
      reads this
    {
      Slot(id, KeyState(failures, lockedUntil), references)
    }
  }

  /** No two objects carry the same number. */
  ghost predicate Numbered(objects: set<AttemptState>, nextId: nat) {
    && (forall o :: o in objects ==> o.id < nextId)
    && (forall o, p :: o in objects && p in objects && o.id == p.id ==> o == p)
  }

  lemma NumberedOneMore(objects: set<AttemptState>, nextId: nat, created: AttemptState)
    requires Numbered(objects, nextId) && created.id == nextId
    ensures Numbered(objects + {created}, nextId + 1)
  {
  }

  lemma DropKeepsTable(t: Table<Key>, key: Key)
    requires WellFormed(t)
    ensures WellFormed(t.(order := Without(t.order, key), slots := t.slots - {key}))
    ensures |Without(t.order, key)| <= |t.order|
  {
    WithoutIs(t.order, key);
  }

  /** Popping and putting back last, in one. */
  lemma RotateInSteps(cfg: Config, t: Table<Key>, now: real)
    requires WellFormed(t) && t.order != []
    ensures var key := t.order[0];
      var slot := t.slots[key].(state := Expire(cfg, t.slots[key].state, now));
      var popped := t.(order := t.order[1..], slots := t.slots - {key});
      Rotate(cfg, t, now) == if Inactive(slot) then popped
        else popped.(order := popped.order + [key], slots := popped.slots[key := slot])
  {
    var key := t.order[0];
    var slot := t.slots[key].(state := Expire(cfg, t.slots[key].state, now));
    assert (t.slots - {key})[key := slot] == t.slots[key := slot];
  }

  lemma SlotKeepsTable(t: Table<Key>, key: Key, slot: Slot)
    requires WellFormed(t) && key in t.slots && slot.id == t.slots[key].id
    ensures WellFormed(t.(slots := t.slots[key := slot]))
  {
  }

  lemma PopKeepsTable(t: Table<Key>)
    requires WellFormed(t) && t.order != []
    ensures WellFormed(t.(order := t.order[1..], slots := t.slots - {t.order[0]}))
  {
    assert forall k :: k in t.order <==> k == t.order[0] || k in t.order[1..];
  }

  lemma RoomAfterPop(t: Table<Key>, maxStates: int)
    requires t.order != [] && |t.order| <= maxStates
    ensures |t.order[1..]| < maxStates
  {
  }

  lemma PutLastKeepsTable(t: Table<Key>, key: Key, slot: Slot)
    requires WellFormed(t) && key !in t.slots && slot.id < t.nextId
    requires forall k :: k in t.slots ==> t.slots[k].id != slot.id
    ensures WellFormed(t.(order := t.order + [key], slots := t.slots[key := slot]))
  {
    var order := t.order + [key];
    assert forall k :: k in order <==> k == key || k in t.order;
  }

  lemma RotationsUnfold(cfg: Config, t: Table<Key>, now: real, n: nat)
    requires Listed(t) && t.order != [] && n > 0
    ensures Rotations(cfg, t, now, n) == Rotations(cfg, Rotate(cfg, t, now), now, n - 1)
    ensures |Rotate(cfg, t, now).order| >= |t.order| - 1
  {
  }

  class LoginRateLimiter {
    const cfg: Config
    var order: seq<Key>
    var states: map<Key, AttemptState>
    var nextCleanupAt: real
    ghost var nextId: nat
    ghost var objects: set<AttemptState>  // every state handed out

    ghost predicate Owned()
      reads this
    {
      forall k :: k in states ==> states[k] in objects
    }

    ghost function View(): Table<Key>
      requires Owned()
      reads this, objects
    {
      Table(order, map k | k in states :: states[k].View(), nextId, nextCleanupAt)
    }

    ghost predicate Valid()
      reads this, objects
    {
      && Owned() && WellFormed(View()) && |order| <= cfg.maxStates
      && Numbered(objects, nextId)
    }

    /** No two keys share an object. */
    lemma Separate()
      requires Valid()
      ensures forall k, l :: k in states && l in states && k != l ==> states[k].id != states[l].id
    {
      assert forall k :: k in states ==> View().slots[k] == states[k].View();
    }

    constructor (cfg: Config, now: real)
      requires cfg.Accepted()
      ensures Valid() && this.cfg == cfg && states == map[] && nextCleanupAt == now + cfg.cleanupIntervalSeconds
    {
      this.cfg := cfg;
      order := [];
      states := map[];
      nextCleanupAt := now + cfg.cleanupIntervalSeconds;
      nextId := 0;
      objects := {};
    }

    method ExpireState(state: AttemptState, now: real)
      modifies state
      ensures state.View() == old(state.View()).(state := Expire(cfg, old(state.View()).state, now))
    {
      var cutoff := now - cfg.failureWindowSeconds as real;
      if state.lockedUntil != 0.0 && state.lockedUntil <= now {
        state.lockedUntil := 0.0;
        state.failures := [];
      }
      ghost var kept := DropOld(state.failures, cutoff);
      while state.failures != [] && state.failures[0] <= cutoff
        invariant DropOld(state.failures, cutoff) == kept
        invariant state.lockedUntil == Expire(cfg, old(state.View()).state, now).lockedUntil
        invariant state.references == old(state.references)
        decreases |state.failures|
      {
        state.failures := state.failures[1..];
      }
    }

    /** `self._states.pop(key)`. */
    method DropEntry(key: Key)
      requires Valid() && key in states
      modifies this
      ensures Valid() && nextId == old(nextId) && objects == old(objects)
      ensures View() == old(View()).(order := Without(old(order), key), slots := old(View()).slots - {key})
    {
      ghost var before := View();
      DropKeepsTable(before, key);
      order := Without(order, key);
      states := states - {key};
      assert View().slots == before.slots - {key};
    }

    method DiscardIfInactive(key: Key, state: AttemptState)
      requires Valid() && state in objects
      modifies this
      ensures Valid() && nextId == old(nextId) && objects == old(objects)
      ensures View() == Discard(old(View()), key, state.id)
    {
      if key in states && states[key] == state && state.references == 0
         && state.failures == [] && state.lockedUntil == 0.0
      {
        DropEntry(key);
      }
    }

    /** Changing one object of the table changes one entry of the view. */
    twostate lemma EntryChanged(key: Key)
      requires old(Valid()) && key in states && unchanged(this)
      requires forall k :: k in states && k != key ==> unchanged(states[k])
      ensures Valid() && key in old(View()).slots
      ensures View() == old(View()).(slots := old(View()).slots[key := states[key].View()])
    {
      assert View().slots == old(View()).slots[key := states[key].View()];
      SlotKeepsTable(old(View()), key, states[key].View());
    }

    /** Changing an object that left the table changes nothing in the view. */
    twostate lemma DetachedChanged(state: AttemptState)
      requires old(Valid()) && unchanged(this)
      requires forall k :: k in states ==> states[k] != state && unchanged(states[k])
      ensures Valid() && View() == old(View())
    {
      assert View().slots == old(View()).slots;
    }

    /** An object is the entry of a key just if it carries that entry's number. */
    lemma AttachedIs(key: Key, state: AttemptState)
      requires Valid() && state in objects
      ensures Attached(View(), key, state.id) <==> key in states && states[key] == state
    {
      Separate();
    }

    /** Expiry of an object of the table is expiry of its entry. */
    method ExpireEntry(key: Key, now: real)
      requires Valid() && key in states
      modifies states[key]
      ensures Valid() && View() == Put(old(View()), key, Expire(cfg, old(View()).slots[key].state, now))
    {
      Separate();
      ExpireState(states[key], now);
      EntryChanged(key);
    }

    /** `_current_state`; null for None. */
    method CurrentState(key: Key, now: real) returns (state: AttemptState?)
      requires Valid()
      modifies this, objects
      ensures Valid() && nextId == old(nextId) && objects == old(objects)
      ensures View() == Current(cfg, old(View()), key, now)
      ensures state == if key in states then states[key] else null
    {
      if key in states {
        ExpireEntry(key, now);
        DiscardIfInactive(key, states[key]);
      }
      state := if key in states then states[key] else null;
    }

    method Insert(key: Key, created: AttemptState)
      requires Valid() && key !in states && created.id == nextId && |order| < cfg.maxStates
      modifies this
      ensures Valid() && states == old(states)[key := created] && objects == old(objects) + {created}
      ensures View() == old(View()).(order := old(order) + [key], slots := old(View()).slots[key := created.View()],
                                     nextId := old(nextId) + 1)
    {
      ghost var before := View();
      PutLastKeepsTable(before.(nextId := nextId + 1), key, created.View());
      NumberedOneMore(objects, nextId, created);
      order := order + [key];
      states := states[key := created];
      nextId := nextId + 1;
      objects := objects + {created};
      assert View().slots == before.slots[key := created.View()];
    }

    /** `_reserve_state`; null when the table is full. */
    method ReserveState(key: Key) returns (state: AttemptState?)
      requires Valid() && key !in states
      modifies this
      ensures Valid() && View() == Reserve(cfg, old(View()), key)
      ensures state == if key in states then states[key] else null
      ensures fresh(objects - old(objects)) && old(objects) <= objects
    {
      if |order| >= cfg.maxStates {
        return null;
      }
      var created := new AttemptState(nextId);
      Insert(key, created);
      state := created;
    }

    method PopOldest() returns (key: Key, state: AttemptState)
      requires Valid() && order != []
      modifies this
      ensures Valid() && nextId == old(nextId) && objects == old(objects)
      ensures key == old(order)[0] && key in old(states) && state == old(states)[key] && states == old(states) - {key}
      ensures View() == old(View()).(order := old(order)[1..], slots := old(View()).slots - {key})
      ensures state in objects && forall k :: k in states ==> states[k].id != state.id
      ensures key in old(View()).slots && state.View() == old(View()).slots[key]
    {
      ghost var before := View();
      PopKeepsTable(before);
      Separate();
      key := order[0];
      assert key in before.slots;
      state := states[key];
      order := order[1..];
      states := states - {key};
      assert View().slots == before.slots - {key};
    }

    method PutLast(key: Key, state: AttemptState)
      requires Valid() && key !in states && state in objects && |order| < cfg.maxStates
      requires forall k :: k in states ==> states[k].id != state.id
      modifies this
      ensures Valid() && nextId == old(nextId) && objects == old(objects) && states == old(states)[key := state]
      ensures View() == old(View()).(order := old(order) + [key], slots := old(View()).slots[key := state.View()])
    {
      ghost var before := View();
      PutLastKeepsTable(before, key, state.View());
      order := order + [key];
      states := states[key := state];
      assert View().slots == before.slots[key := state.View()];
    }

    method ExpirePopped(state: AttemptState, now: real)
      requires Valid() && forall k :: k in states ==> states[k].id != state.id
      modifies state
      ensures Valid() && View() == old(View())
      ensures state.View() == old(state.View()).(state := Expire(cfg, old(state.View()).state, now))
    {
      ghost var before := View();
      ExpireState(state, now);
      assert View().slots == before.slots;
    }

    /** One turn of the cleanup loop. */
    method RotateOldest(now: real)
      requires Valid() && order != []
      modifies this, objects
      ensures Valid() && nextId == old(nextId) && objects == old(objects) && View() == Rotate(cfg, old(View()), now)
    {
      RotateInSteps(cfg, View(), now);
      var key, state := PopOldest();
      ExpirePopped(state, now);
      var active := state.references != 0 || state.failures != [] || state.lockedUntil != 0.0;
      assert active <==> !Inactive(state.View());
      if active {
        RoomAfterPop(old(View()), cfg.maxStates);
        PutLast(key, state);
      }
    }

    method RotateTimes(turns: nat, now: real)
      requires Valid() && turns <= |order|
      modifies this, objects
      ensures Valid() && nextId == old(nextId) && objects == old(objects)
      ensures View() == Rotations(cfg, old(View()), now, turns)
    {
      ghost var goal := Rotations(cfg, View(), now, turns);
      var turn := 0;
      while turn < turns
        invariant 0 <= turn <= turns
        invariant Valid() && nextId == old(nextId) && objects == old(objects) && |order| >= turns - turn
        invariant Rotations(cfg, View(), now, turns - turn) == goal
      {
        RotationsUnfold(cfg, View(), now, turns - turn);
        RotateOldest(now);
        turn := turn + 1;
      }
    }

    method RunScheduledCleanup(now: real)
      requires Valid() && cfg.Accepted()
      modifies this, objects
      ensures Valid() && nextId == old(nextId) && objects == old(objects) && View() == Cleanup(cfg, old(View()), now)
    {
      ghost var before := View();
      if now >= nextCleanupAt {
        nextCleanupAt := now + cfg.cleanupIntervalSeconds;
        assert View().slots == before.slots;
        RotateTimes(if cfg.cleanupBatchSize < |order| then cfg.cleanupBatchSize else |order|, now);
      }
    }

    /** `_current_state`, then `_reserve_state` if it returned nothing. */
    method ObtainState(key: Key, now: real) returns (state: AttemptState?)
      requires Valid()
      modifies this, objects
      ensures Valid() && View() == Obtain(cfg, old(View()), key, now)
      ensures fresh(objects - old(objects)) && old(objects) <= objects
      ensures state == if key in states then states[key] else null
    {
      state := CurrentState(key, now);
      if state == null {
        state := ReserveState(key);
      }
    }

    method ChangeReferences(key: Key, change: int)
      requires Valid() && key in states
      modifies states[key]
      ensures Valid() && View() == Refer(old(View()), key, change)
    {
      Separate();
      states[key].references := states[key].references + change;
      EntryChanged(key);
    }

    /** First section of attempt; null when the attempt is refused. */
    method EnterAttempt(key: Key, now: real) returns (state: AttemptState?)
      requires Valid() && cfg.Accepted()
      modifies this, objects
      ensures Valid() && View() == Enter(cfg, old(View()), key, now)
      ensures fresh(objects - old(objects)) && old(objects) <= objects
      ensures state == if key in states then states[key] else null
    {
      RunScheduledCleanup(now);
      state := ObtainState(key, now);
      if state != null {
        ChangeReferences(key, 1);
      }
    }

    /** Second section of attempt, under the gate. */
    method AdmitAttempt(key: Key, state: AttemptState, now: real) returns (retryAfter: int)
      requires Valid() && state in objects && forall k :: k in states && states[k] == state ==> k == key
      modifies state
      ensures Valid() && retryAfter == RetryAfter(Expire(cfg, old(state.View()).state, now), now)
      ensures if Attached(old(View()), key, state.id) then (View(), retryAfter) == Admit(cfg, old(View()), key, now)
              else View() == old(View())
    {
      AttachedIs(key, state);
      Separate();
      ExpireState(state, now);
      if key in states && states[key] == state {
        EntryChanged(key);
      } else {
        DetachedChanged(state);
      }
      retryAfter := RetryAfterOf(state, now);
    }

    method RetryAfterOf(state: AttemptState, now: real) returns (r: int)
      ensures r == RetryAfter(state.View().state, now)
    {
      r := if state.lockedUntil <= now then 0 else Ceil(state.lockedUntil - now);
    }

    /** Last section of attempt. */
    method LeaveAttempt(key: Key, state: AttemptState)
      requires Valid() && state in objects && forall k :: k in states && states[k] == state ==> k == key
      modifies this, state
      ensures Valid() && objects == old(objects)
      ensures View() == if Attached(old(View()), key, state.id) then Leave(old(View()), key) else old(View())
    {
      AttachedIs(key, state);
      Separate();
      state.references := state.references - 1;
      if key in states && states[key] == state {
        EntryChanged(key);
      } else {
        DetachedChanged(state);
      }
      DiscardIfInactive(key, state);
    }

    method RetryAfterFor(key: Key, now: real) returns (r: int)
      requires Valid() && cfg.Accepted()
      modifies this, objects
      ensures Valid() && objects == old(objects) && (View(), r) == Query(cfg, old(View()), key, now)
    {
      RunScheduledCleanup(now);
      var state := CurrentState(key, now);
      r := 0;
      if state != null {
        r := RetryAfterOf(state, now);
      }
    }

    method AppendFailure(key: Key, now: real) returns (answer: int)
      requires Valid() && key in states
      modifies states[key]
      ensures Valid() && key in old(View()).slots
      ensures var recorded := Record(cfg, old(View()).slots[key].state, now);
        View() == Put(old(View()), key, recorded.0) && answer == recorded.1
    {
      Separate();
      var state := states[key];
      state.failures := state.failures + [now];
      answer := 0;
      if |state.failures| >= cfg.maxFailures {
        state.lockedUntil := now + cfg.lockoutSeconds as real;
        answer := cfg.lockoutSeconds;
      }
      EntryChanged(key);
    }

    method RecordFailureFor(key: Key, now: real) returns (answer: int)
      requires Valid() && cfg.Accepted()
      modifies this, objects
      ensures Valid() && (View(), answer) == RecordFailure(cfg, old(View()), key, now)
      ensures fresh(objects - old(objects)) && old(objects) <= objects
    {
      RunScheduledCleanup(now);
      var state := ObtainState(key, now);
      if state == null {
        answer := CapacityRetryAfter(cfg);
      } else {
        answer := AppendFailure(key, now);
      }
    }

    method EmptyEntry(key: Key)
      requires Valid() && key in states
      modifies states[key]
      ensures Valid() && View() == Put(old(View()), key, EMPTY)
    {
      Separate();
      states[key].failures := [];
      states[key].lockedUntil := 0.0;
      EntryChanged(key);
    }

    method ClearFor(key: Key)
      requires Valid()
      modifies this, objects
      ensures Valid() && objects == old(objects) && View() == Clear(old(View()), key)
    {
      if key in states {
        EmptyEntry(key);
        DiscardIfInactive(key, states[key]);
      }
    }
  }

  /** The checks of the source's constructor, before a limiter is made. */
  method CreateLimiter(cfg: Config, now: real) returns (r: Outcomes.Result<LoginRateLimiter>)
    ensures r.Ok? <==> cfg.Accepted()
    ensures r.Ok? ==> fresh(r.value) && r.value.Valid() && r.value.cfg == cfg && r.value.states == map[]
    ensures r.Ok? ==> r.value.nextCleanupAt == now + cfg.cleanupIntervalSeconds
  {
    if cfg.maxStates < 1 || cfg.cleanupIntervalSeconds <= 0.0 || cfg.cleanupBatchSize < 1 {
      return Outcomes.Err("ValueError");
    }
    var limiter := new LoginRateLimiter(cfg, now);
    return Outcomes.Ok(limiter);
  }
}
