/** What locks a key, told from the events alone: which earlier failures still count, and when a lock
    is in force. */
module LimiterFailures {
  import opened AttemptStates
  import opened LimiterHistory
  import opened LimiterConcurrency

  /** The event set a lock. */
  predicate Locking(e: Event) {
    e.Recorded? && e.answer != 0
  }

  function LockEnd(cfg: Config, e: Event): real {
    e.at + cfg.lockoutSeconds as real
  }

  /** A lock or a success of the key. */
  predicate Turns(e: Event, key: Key) {
    e.key == key && (Locking(e) || e.Cleared?)
  }

  /** The lock set by event m was served by `now`: neither a success nor a newer lock came before its end. */
  ghost predicate Served(cfg: Config, history: seq<Event>, m: nat, n: nat, now: real)
    requires m < n <= |history|
  {
    && LockEnd(cfg, history[m]) <= now
    && forall i :: m < i < n && Turns(history[i], history[m].key) ==> history[i].at >= LockEnd(cfg, history[m])
  }

  /** Failure j no longer counts: a success came after it, or a lock it came before the end of was served. */
  ghost predicate Forgotten(cfg: Config, history: seq<Event>, j: nat, n: nat, now: real)
    requires j < n <= |history|
  {
    || (exists c :: j < c < n && history[c].Cleared? && history[c].key == history[j].key)
    || (exists m :: 0 <= m < n && ServedAfter(cfg, history, m, j, n, now))
  }

  /** Event m is a lock of the key of failure j that ended after the failure and was served. */
  ghost predicate ServedAfter(cfg: Config, history: seq<Event>, m: nat, j: nat, n: nat, now: real)
    requires m < n <= |history| && j < n
  {
    && history[m].key == history[j].key && Locking(history[m])
    && history[j].at < LockEnd(cfg, history[m]) && Served(cfg, history, m, n, now)
  }

  /** Event j is a failure that counts at `now`, after n events. */
  ghost predicate Counts(cfg: Config, history: seq<Event>, j: nat, n: nat, now: real)
    requires j < n <= |history|
  {
    && history[j].Recorded? && history[j].at > now - cfg.failureWindowSeconds as real
    && !Forgotten(cfg, history, j, n, now)
  }

  /** The times of the first k events that are failures of the key and count. */
  ghost function Counted(cfg: Config, history: seq<Event>, key: Key, k: nat, n: nat, now: real): seq<real>
    requires k <= n <= |history|
  {
    if k == 0 then []
    else
      var rest := Counted(cfg, history, key, k - 1, n, now);
      if history[k - 1].key == key && Counts(cfg, history, k - 1, n, now) then rest + [history[k - 1].at] else rest
  }

  /** The failures of the key, among the first n events, that count at `now`. */
  ghost function CountingFailures(cfg: Config, history: seq<Event>, key: Key, n: nat, now: real): set<nat>
    requires n <= |history|
  {
    set j: nat | j < n && history[j].key == key && Counts(cfg, history, j, n, now)
  }

  /** The latest lock of the key, not followed by a success. */
  ghost predicate Latest(history: seq<Event>, key: Key, m: nat, n: nat)
    requires m < n <= |history|
  {
    history[m].key == key && Locking(history[m]) && forall i :: m < i < n ==> !Turns(history[i], key)
  }

  function StateAfter(cfg: Config, history: seq<Event>, key: Key, n: nat): KeyState
    requires n <= |history|
  {
    Replay(cfg, history[..n], key)
  }

  lemma StateAfterOne(cfg: Config, history: seq<Event>, key: Key, n: nat)
    requires n < |history|
    ensures StateAfter(cfg, history, key, n + 1) ==
      if history[n].key == key then ReplayEvent(cfg, StateAfter(cfg, history, key, n), history[n])
      else StateAfter(cfg, history, key, n)
  {
    assert history[..n + 1] == history[..n] + [history[n]];
    ReplayOneMore(cfg, history[..n], history[n], key);
  }

  /** What is assumed of a history: settings, order of time and reference answers. */
  ghost predicate Faithful(cfg: Config, history: seq<Event>, now: real) {
    cfg.LoginSettings() && Timed(history, now) && ReferenceAnswers(cfg, history)
  }

  lemma RecordedLocks(cfg: Config, history: seq<Event>, n: nat, now: real)
    requires Faithful(cfg, history, now) && n < |history| && history[n].Recorded?
    ensures var x := Expire(cfg, StateAfter(cfg, history, history[n].key, n), history[n].at);
      && (Locking(history[n]) <==> |x.failures| + 1 >= cfg.maxFailures)
      && (history[n].answer == if |x.failures| + 1 >= cfg.maxFailures then cfg.lockoutSeconds else 0)
      && StateAfter(cfg, history, history[n].key, n + 1) ==
           KeyState(x.failures + [history[n].at], if Locking(history[n]) then LockEnd(cfg, history[n]) else x.lockedUntil)
  {
    assert AnsweredAt(cfg, history, n);
    StateAfterOne(cfg, history, history[n].key, n);
  }

  // ----- which lock is in force -----

  /** The state at `now` is locked exactly by the latest lock, while it lasts. */
  ghost predicate LockAgrees(cfg: Config, history: seq<Event>, key: Key, n: nat, now: real)
    requires n <= |history|
  {
    var until := Expire(cfg, StateAfter(cfg, history, key, n), now).lockedUntil;
    && (until != 0.0 ==>
        until > now && exists m :: 0 <= m < n && Latest(history, key, m, n) && LockEnd(cfg, history[m]) == until)
    && (forall m :: 0 <= m < n && Latest(history, key, m, n) && LockEnd(cfg, history[m]) > now ==>
        until == LockEnd(cfg, history[m]))
  }

  lemma LatestIsOne(history: seq<Event>, key: Key, l: nat, m: nat, n: nat)
    requires l < n <= |history| && m < n && Latest(history, key, l, n) && Latest(history, key, m, n)
    ensures l == m
  {
  }

  lemma {:induction false} LockIsLatest(cfg: Config, history: seq<Event>, key: Key, n: nat, now: real, end: real)
    requires Faithful(cfg, history, end) && n <= |history| && 0.0 <= now
    requires forall i :: 0 <= i < n ==> history[i].at <= now
    ensures LockAgrees(cfg, history, key, n, now)
  {
    if n > 0 {
      var e := history[n - 1];
      StateAfterOne(cfg, history, key, n - 1);
      if e.key != key || (!e.Recorded? && !e.Cleared?) {
        LockIsLatest(cfg, history, key, n - 1, now, end);
        LockGoesOn(cfg, history, key, n - 1, now);
      } else if e.Recorded? {
        LockIsLatest(cfg, history, key, n - 1, e.at, end);
        RecordedLocks(cfg, history, n - 1, end);
        LockAfterFailure(cfg, history, n - 1, now);
      }
    }
  }

  /** An event that neither locks nor clears leaves the latest lock what it is. */
  lemma LatestGoesOn(history: seq<Event>, key: Key, m: nat, n: nat)
    requires m < n < |history| && !Turns(history[n], key)
    ensures Latest(history, key, m, n) <==> Latest(history, key, m, n + 1)
  {
  }

  lemma LockGoesOn(cfg: Config, history: seq<Event>, key: Key, n: nat, now: real)
    requires n < |history| && !Turns(history[n], key)
    requires StateAfter(cfg, history, key, n + 1) == StateAfter(cfg, history, key, n)
    requires LockAgrees(cfg, history, key, n, now)
    ensures LockAgrees(cfg, history, key, n + 1, now)
  {
    forall m: nat | m < n
      ensures Latest(history, key, m, n) <==> Latest(history, key, m, n + 1)
    {
      LatestGoesOn(history, key, m, n);
    }
  }

  lemma LockAfterFailure(cfg: Config, history: seq<Event>, n: nat, now: real)
    requires n < |history| && history[n].Recorded? && 0.0 <= history[n].at <= now && cfg.LoginSettings()
    requires LockAgrees(cfg, history, history[n].key, n, history[n].at)
    requires StateAfter(cfg, history, history[n].key, n + 1).lockedUntil ==
      if Locking(history[n]) then LockEnd(cfg, history[n])
      else Expire(cfg, StateAfter(cfg, history, history[n].key, n), history[n].at).lockedUntil
    ensures LockAgrees(cfg, history, history[n].key, n + 1, now)
  {
    var key, k := history[n].key, n + 1;
    if Locking(history[n]) {
      assert Latest(history, key, n, k);
      forall m: nat | m < k && Latest(history, key, m, k)
        ensures m == n
      {
        LatestIsOne(history, key, m, n, k);
      }
    } else {
      forall m: nat | m < n
        ensures Latest(history, key, m, n) <==> Latest(history, key, m, n + 1)
      {
        LatestGoesOn(history, key, m, n);
      }
    }
  }

  // ----- which failures count -----

  /** Earlier failures at a later time: those that counted before and are still inside the window,
      unless a lock has been served in between. */
  lemma CountsLater(cfg: Config, history: seq<Event>, n: nat, j: nat, now: real, end: real)
    requires Faithful(cfg, history, end) && n < |history| && history[n].Recorded? && history[n].at <= now
    requires j < n && history[j].key == history[n].key
    requires !LockOver(StateAfter(cfg, history, history[n].key, n + 1), now)
    ensures Counts(cfg, history, j, n + 1, now) <==>
      Counts(cfg, history, j, n, history[n].at) && history[j].at > now - cfg.failureWindowSeconds as real
  {
    ForgottenLater(cfg, history, n, j, now, end);
  }

  lemma ForgottenLater(cfg: Config, history: seq<Event>, n: nat, j: nat, now: real, end: real)
    requires Faithful(cfg, history, end) && n < |history| && history[n].Recorded? && history[n].at <= now
    requires j < n && history[j].key == history[n].key
    requires !LockOver(StateAfter(cfg, history, history[n].key, n + 1), now)
    ensures Forgotten(cfg, history, j, n + 1, now) <==> Forgotten(cfg, history, j, n, history[n].at)
  {
    var k := n + 1;
    forall m: nat | m < n && history[m].key == history[n].key && Locking(history[m])
      ensures Served(cfg, history, m, k, now) <==> Served(cfg, history, m, n, history[n].at)
    {
      ServedLater(cfg, history, n, m, now, end);
    }
    NotServedItself(cfg, history, n, now, end);
    if m: nat :| m < k && ServedAfter(cfg, history, m, j, k, now) {
      assert m < n && ServedAfter(cfg, history, m, j, n, history[n].at);
    }
    if m: nat :| m < n && ServedAfter(cfg, history, m, j, n, history[n].at) {
      assert ServedAfter(cfg, history, m, j, k, now);
    }
  }

  lemma NotServedItself(cfg: Config, history: seq<Event>, n: nat, now: real, end: real)
    requires Faithful(cfg, history, end) && n < |history| && history[n].Recorded?
    requires !LockOver(StateAfter(cfg, history, history[n].key, n + 1), now)
    ensures Locking(history[n]) ==> !Served(cfg, history, n, n + 1, now)
  {
    RecordedLocks(cfg, history, n, end);
  }

  lemma ServedLater(cfg: Config, history: seq<Event>, n: nat, m: nat, now: real, end: real)
    requires Faithful(cfg, history, end) && n < |history| && history[n].Recorded? && history[n].at <= now
    requires m < n && history[m].key == history[n].key && Locking(history[m])
    requires !LockOver(StateAfter(cfg, history, history[n].key, n + 1), now)
    ensures Served(cfg, history, m, n + 1, now) <==> Served(cfg, history, m, n, history[n].at)
  {
    RecordedLocks(cfg, history, n, end);
    LockIsLatest(cfg, history, history[n].key, n, history[n].at, end);
    if Served(cfg, history, m, n + 1, now) && LockEnd(cfg, history[m]) > history[n].at {
      ServedIsLatest(cfg, history, n, m, now);
    }
  }

  /** A lock that ends after the last event is the latest one, if it is served. */
  lemma ServedIsLatest(cfg: Config, history: seq<Event>, n: nat, m: nat, now: real)
    requires n < |history| && forall i :: 0 <= i <= n ==> history[i].at <= history[n].at
    requires m < n && history[m].key == history[n].key && Locking(history[m])
    requires Served(cfg, history, m, n + 1, now) && LockEnd(cfg, history[m]) > history[n].at
    ensures Latest(history, history[n].key, m, n) && !Locking(history[n])
  {
    var k := n + 1;
    assert forall i :: m < i < k && Turns(history[i], history[m].key) ==> history[i].at >= LockEnd(cfg, history[m]);
  }

  /** Once the lock of the state is over nothing counts any more. */
  lemma NothingCounts(cfg: Config, history: seq<Event>, n: nat, j: nat, now: real, end: real)
    requires Faithful(cfg, history, end) && n < |history| && history[n].Recorded? && history[n].at <= now
    requires j <= n && history[j].key == history[n].key
    requires LockOver(StateAfter(cfg, history, history[n].key, n + 1), now)
    ensures !Counts(cfg, history, j, n + 1, now)
  {
    var key, e, k := history[n].key, history[n], n + 1;
    RecordedLocks(cfg, history, n, end);
    LockIsLatest(cfg, history, key, n, e.at, end);
    if Locking(e) {
      assert ServedAfter(cfg, history, n, j, k, now);
    } else {
      var m: nat :| m < n && Latest(history, key, m, n)
        && LockEnd(cfg, history[m]) == StateAfter(cfg, history, key, k).lockedUntil;
      assert history[j].at <= e.at < LockEnd(cfg, history[m]);
      assert Served(cfg, history, m, k, now);
      assert ServedAfter(cfg, history, m, j, k, now);
    }
  }

  /** A failure is not forgotten when it comes. */
  lemma NewFailureCounts(cfg: Config, history: seq<Event>, n: nat, now: real, end: real)
    requires Faithful(cfg, history, end) && n < |history| && history[n].Recorded? && history[n].at <= now
    requires !LockOver(StateAfter(cfg, history, history[n].key, n + 1), now)
    ensures Counts(cfg, history, n, n + 1, now) <==> history[n].at > now - cfg.failureWindowSeconds as real
  {
    var k := n + 1;
    NotServedItself(cfg, history, n, now, end);
    if m: nat :| m < k && ServedAfter(cfg, history, m, n, k, now) {
      assert m < n;
      ServedLater(cfg, history, n, m, now, end);
    }
  }

  // ----- the list of the failures -----

  ghost predicate UpTo(times: seq<real>, limit: real) {
    forall i :: 0 <= i < |times| ==> times[i] <= limit
  }

  lemma {:induction false} DropAll(times: seq<real>, cutoff: real)
    requires UpTo(times, cutoff)
    ensures DropOld(times, cutoff) == []
  {
    if times != [] {
      assert UpTo(times[1..], cutoff);
      DropAll(times[1..], cutoff);
    }
  }

  lemma {:induction false} DropBeforeLast(times: seq<real>, last: real, cutoff: real)
    requires UpTo(times, last)
    ensures DropOld(times + [last], cutoff) == if last <= cutoff then [] else DropOld(times, cutoff) + [last]
  {
    if last <= cutoff {
      DropAll(times + [last], cutoff);
    } else if times == [] {
      assert times + [last] == [last];
    } else {
      assert (times + [last])[1..] == times[1..] + [last];
      DropBeforeLast(times[1..], last, cutoff);
    }
  }

  lemma {:induction false} CountedUpTo(cfg: Config, history: seq<Event>, key: Key, k: nat, n: nat, now: real, limit: real)
    requires k <= n <= |history| && forall i :: 0 <= i < k ==> history[i].at <= limit
    ensures UpTo(Counted(cfg, history, key, k, n, now), limit)
  {
    if k > 0 {
      CountedUpTo(cfg, history, key, k - 1, n, now, limit);
    }
  }

  lemma {:induction false} CountedSame(
      cfg: Config, history: seq<Event>, key: Key, k: nat, n: nat, t: real, m: nat, u: real)
    requires k <= n <= |history| && k <= m <= |history|
    requires forall j :: 0 <= j < k && history[j].key == key ==>
      (Counts(cfg, history, j, n, t) <==> Counts(cfg, history, j, m, u))
    ensures Counted(cfg, history, key, k, n, t) == Counted(cfg, history, key, k, m, u)
  {
    if k > 0 {
      CountedSame(cfg, history, key, k - 1, n, t, m, u);
    }
  }

  lemma {:induction false} CountedNone(cfg: Config, history: seq<Event>, key: Key, k: nat, n: nat, now: real)
    requires k <= n <= |history|
    requires forall j :: 0 <= j < k && history[j].key == key ==> !Counts(cfg, history, j, n, now)
    ensures Counted(cfg, history, key, k, n, now) == []
  {
    if k > 0 {
      CountedNone(cfg, history, key, k - 1, n, now);
    }
  }

  /** Dropping old failures from the list is counting again at a later time. */
  lemma {:induction false} DropIsCounting(
      cfg: Config, history: seq<Event>, n: nat, k: nat, now: real, end: real)
    requires Faithful(cfg, history, end) && n < |history| && history[n].Recorded? && history[n].at <= now && k <= n
    requires !LockOver(StateAfter(cfg, history, history[n].key, n + 1), now)
    ensures DropOld(Counted(cfg, history, history[n].key, k, n, history[n].at), now - cfg.failureWindowSeconds as real)
      == Counted(cfg, history, history[n].key, k, n + 1, now)
  {
    if k > 0 {
      var key, cutoff := history[n].key, now - cfg.failureWindowSeconds as real;
      DropIsCounting(cfg, history, n, k - 1, now, end);
      if history[k - 1].key == key {
        CountsLater(cfg, history, n, k - 1, now, end);
        if Counts(cfg, history, k - 1, n, history[n].at) {
          CountedUpTo(cfg, history, key, k - 1, n, history[n].at, history[k - 1].at);
          DropBeforeLast(Counted(cfg, history, key, k - 1, n, history[n].at), history[k - 1].at, cutoff);
          if history[k - 1].at <= cutoff {
            NoneThatOld(cfg, history, n, k - 1, now);
          }
        }
      }
    }
  }

  lemma NoneThatOld(cfg: Config, history: seq<Event>, n: nat, k: nat, now: real)
    requires n < |history| && k <= n
    requires forall i :: 0 <= i < k ==> history[i].at <= now - cfg.failureWindowSeconds as real
    ensures Counted(cfg, history, history[n].key, k, n + 1, now) == []
  {
    CountedNone(cfg, history, history[n].key, k, n + 1, now);
  }

  /** The failures of a state are those that count, told from the events alone. */
  lemma {:induction false} FailuresAreCounted(
      cfg: Config, history: seq<Event>, key: Key, n: nat, now: real, end: real)
    requires Faithful(cfg, history, end) && n <= |history| && 0.0 <= now
    requires forall i :: 0 <= i < n ==> history[i].at <= now
    ensures Expire(cfg, StateAfter(cfg, history, key, n), now).failures == Counted(cfg, history, key, n, n, now)
  {
    if n > 0 {
      var e := history[n - 1];
      StateAfterOne(cfg, history, key, n - 1);
      if e.key == key && e.Recorded? {
        FailuresAreCounted(cfg, history, key, n - 1, e.at, end);
        CountedAfterFailure(cfg, history, n - 1, now, end);
      } else if e.key == key && e.Cleared? {
        CountedNone(cfg, history, key, n, n, now);
      } else {
        FailuresAreCounted(cfg, history, key, n - 1, now, end);
        CountedGoesOn(cfg, history, key, n - 1, now);
      }
    }
  }

  lemma CountedGoesOn(cfg: Config, history: seq<Event>, key: Key, n: nat, now: real)
    requires n < |history| && (history[n].key != key || (!history[n].Recorded? && !history[n].Cleared?))
    ensures Counted(cfg, history, key, n + 1, n + 1, now) == Counted(cfg, history, key, n, n, now)
  {
    forall j: nat | j < n && history[j].key == key
      ensures Counts(cfg, history, j, n, now) <==> Counts(cfg, history, j, n + 1, now)
    {
      ForgottenGoesOn(cfg, history, j, n, now);
    }
    CountedSame(cfg, history, key, n, n, now, n + 1, now);
  }

  lemma ForgottenGoesOn(cfg: Config, history: seq<Event>, j: nat, n: nat, now: real)
    requires j < n < |history| && !Turns(history[n], history[j].key)
    ensures Forgotten(cfg, history, j, n, now) <==> Forgotten(cfg, history, j, n + 1, now)
  {
    var k := n + 1;
    forall m: nat | m < n
      ensures ServedAfter(cfg, history, m, j, n, now) <==> ServedAfter(cfg, history, m, j, k, now)
    {
    }
    if m: nat :| m < k && ServedAfter(cfg, history, m, j, k, now) {
      assert m < n;
    }
  }

  lemma CountedAfterFailure(cfg: Config, history: seq<Event>, n: nat, now: real, end: real)
    requires Faithful(cfg, history, end) && n < |history| && history[n].Recorded? && history[n].at <= now
    requires Expire(cfg, StateAfter(cfg, history, history[n].key, n), history[n].at).failures
      == Counted(cfg, history, history[n].key, n, n, history[n].at)
    ensures Expire(cfg, StateAfter(cfg, history, history[n].key, n + 1), now).failures
      == Counted(cfg, history, history[n].key, n + 1, n + 1, now)
  {
    var key, s := history[n].key, StateAfter(cfg, history, history[n].key, n + 1);
    RecordedLocks(cfg, history, n, end);
    if LockOver(s, now) {
      forall j: nat | j <= n && history[j].key == key
        ensures !Counts(cfg, history, j, n + 1, now)
      {
        NothingCounts(cfg, history, n, j, now, end);
      }
      CountedNone(cfg, history, key, n + 1, n + 1, now);
    } else {
      CountedWithLast(cfg, history, n, now, end);
    }
  }

  lemma CountedWithLast(cfg: Config, history: seq<Event>, n: nat, now: real, end: real)
    requires Faithful(cfg, history, end) && n < |history| && history[n].Recorded? && history[n].at <= now
    requires !LockOver(StateAfter(cfg, history, history[n].key, n + 1), now)
    ensures var before := Counted(cfg, history, history[n].key, n, n, history[n].at);
      DropOld(before + [history[n].at], now - cfg.failureWindowSeconds as real)
      == Counted(cfg, history, history[n].key, n + 1, n + 1, now)
  {
    var key, e, cutoff := history[n].key, history[n], now - cfg.failureWindowSeconds as real;
    CountedUpTo(cfg, history, key, n, n, e.at, e.at);
    DropBeforeLast(Counted(cfg, history, key, n, n, e.at), e.at, cutoff);
    DropIsCounting(cfg, history, n, n, now, end);
    NewFailureCounts(cfg, history, n, now, end);
    if e.at <= cutoff {
      NoneThatOld(cfg, history, n, n, now);
    }
  }

  lemma {:induction false} CountedIsSet(cfg: Config, history: seq<Event>, key: Key, k: nat, n: nat, now: real)
    requires k <= n <= |history|
    ensures |Counted(cfg, history, key, k, n, now)|
      == |set j: nat | j < k && history[j].key == key && Counts(cfg, history, j, n, now)|
  {
    if k > 0 {
      CountedIsSet(cfg, history, key, k - 1, n, now);
      var rest := set j: nat | j < k - 1 && history[j].key == key && Counts(cfg, history, j, n, now);
      var all := set j: nat | j < k && history[j].key == key && Counts(cfg, history, j, n, now);
      var last: nat := k - 1;
      assert all == if history[last].key == key && Counts(cfg, history, last, n, now) then rest + {last} else rest;
      assert last !in rest;
    }
  }

  // ----- over runs -----

  lemma StepTimed(cfg: Config, w: World, step: Step)
    requires Enabled(w, step) && Timed(w.history, w.clock) && w.clock >= 0.0
    ensures Timed(Apply(cfg, w, step).history, Apply(cfg, w, step).clock)
  {
  }

  lemma {:induction false} RunTimed(cfg: Config, worlds: seq<World>, steps: seq<Step>, n: nat)
    requires Run(cfg, worlds, steps) && n <= |steps|
    ensures Timed(worlds[n].history, worlds[n].clock) && ReferenceAnswers(cfg, worlds[n].history)
  {
    RunInv(cfg, worlds, steps, n);
    if n > 0 {
      RunTimed(cfg, worlds, steps, n - 1);
      RunInv(cfg, worlds, steps, n - 1);
      StepTimed(cfg, worlds[n - 1], steps[n - 1]);
    }
  }

  /** In every interleaving a recorded failure locks its key exactly if it is at least the max_failures-th
      one that counts, and is then answered with the whole lockout; otherwise the answer is 0. */
  lemma LocksExactlyAtTheLimit(cfg: Config, worlds: seq<World>, steps: seq<Step>, n: nat, i: nat)
    requires cfg.LoginSettings() && Run(cfg, worlds, steps) && n <= |steps|
    requires i < |worlds[n].history| && worlds[n].history[i].Recorded?
    ensures var h := worlds[n].history; var e := h[i];
      var reached := |CountingFailures(cfg, h, e.key, i, e.at)| + 1 >= cfg.maxFailures;
      && (e.answer != 0 <==> reached)
      && e.answer == if reached then cfg.lockoutSeconds else 0
  {
    var h, end := worlds[n].history, worlds[n].clock;
    RunTimed(cfg, worlds, steps, n);
    RecordedLocks(cfg, h, i, end);
    FailuresAreCounted(cfg, h, h[i].key, i, h[i].at, end);
    CountedIsSet(cfg, h, h[i].key, i, i, h[i].at);
  }

  /** In every interleaving a key is reported locked exactly while its latest lock lasts, and then for the
      least whole number of seconds that reaches the end of that lock. */
  lemma ReportsTheLatestLock(cfg: Config, worlds: seq<World>, steps: seq<Step>, n: nat, i: nat)
    requires cfg.LoginSettings() && Run(cfg, worlds, steps) && n <= |steps|
    requires i < |worlds[n].history| && worlds[n].history[i].Asked?
    ensures var h := worlds[n].history; var e := h[i];
      && e.answer >= 0
      && (e.answer != 0 <==>
          exists m :: 0 <= m < i && Latest(h, e.key, m, i) && LockEnd(cfg, h[m]) > e.at)
      && (forall m :: 0 <= m < i && Latest(h, e.key, m, i) && LockEnd(cfg, h[m]) > e.at ==>
          e.at + (e.answer - 1) as real < LockEnd(cfg, h[m]) <= e.at + e.answer as real)
  {
    var h, end := worlds[n].history, worlds[n].clock;
    RunTimed(cfg, worlds, steps, n);
    LockIsLatest(cfg, h, h[i].key, i, h[i].at, end);
    assert AnsweredAt(cfg, h, i);
  }

  /** Under the login protocol this is plain: a failure counts if it lies inside the window and the key has
      neither locked nor seen a success since. */
  lemma LoginCounts(cfg: Config, history: seq<Event>, j: nat, i: nat, end: real)
    requires Faithful(cfg, history, end) && Disciplined(cfg, history)
    requires j < i < |history| && history[i].Recorded? && history[j].key == history[i].key
    ensures Counts(cfg, history, j, i, history[i].at) <==>
      && history[j].Recorded? && history[j].at > history[i].at - cfg.failureWindowSeconds as real
      && !exists m :: j <= m < i && Turns(history[m], history[i].key)
  {
    var key, t := history[i].key, history[i].at;
    if m: nat :| j <= m < i && Turns(history[m], key) && history[j].Recorded? {
      if Locking(history[m]) {
        LoginServed(cfg, history, m, i, end);
        assert ServedAfter(cfg, history, m, j, i, t);
      }
    }
    if m: nat :| m < i && ServedAfter(cfg, history, m, j, i, t) && history[j].Recorded? && m < j {
      LockKeepsOut(cfg, history, m, j, end);
    }
  }

  /** Under the login protocol every lock has been served when the key is judged again. */
  lemma LoginServed(cfg: Config, history: seq<Event>, m: nat, i: nat, end: real)
    requires Faithful(cfg, history, end) && Disciplined(cfg, history)
    requires m < i < |history| && history[m].key == history[i].key && Locking(history[m]) && history[i].Recorded?
    ensures Served(cfg, history, m, i, history[i].at)
  {
    LockKeepsOut(cfg, history, m, i, end);
    forall c | m < c < i && Turns(history[c], history[m].key)
      ensures history[c].at >= LockEnd(cfg, history[m])
    {
      LockKeepsOut(cfg, history, m, c, end);
    }
  }

  /** Under the login protocol: a failed verification locks exactly if it and the earlier ones on the key
      inside the window, with neither lock nor success since, number at least max_failures. */
  lemma LoginLocksExactlyAtTheLimit(cfg: Config, worlds: seq<World>, steps: seq<Step>, n: nat, i: nat)
    requires LoginRun(cfg, worlds, steps) && n <= |steps|
    requires i < |worlds[n].history| && worlds[n].history[i].Recorded?
    ensures var h := worlds[n].history; var e := h[i];
      var earlier := set j: nat | j < i && h[j].key == e.key && h[j].Recorded?
        && h[j].at > e.at - cfg.failureWindowSeconds as real && !exists m :: j <= m < i && Turns(h[m], e.key);
      e.answer == if |earlier| + 1 >= cfg.maxFailures then cfg.lockoutSeconds else 0
  {
    var h, e, end := worlds[n].history, worlds[n].history[i], worlds[n].clock;
    LoginRunInv(cfg, worlds, steps, n);
    RunTimed(cfg, worlds, steps, n);
    LocksExactlyAtTheLimit(cfg, worlds, steps, n, i);
    forall j: nat | j < i && h[j].key == e.key
      ensures Counts(cfg, h, j, i, e.at) <==>
        && h[j].Recorded? && h[j].at > e.at - cfg.failureWindowSeconds as real
        && !exists m :: j <= m < i && Turns(h[m], e.key)
    {
      LoginCounts(cfg, h, j, i, end);
    }
    assert CountingFailures(cfg, h, e.key, i, e.at) == set j: nat | j < i && h[j].key == e.key && h[j].Recorded?
      && h[j].at > e.at - cfg.failureWindowSeconds as real && !exists m :: j <= m < i && Turns(h[m], e.key);
  }
}
