/** What the limiter was asked and answered, the reference limiter that keeps every key's
    state for ever, and what a history in which only unlocked keys are tried cannot contain. */
module LimiterHistory {
  import opened AttemptStates

  datatype Event =
    | Asked(key: Key, at: real, answer: int)
    | Recorded(key: Key, at: real, answer: int)
    | Cleared(key: Key, at: real)
    | Refused(key: Key, at: real, answer: int)   // no room for a new state

  // ----- the reference limiter: every key's state is kept for ever -----

  function ReplayEvent(cfg: Config, s: KeyState, e: Event): KeyState {
    match e
    case Recorded(_, at, _) => Record(cfg, Expire(cfg, s, at), at).0
    case Cleared(_, _) => EMPTY
    case _ => s
  }

  function Replay(cfg: Config, history: seq<Event>, key: Key): KeyState {
    if history == [] then EMPTY
    else
      var s, e := Replay(cfg, history[..|history| - 1], key), history[|history| - 1];
      if e.key == key then ReplayEvent(cfg, s, e) else s
  }

  /** The answer is the one the reference limiter gives in state `s`. */
  predicate ReferenceAnswer(cfg: Config, s: KeyState, e: Event) {
    match e
    case Asked(_, at, answer) => answer == RetryAfter(Expire(cfg, s, at), at)
    case Recorded(_, at, answer) => answer == Record(cfg, Expire(cfg, s, at), at).1
    case Cleared(_, _) => true
    case Refused(_, _, answer) => answer == CapacityRetryAfter(cfg)
  }

  ghost predicate AnsweredAt(cfg: Config, history: seq<Event>, i: nat)
    requires i < |history|
  {
    ReferenceAnswer(cfg, Replay(cfg, history[..i], history[i].key), history[i])
  }

  ghost predicate ReferenceAnswers(cfg: Config, history: seq<Event>) {
    forall i :: 0 <= i < |history| ==> AnsweredAt(cfg, history, i)
  }

  lemma ReplayOneMore(cfg: Config, history: seq<Event>, e: Event, key: Key)
    ensures Replay(cfg, history + [e], key) ==
      if e.key == key then ReplayEvent(cfg, Replay(cfg, history, key), e) else Replay(cfg, history, key)
  {
    assert (history + [e])[..|history + [e]| - 1] == history;
  }

  lemma AnswersOneMore(cfg: Config, history: seq<Event>, e: Event)
    requires ReferenceAnswers(cfg, history) && ReferenceAnswer(cfg, Replay(cfg, history, e.key), e)
    ensures ReferenceAnswers(cfg, history + [e])
  {
    var h := history + [e];
    forall i | 0 <= i < |h|
      ensures AnsweredAt(cfg, h, i)
    {
      if i < |history| {
        assert h[..i] == history[..i] && AnsweredAt(cfg, history, i);
      } else {
        assert h[..i] == history;
      }
    }
  }

  // ----- histories of the login protocol -----

  /** The key would be let through at `now`. */
  predicate Open(cfg: Config, history: seq<Event>, key: Key, now: real) {
    Expire(cfg, Replay(cfg, history, key), now).lockedUntil == 0.0
  }

  predicate Verdict(e: Event) {
    e.Recorded? || e.Cleared?
  }

  ghost predicate JudgedOpen(cfg: Config, history: seq<Event>, i: nat)
    requires i < |history|
  {
    Verdict(history[i]) ==> Open(cfg, history[..i], history[i].key, history[i].at)
  }

  /** Passwords are only ever judged on keys that are open at that moment. */
  ghost predicate Disciplined(cfg: Config, history: seq<Event>) {
    forall i :: 0 <= i < |history| ==> JudgedOpen(cfg, history, i)
  }

  lemma DisciplinedOneMore(cfg: Config, history: seq<Event>, e: Event)
    requires Disciplined(cfg, history) && (Verdict(e) ==> Open(cfg, history, e.key, e.at))
    ensures Disciplined(cfg, history + [e])
  {
    var h := history + [e];
    forall i | 0 <= i < |h|
      ensures JudgedOpen(cfg, h, i)
    {
      if i < |history| {
        assert h[..i] == history[..i] && JudgedOpen(cfg, history, i);
      } else {
        assert h[..i] == history;
      }
    }
  }

  lemma DisciplinedPrefix(cfg: Config, history: seq<Event>, n: nat)
    requires Disciplined(cfg, history) && n <= |history|
    ensures Disciplined(cfg, history[..n])
  {
    forall i | 0 <= i < n
      ensures JudgedOpen(cfg, history[..n], i)
    {
      assert history[..n][..i] == history[..i] && JudgedOpen(cfg, history, i);
    }
  }

  ghost predicate Timed(history: seq<Event>, now: real) {
    && (forall i :: 0 <= i < |history| ==> 0.0 <= history[i].at <= now)
    && (forall i, j :: 0 <= i <= j < |history| ==> history[i].at <= history[j].at)
  }

  /** Never more failures than allowed, and fewer while not locked. */
  predicate Bounded(cfg: Config, s: KeyState) {
    |s.failures| <= cfg.maxFailures && (s.lockedUntil == 0.0 ==> |s.failures| < cfg.maxFailures)
  }

  lemma ExpireBounded(cfg: Config, s: KeyState, now: real)
    requires cfg.LoginSettings() && Bounded(cfg, s)
    ensures Bounded(cfg, Expire(cfg, s, now))
  {
  }

  lemma RecordBounded(cfg: Config, s: KeyState, now: real)
    requires cfg.LoginSettings() && Bounded(cfg, s) && s.lockedUntil == 0.0 && now >= 0.0
    ensures Bounded(cfg, Record(cfg, s, now).0)
    ensures Record(cfg, s, now).1 != 0 <==> Record(cfg, s, now).0.lockedUntil == now + cfg.lockoutSeconds as real
    ensures Record(cfg, s, now).1 == 0 <==> Record(cfg, s, now).0.lockedUntil == 0.0
  {
  }

  lemma OpenStaysOpen(cfg: Config, history: seq<Event>, key: Key, t1: real, t2: real)
    requires t1 <= t2 && Open(cfg, history, key, t1)
    ensures Open(cfg, history, key, t2)
  {
    ExpireTwice(cfg, Replay(cfg, history, key), t1, t2);
  }

  lemma {:induction false} DisciplinedBounded(cfg: Config, history: seq<Event>, key: Key, now: real)
    requires cfg.LoginSettings() && Disciplined(cfg, history) && Timed(history, now)
    ensures Bounded(cfg, Replay(cfg, history, key))
  {
    if history != [] {
      var n := |history| - 1;
      var rest, e := history[..n], history[n];
      DisciplinedPrefix(cfg, history, n);
      DisciplinedBounded(cfg, rest, key, now);
      assert JudgedOpen(cfg, history, n);
      if e.key == key && e.Recorded? {
        ExpireBounded(cfg, Replay(cfg, rest, key), e.at);
        RecordBounded(cfg, Expire(cfg, Replay(cfg, rest, key), e.at), e.at);
      }
    }
  }

  // ----- a lock holds for the whole lockout -----

  lemma LockUntouched(cfg: Config, history: seq<Event>, e: Event, key: Key, until: real)
    requires Replay(cfg, history, key).lockedUntil == until && 0.0 <= e.at < until
    requires Verdict(e) ==> Open(cfg, history, e.key, e.at)
    ensures Replay(cfg, history + [e], key).lockedUntil == until
    ensures e.key == key ==> !Verdict(e)
    ensures e.key == key && e.Asked? && ReferenceAnswer(cfg, Replay(cfg, history, key), e) ==> e.answer != 0
  {
    ReplayOneMore(cfg, history, e, key);
  }

  lemma LockSet(cfg: Config, history: seq<Event>, e: Event)
    requires cfg.LoginSettings() && e.Recorded? && e.answer != 0 && e.at >= 0.0
    requires ReferenceAnswer(cfg, Replay(cfg, history, e.key), e)
    ensures Replay(cfg, history + [e], e.key).lockedUntil == e.at + cfg.lockoutSeconds as real
  {
    ReplayOneMore(cfg, history, e, e.key);
  }

  lemma {:induction false} LockHolds(cfg: Config, history: seq<Event>, i: nat, j: nat, now: real)
    requires cfg.LoginSettings() && Disciplined(cfg, history) && Timed(history, now) && ReferenceAnswers(cfg, history)
    requires i < j <= |history| && history[i].Recorded? && history[i].answer != 0
    requires forall m :: i < m < j ==> history[m].at < history[i].at + cfg.lockoutSeconds as real
    ensures Replay(cfg, history[..j], history[i].key).lockedUntil == history[i].at + cfg.lockoutSeconds as real
  {
    assert history[..j] == history[..j - 1] + [history[j - 1]];
    assert AnsweredAt(cfg, history, i) && JudgedOpen(cfg, history, j - 1);
    if j == i + 1 {
      LockSet(cfg, history[..i], history[i]);
    } else {
      LockHolds(cfg, history, i, j - 1, now);
      LockUntouched(cfg, history[..j - 1], history[j - 1], history[i].key, history[i].at + cfg.lockoutSeconds as real);
    }
  }

  /** After a locking failure at time t, nothing is judged on that key and no wait of 0 is
      reported before t + lockoutSeconds. */
  lemma LockKeepsOut(cfg: Config, history: seq<Event>, i: nat, j: nat, now: real)
    requires cfg.LoginSettings() && Disciplined(cfg, history) && Timed(history, now) && ReferenceAnswers(cfg, history)
    requires i < j < |history| && history[i].key == history[j].key
    requires history[i].Recorded? && history[i].answer != 0
    requires Verdict(history[j]) || (history[j].Asked? && history[j].answer == 0)
    ensures history[j].at >= history[i].at + cfg.lockoutSeconds as real
  {
    if history[j].at < history[i].at + cfg.lockoutSeconds as real {
      LockHolds(cfg, history, i, j, now);
      assert AnsweredAt(cfg, history, j) && JudgedOpen(cfg, history, j);
      LockUntouched(cfg, history[..j], history[j], history[i].key, history[i].at + cfg.lockoutSeconds as real);
    }
  }

  // ----- the number of failures in a short span -----

  ghost function Failures(history: seq<Event>, key: Key, a: nat, b: nat): nat
    requires a <= b <= |history|
  {
    if a == b then 0
    else Failures(history, key, a, b - 1) + if history[b - 1].key == key && history[b - 1].Recorded? then 1 else 0
  }

  /** The last n failures are no older than `from`. */
  ghost predicate Recent(s: KeyState, n: nat, from: real) {
    n <= |s.failures| && forall i :: |s.failures| - n <= i < |s.failures| ==> s.failures[i] >= from
  }

  predicate LockOver(s: KeyState, now: real) {
    s.lockedUntil != 0.0 && s.lockedUntil <= now
  }

  lemma ExpireKeepsRecent(cfg: Config, s: KeyState, n: nat, from: real, now: real)
    requires Recent(s, n, from)
    requires now < from + cfg.failureWindowSeconds as real && (n > 0 ==> !LockOver(s, now))
    ensures Recent(Expire(cfg, s, now), n, from)
  {
    if n > 0 {
      var cutoff := now - cfg.failureWindowSeconds as real;
      DropOldKeepsRecent(s.failures, cutoff, n);
      var f, g := s.failures, DropOld(s.failures, cutoff);
      forall i | |g| - n <= i < |g|
        ensures g[i] >= from
      {
        assert g[i] == g[|g| - n..][i - (|g| - n)] == f[|f| - n..][i - (|g| - n)];
      }
    }
  }

  lemma RecordAddsRecent(cfg: Config, s: KeyState, n: nat, from: real, now: real)
    requires Recent(s, n, from) && from <= now
    requires now < from + cfg.failureWindowSeconds as real && (n > 0 ==> !LockOver(s, now))
    ensures Recent(Record(cfg, Expire(cfg, s, now), now).0, n + 1, from)
  {
    ExpireKeepsRecent(cfg, s, n, from, now);
  }

  /** The i-th event is no success; if it is a failure, it lies within the failure window after `from`
      and finds no lock over that was set since the a-th. */
  ghost predicate QuietEvent(cfg: Config, history: seq<Event>, a: nat, i: nat, from: real)
    requires a <= i < |history|
  {
    var e := history[i];
    && !e.Cleared?
    && (e.Recorded? ==>
        && from <= e.at < from + cfg.failureWindowSeconds as real
        && (Failures(history, e.key, a, i) > 0 ==> !LockOver(Replay(cfg, history[..i], e.key), e.at)))
  }

  /** Between a and b, all within the failure window, the key sees no success and no lock of its own end. */
  ghost predicate QuietSpan(cfg: Config, history: seq<Event>, key: Key, a: nat, b: nat, from: real) {
    a <= b <= |history| && forall i :: a <= i < b && history[i].key == key ==> QuietEvent(cfg, history, a, i, from)
  }

  lemma {:induction false} SpanRecent(cfg: Config, history: seq<Event>, key: Key, a: nat, b: nat, from: real)
    requires cfg.LoginSettings() && QuietSpan(cfg, history, key, a, b, from)
    ensures Recent(Replay(cfg, history[..b], key), Failures(history, key, a, b), from)
  {
    if a < b {
      var e, n := history[b - 1], Failures(history, key, a, b - 1);
      SpanRecent(cfg, history, key, a, b - 1, from);
      assert history[..b] == history[..b - 1] + [e];
      ReplayOneMore(cfg, history[..b - 1], e, key);
      if e.key == key {
        assert QuietEvent(cfg, history, a, b - 1, from);
        if e.Recorded? {
          RecordAddsRecent(cfg, Replay(cfg, history[..b - 1], key), n, from, e.at);
        }
      }
    }
  }

  /** Within one failure window, with no success and no lock that was set and ended meanwhile, a key
      sees at most maxFailures failed verifications. */
  lemma RateLimit(cfg: Config, history: seq<Event>, key: Key, a: nat, b: nat, from: real, now: real)
    requires cfg.LoginSettings() && Disciplined(cfg, history) && Timed(history, now)
    requires QuietSpan(cfg, history, key, a, b, from)
    ensures Failures(history, key, a, b) <= cfg.maxFailures
  {
    DisciplinedPrefix(cfg, history, b);
    DisciplinedBounded(cfg, history[..b], key, now);
    SpanRecent(cfg, history, key, a, b, from);
  }

  // ----- spans shorter than the lockout -----

  /** No success on the key between a and b, all within less than window and lockout after `from`. */
  ghost predicate ShortSpan(cfg: Config, history: seq<Event>, key: Key, a: nat, b: nat, from: real) {
    && a <= b <= |history|
    && forall i :: a <= i < b && history[i].key == key ==> (
        && !history[i].Cleared?
        && from <= history[i].at
        && history[i].at < from + cfg.failureWindowSeconds as real
        && history[i].at < from + cfg.lockoutSeconds as real)
  }

  lemma {:induction false} LocksAreNew(cfg: Config, history: seq<Event>, key: Key, a: nat, b: nat, from: real)
    requires cfg.LoginSettings() && Disciplined(cfg, history) && ShortSpan(cfg, history, key, a, b, from)
    ensures var until := Replay(cfg, history[..b], key).lockedUntil;
      Failures(history, key, a, b) > 0 ==> until == 0.0 || until >= from + cfg.lockoutSeconds as real
  {
    if a < b {
      var e := history[b - 1];
      LocksAreNew(cfg, history, key, a, b - 1, from);
      assert history[..b] == history[..b - 1] + [e];
      ReplayOneMore(cfg, history[..b - 1], e, key);
      assert JudgedOpen(cfg, history, b - 1);
    }
  }

  /** A span shorter than window and lockout is a quiet one if it has no success. */
  lemma ShortSpanIsQuiet(cfg: Config, history: seq<Event>, key: Key, a: nat, b: nat, from: real)
    requires cfg.LoginSettings() && Disciplined(cfg, history) && ShortSpan(cfg, history, key, a, b, from)
    ensures QuietSpan(cfg, history, key, a, b, from)
  {
    forall i | a <= i < b && history[i].key == key
      ensures QuietEvent(cfg, history, a, i, from)
    {
      LocksAreNew(cfg, history, key, a, i, from);
    }
  }
}
