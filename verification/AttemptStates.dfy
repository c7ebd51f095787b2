/** The state that the login limiter keeps for one key, as a value, with the
    operations of app/web_security.py on it and the laws the rest rests on.
    Times are reals: the source rounds waiting times up, so fractions matter. */
module AttemptStates {

  datatype Config = Config(
    maxFailures: int,
    failureWindowSeconds: int,
    lockoutSeconds: int,
    maxStates: int,
    cleanupIntervalSeconds: real,
    cleanupBatchSize: int)
  {
    /** What the constructor of the limiter checks. */
    predicate Accepted() {
      maxStates >= 1 && cleanupIntervalSeconds > 0.0 && cleanupBatchSize >= 1
    }

    /** What app/settings.py demands of the three login settings. */
    predicate LoginSettings() {
      maxFailures > 0 && failureWindowSeconds > 0 && lockoutSeconds > 0
    }
  }

  /** Client and sha256 digest of the normalised user name (`_key`). */
  datatype Key = Key(clientId: string, usernameDigest: seq<bv8>)

  datatype KeyState = KeyState(failures: seq<real>, lockedUntil: real)

  const EMPTY := KeyState([], 0.0)

  function Ceil(x: real): (r: int)
    ensures (r - 1) as real < x <= r as real
  {
    -((-x).Floor)
  }

  /** The popleft loop of _expire_state. */
  function DropOld(failures: seq<real>, cutoff: real): (r: seq<real>)
    ensures |r| <= |failures|
    ensures r != [] ==> r[0] > cutoff
  {
    if failures != [] && failures[0] <= cutoff then DropOld(failures[1..], cutoff) else failures
  }

  function Expire(cfg: Config, s: KeyState, now: real): KeyState {
    var unlocked := if s.lockedUntil != 0.0 && s.lockedUntil <= now then EMPTY else s;
    unlocked.(failures := DropOld(unlocked.failures, now - cfg.failureWindowSeconds as real))
  }

  function RetryAfter(s: KeyState, now: real): int {
    if s.lockedUntil <= now then 0 else Ceil(s.lockedUntil - now)
  }

  /** The part of record_failure after the state has been found: new state and answer. */
  function Record(cfg: Config, s: KeyState, now: real): (KeyState, int) {
    var failures := s.failures + [now];
    if |failures| < cfg.maxFailures then (s.(failures := failures), 0)
    else (KeyState(failures, now + cfg.lockoutSeconds as real), cfg.lockoutSeconds)
  }

  function CapacityRetryAfter(cfg: Config): (r: int)
    ensures r >= 1 && r as real >= cfg.cleanupIntervalSeconds
    ensures r == 1 || (r - 1) as real < cfg.cleanupIntervalSeconds
  {
    var c := Ceil(cfg.cleanupIntervalSeconds);
    if c > 1 then c else 1
  }

  /** A reported wait is the least whole number of seconds after which the lock is over. */
  lemma RetryAfterIsLeast(s: KeyState, now: real, r: int)
    requires r >= 0
    ensures now + RetryAfter(s, now) as real >= s.lockedUntil
    ensures RetryAfter(s, now) >= 0
    ensures now + r as real >= s.lockedUntil ==> RetryAfter(s, now) <= r
    ensures RetryAfter(s, now) == 0 <==> s.lockedUntil <= now
  {
  }

  lemma {:induction false} DropOldTwice(failures: seq<real>, c1: real, c2: real)
    requires c1 <= c2
    ensures DropOld(DropOld(failures, c1), c2) == DropOld(failures, c2)
  {
    if failures != [] && failures[0] <= c1 {
      DropOldTwice(failures[1..], c1, c2);
    }
  }

  /** Lazy expiry may be done early, late or several times. */
  lemma ExpireTwice(cfg: Config, s: KeyState, t1: real, t2: real)
    requires t1 <= t2
    ensures Expire(cfg, Expire(cfg, s, t1), t2) == Expire(cfg, s, t2)
  {
    var c1, c2 := t1 - cfg.failureWindowSeconds as real, t2 - cfg.failureWindowSeconds as real;
    if s.lockedUntil != 0.0 && s.lockedUntil <= t1 {
      assert Expire(cfg, s, t1) == EMPTY == Expire(cfg, s, t2);
    } else {
      assert Expire(cfg, s, t1) == s.(failures := DropOld(s.failures, c1));
      DropOldTwice(s.failures, c1, c2);
    }
  }

  /** Two states that look the same at t1 look the same ever after. */
  lemma ExpireAgrees(cfg: Config, a: KeyState, b: KeyState, t1: real, t2: real)
    requires t1 <= t2 && Expire(cfg, a, t1) == Expire(cfg, b, t1)
    ensures Expire(cfg, a, t2) == Expire(cfg, b, t2)
  {
    ExpireTwice(cfg, a, t1, t2);
    ExpireTwice(cfg, b, t1, t2);
  }

  /** The entries after the cutoff all survive. */
  lemma {:induction false} DropOldKeepsRecent(failures: seq<real>, cutoff: real, n: nat)
    requires n <= |failures|
    requires forall i :: |failures| - n <= i < |failures| ==> failures[i] > cutoff
    ensures n <= |DropOld(failures, cutoff)|
    ensures DropOld(failures, cutoff)[|DropOld(failures, cutoff)| - n..] == failures[|failures| - n..]
  {
    if failures != [] && failures[0] <= cutoff {
      DropOldKeepsRecent(failures[1..], cutoff, n);
    }
  }
}
