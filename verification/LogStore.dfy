/** The log tables: what persisting an execution adds (app/execution_service.py), what the
    retention job removes (app/log_service.py), and what both keep. */
module LogStores {
  import opened Outcomes
  import opened Executions
  import opened Suppressions

  datatype MailStatus = MailSuccess | MailFailed | MailPartialFailed

  datatype ExecutionLog = ExecutionLog(
    ruleId: int, status: Status, startedAt: int, finishedAt: Option<int>, rowCount: nat, emailCount: nat)

  datatype MailLog = MailLog(executionLogId: nat, message: Message, status: MailStatus)

  type Mails = map<nat, MailLog>

  datatype Store = Store(executions: map<nat, ExecutionLog>, mails: Mails)

  // ----- consistency -----

  ghost predicate ForeignKeys(s: Store) {
    forall m :: m in s.mails ==> s.mails[m].executionLogId in s.executions
  }

  ghost predicate AllForeignKeys(states: seq<Store>) {
    forall i :: 0 <= i < |states| ==> ForeignKeys(states[i])
  }

  function MailsOf(mails: Mails, execution: nat): set<nat> {
    set m | m in mails && mails[m].executionLogId == execution
  }

  function MailsWith(mails: Mails, execution: nat, status: MailStatus): set<nat> {
    set m | m in mails && mails[m].executionLogId == execution && mails[m].status == status
  }

  /** The status that the mails of an execution call for. */
  function StatusOfMails(mails: Mails, execution: nat): Status {
    if MailsWith(mails, execution, MailSuccess) == MailsOf(mails, execution) then Success
    else if MailsWith(mails, execution, MailSuccess) == {} && MailsWith(mails, execution, MailPartialFailed) == {} then Failed
    else PartialFailed
  }

  /** Foreign keys hold, and an execution with mails counts its successful ones and has the
      status they call for. */
  ghost predicate Consistent(s: Store) {
    && ForeignKeys(s)
    && (forall e :: e in s.executions && MailsOf(s.mails, e) != {} ==> Tallied(s, e))
  }

  ghost predicate Tallied(s: Store, e: nat)
    requires e in s.executions
  {
    && s.executions[e].emailCount == |MailsWith(s.mails, e, MailSuccess)|
    && s.executions[e].status == StatusOfMails(s.mails, e)
  }

  // ----- persisting -----

  function MailLogOf(execution: nat, mail: MailResult): MailLog {
    MailLog(execution, mail.message,
      if mail.result.success then MailSuccess
      else if mail.result.partialSuccess then MailPartialFailed else MailFailed)
  }

  /** The table with the logs of the first n mails, numbered from firstId. */
  function WithMails(mails: Mails, execution: nat, firstId: nat, results: seq<MailResult>, n: nat): Mails
    requires n <= |results|
  {
    if n == 0 then mails
    else WithMails(mails, execution, firstId, results, n - 1)[firstId + n - 1 := MailLogOf(execution, results[n - 1])]
  }

  /** The i-th mail has its log under this execution. */
  predicate HasMailLog(mails: Mails, execution: nat, firstId: nat, results: seq<MailResult>, i: nat)
    requires i < |results|
  {
    var r := results[i];
    && firstId + i in mails
    && mails[firstId + i] == MailLog(execution, r.message,
         if r.result.success then MailSuccess else if r.result.partialSuccess then MailPartialFailed else MailFailed)
  }

  lemma {:induction false} MailLogsAre(mails: Mails, execution: nat, firstId: nat, results: seq<MailResult>, n: nat, i: nat)
    requires i < n <= |results|
    ensures HasMailLog(WithMails(mails, execution, firstId, results, n), execution, firstId, results, i)
    decreases n
  {
    if i < n - 1 {
      MailLogsAre(mails, execution, firstId, results, n - 1, i);
    }
  }

  ghost predicate HasMailLogs(mails: Mails, execution: nat, firstId: nat, results: seq<MailResult>) {
    forall i: nat :: i < |results| ==> HasMailLog(mails, execution, firstId, results, i)
  }

  lemma WithMailsHasLogs(mails: Mails, execution: nat, firstId: nat, results: seq<MailResult>)
    ensures HasMailLogs(WithMails(mails, execution, firstId, results, |results|), execution, firstId, results)
  {
    forall i: nat | i < |results|
      ensures HasMailLog(WithMails(mails, execution, firstId, results, |results|), execution, firstId, results, i)
    {
      MailLogsAre(mails, execution, firstId, results, |results|, i);
    }
  }

  function LogOf(ruleId: int, result: ExecutionResult, startedAt: int, finishedAt: int): ExecutionLog {
    ExecutionLog(ruleId, result.status, startedAt, Some(finishedAt), result.rowCount, result.mailCount)
  }

  function Persisted(s: Store, id: nat, log: ExecutionLog, firstMailId: nat, results: seq<MailResult>): Store {
    Store(s.executions[id := log], WithMails(s.mails, id, firstMailId, results, |results|))
  }

  /** Numbers not in use: above all that are. */
  ghost predicate Unused(s: Store, id: nat, firstMailId: nat) {
    (forall e :: e in s.executions ==> e < id) && (forall m :: m in s.mails ==> m < firstMailId)
  }

  /** What executions hand over: counts and status belong to the mails, if there are any. */
  ghost predicate Tally(result: ExecutionResult) {
    result.mailResults != [] ==>
      result.mailCount == Successes(result.mailResults) && result.status == StatusForMailResults(result.mailResults)
  }

  lemma AttemptsTally(
      rule: Rule, env: Environment, filtered: Result<seq<Row>>, result: ExecutionResult, note: nat)
    requires Attempted(rule, env, filtered, result)
    ensures Tally(result.(retryNote := note))
  {
  }

  class LogDatabase {
    var executions: map<nat, ExecutionLog>
    var mails: Mails
    var suppressions: Records               // of the rule at hand

    function View(): Store
      reads this
    {
      Store(executions, mails)
    }

    /** persist_execution_result: one transaction, which may fail as a whole. */
    method PersistExecutionResult(
        ruleId: int, result: ExecutionResult, suppressionState: Option<SuppressionState>,
        startedAt: int, finishedAt: int, id: nat, firstMailId: nat, fails: bool) returns (committed: bool)
      requires Unused(View(), id, firstMailId)
      modifies this
      ensures committed == !fails
      ensures !committed ==> View() == old(View()) && suppressions == old(suppressions)
      ensures committed ==>
        View() == Persisted(old(View()), id, LogOf(ruleId, result, startedAt, finishedAt), firstMailId, result.mailResults)
      ensures committed ==>
        && id in executions
        && executions[id] == ExecutionLog(ruleId, result.status, startedAt, Some(finishedAt), result.rowCount, result.mailCount)
      ensures committed ==> HasMailLogs(mails, id, firstMailId, result.mailResults)
      // only a success leaves suppression records
      ensures committed && suppressionState.Some? && result.status == Success ==>
        var st := suppressionState.value; suppressions == TouchAll(old(suppressions), st.newKeys + st.suppressedKeys, st.now)
      ensures suppressionState.None? || result.status != Success ==> suppressions == old(suppressions)
    {
      var pendingSuppressions := suppressions;
      if suppressionState.Some? && result.status == Success {
        pendingSuppressions := PersistSuppressionState(suppressions, suppressionState.value);
      }
      var pendingMails := mails;
      for i := 0 to |result.mailResults|
        invariant pendingMails == WithMails(mails, id, firstMailId, result.mailResults, i)
      {
        pendingMails := pendingMails[firstMailId + i := MailLogOf(id, result.mailResults[i])];
      }
      committed := !fails;
      if committed {
        executions := executions[id := LogOf(ruleId, result, startedAt, finishedAt)];
        WithMailsHasLogs(mails, id, firstMailId, result.mailResults);
        mails := pendingMails;
        suppressions := pendingSuppressions;
      }
    }

    /** SELECT id ... ORDER BY id LIMIT n of the expired executions. */
    method SelectExpired(cutoff: int, limit: nat) returns (ids: set<nat>)
      ensures ids <= Expired(View(), cutoff)
      ensures |ids| == limit || (|ids| < limit && ids == Expired(View(), cutoff))
      ensures forall a, b :: a in ids && b in Expired(View(), cutoff) - ids ==> a < b
    {
      ids := LeastIds(Expired(View(), cutoff), limit);
    }

    /** One turn of the loop, committed; the statements in between keep the foreign keys. */
    method PurgeBatch(ids: set<nat>) returns (ghost states: seq<Store>)
      modifies this`executions, this`mails
      ensures View() == Purged(old(View()), ids)
      ensures old(ForeignKeys(View())) ==> AllForeignKeys(states)
      ensures |states| == 2 && states[1] == View()
    {
      mails := map m | m in mails && mails[m].executionLogId !in ids :: mails[m];
      states := [View()];
      executions := executions - ids;
      states := states + [View()];
    }

    /** One turn of the loop, after the executions in `done` have gone; no ids, and nothing done, at the end. */
    method PurgeNext(cutoff: int, limit: nat, ghost before: Store, ghost done: set<nat>)
        returns (ids: set<nat>, ghost states: seq<Store>)
      requires limit > 0 && done <= Expired(before, cutoff) && View() == Purged(before, done)
      modifies this`executions, this`mails
      ensures ids <= Expired(before, cutoff) && ids !! done && View() == Purged(before, done + ids)
      ensures ids == {} ==> done == Expired(before, cutoff)
      ensures |ids| <= limit
      ensures ForeignKeys(before) ==> AllForeignKeys(states)
    {
      CleanupResumes(before, cutoff, done);
      ids := SelectExpired(cutoff, limit);
      if ids == {} {
        assert done + ids == done;
        return ids, [];
      }
      PurgedKeepsKeys(before, done);
      PurgedTwice(before, done, ids);
      states := PurgeBatch(ids);
    }

    /** cleanup_expired_logs. `failsAt` is the batch, if any, in which the database raises;
        `states` lists the tables after every single statement, `sizes` the executions per batch. */
    method CleanupExpiredLogs(now: int, retentionDays: int, batchSize: int, failsAt: Option<nat>)
        returns (outcome: Result<nat>, ghost states: seq<Store>, ghost sizes: seq<nat>)
      modifies this`executions, this`mails
      ensures batchSize <= 0 ==> outcome.Err? && View() == old(View())
      ensures outcome.Ok? ==>
        var expired := Expired(old(View()), now - retentionDays);
        View() == Purged(old(View()), expired) && outcome.value == |expired|
      ensures outcome.Ok? ==>
        forall e :: e in executions <==> e in old(executions) && Remains(old(executions)[e], now - retentionDays)
      // after an error the committed batches are gone and nothing else
      ensures outcome.Err? ==> exists done ::
        done <= Expired(old(View()), now - retentionDays) && View() == Purged(old(View()), done)
      ensures batchSize > 0 && failsAt.None? ==> outcome.Ok?
      ensures old(ForeignKeys(View())) ==> AllForeignKeys(states)
      ensures forall n :: n in sizes ==> 0 < n <= batchSize && n <= 500
    {
      states, sizes := [], [];
      PurgeNothing(View());
      if batchSize <= 0 {
        return Err("ValueError"), states, sizes;
      }
      var limit := if batchSize < DEFAULT_CLEANUP_BATCH_SIZE then batchSize else DEFAULT_CLEANUP_BATCH_SIZE;
      var cutoff := now - retentionDays;
      var deleted, batch := 0, 0;
      ghost var before, done: set<nat> := View(), {};
      while true
        invariant done <= Expired(before, cutoff) && View() == Purged(before, done) && deleted == |done|
        invariant ForeignKeys(before) ==> AllForeignKeys(states)
        invariant forall n :: n in sizes ==> 0 < n <= limit
        decreases Expired(before, cutoff) - done
      {
        if failsAt == Some(batch) {
          return Err("DatabaseError"), states, sizes;
        }
        var ids;
        ghost var more;
        ids, more := PurgeNext(cutoff, limit, before, done);
        states := states + more;
        if ids == {} {
          return Ok(deleted), states, sizes;
        }
        sizes := sizes + [|ids|];
        done := done + ids;
        deleted, batch := deleted + |ids|, batch + 1;
      }
    }
  }

  // ----- retention -----

  const DEFAULT_CLEANUP_BATCH_SIZE := 500

  /** Not finished, finished at the cutoff or later, or still running. */
  predicate Remains(log: ExecutionLog, cutoff: int) {
    log.finishedAt.None? || log.finishedAt.value >= cutoff || log.status == Running
  }

  predicate IsExpired(log: ExecutionLog, cutoff: int) {
    log.finishedAt.Some? && log.finishedAt.value < cutoff && log.status != Running
  }

  function Expired(s: Store, cutoff: int): set<nat> {
    set e | e in s.executions && IsExpired(s.executions[e], cutoff)
  }

  /** The tables without these executions and without their mails. */
  function Purged(s: Store, ids: set<nat>): Store {
    Store(s.executions - ids, map m | m in s.mails && s.mails[m].executionLogId !in ids :: s.mails[m])
  }

  lemma PurgeNothing(s: Store)
    ensures Purged(s, {}) == s
  {
  }

  lemma PurgedKeepsKeys(s: Store, ids: set<nat>)
    ensures ForeignKeys(s) ==> ForeignKeys(Purged(s, ids))
  {
  }

  lemma PurgedTwice(s: Store, a: set<nat>, b: set<nat>)
    ensures Purged(Purged(s, a), b) == Purged(s, a + b)
  {
    assert (s.executions - a) - b == s.executions - (a + b);
  }

  /** Purging keeps the tables consistent: whole executions go, each with all its mails. */
  lemma PurgedConsistent(s: Store, ids: set<nat>)
    requires Consistent(s)
    ensures Consistent(Purged(s, ids))
  {
    var t := Purged(s, ids);
    forall e | e in t.executions && MailsOf(t.mails, e) != {}
      ensures Tallied(t, e)
    {
      assert MailsOf(t.mails, e) == MailsOf(s.mails, e);
      assert forall st :: MailsWith(t.mails, e, st) == MailsWith(s.mails, e, st);
      assert Tallied(s, e);
    }
  }

  /** An aborted cleanup followed by a complete one with the same cutoff ends where an
      uninterrupted one ends. */
  lemma CleanupResumes(s: Store, cutoff: int, done: set<nat>)
    requires done <= Expired(s, cutoff)
    ensures Expired(Purged(s, done), cutoff) == Expired(s, cutoff) - done
    ensures Purged(Purged(s, done), Expired(Purged(s, done), cutoff)) == Purged(s, Expired(s, cutoff))
  {
    PurgedTwice(s, done, Expired(s, cutoff) - done);
    assert done + (Expired(s, cutoff) - done) == Expired(s, cutoff);
  }

  /** A nothing-left cleanup: what survives is exactly what was not expired. */
  lemma PurgeIsExact(s: Store, cutoff: int)
    requires ForeignKeys(s)
    ensures var t := Purged(s, Expired(s, cutoff));
      && Expired(t, cutoff) == {}
      && (forall e :: e in t.executions <==> e in s.executions && !IsExpired(s.executions[e], cutoff))
      && (forall m :: m in t.mails <==> m in s.mails && !IsExpired(s.executions[s.mails[m].executionLogId], cutoff))
      && (forall e :: e in t.executions ==> t.executions[e] == s.executions[e])
      && (forall m :: m in t.mails ==> t.mails[m] == s.mails[m])
  {
  }

  /** The `limit` least members, or all. */
  method LeastIds(all: set<nat>, limit: nat) returns (ids: set<nat>)
    ensures ids <= all
    ensures |ids| == limit || (|ids| < limit && ids == all)
    ensures forall a, b :: a in ids && b in all - ids ==> a < b
  {
    var rest := all;
    ids := {};
    while rest != {} && |ids| < limit
      invariant ids <= all && rest == all - ids && |ids| <= limit
      invariant forall a, b :: a in ids && b in rest ==> a < b
      decreases rest
    {
      ghost var least := LeastOf(rest);
      var next :| next in rest && forall e :: e in rest ==> next <= e;
      ids, rest := ids + {next}, rest - {next};
    }
  }

  lemma LeastOf(ids: set<nat>) returns (least: nat)
    requires ids != {}
    ensures least in ids && forall e :: e in ids ==> least <= e
  {
    var some :| some in ids;
    var smaller := set e | e in ids && e < some;
    if smaller == {} {
      least := some;
      assert forall e :: e in ids && e < some ==> e in smaller;
    } else {
      least := LeastOf(smaller);
      assert forall e :: e in ids && e !in smaller ==> some <= e;
    }
  }

  // ----- persisting keeps consistency -----

  lemma OneMail(mails: Mails, m: nat, entry: MailLog, e: nat, st: MailStatus)
    requires m !in mails
    ensures MailsOf(mails[m := entry], e) == MailsOf(mails, e) + (if e == entry.executionLogId then {m} else {})
    ensures MailsWith(mails[m := entry], e, st)
      == MailsWith(mails, e, st) + (if e == entry.executionLogId && st == entry.status then {m} else {})
  {
  }

  lemma OneResult(results: seq<MailResult>, mail: MailResult)
    ensures Successes(results + [mail]) == Successes(results) + if mail.result.success then 1 else 0
    ensures UnsuccessfulPartial(results + [mail])
      <==> UnsuccessfulPartial(results) || (!mail.result.success && mail.result.partialSuccess)
  {
    var more := results + [mail];
    assert more[..|more| - 1] == results;
    assert more[|results|] == mail && forall i :: 0 <= i < |results| ==> more[i] == results[i];
  }

  /** The two tables hold the same mails for this execution. */
  ghost predicate SameMails(before: Mails, after: Mails, e: nat) {
    MailsOf(after, e) == MailsOf(before, e) && forall st :: MailsWith(after, e, st) == MailsWith(before, e, st)
  }

  /** The new execution's mails, in numbers. */
  ghost predicate Counted(mails: Mails, id: nat, results: seq<MailResult>) {
    && |MailsWith(mails, id, MailSuccess)| == Successes(results)
    && |MailsOf(mails, id)| == |results|
    && (MailsWith(mails, id, MailPartialFailed) == {} <==> !UnsuccessfulPartial(results))
  }

  /** The mails of one execution, written one by one, seen from the tables. */
  ghost predicate Written(before: Mails, after: Mails, id: nat, end: nat, results: seq<MailResult>) {
    && (forall m :: m in after ==> m < end && (after[m].executionLogId == id || (m in before && after[m] == before[m])))
    && (forall e :: e != id ==> SameMails(before, after, e))
    && Counted(after, id, results)
  }

  ghost predicate UnsuccessfulPartial(results: seq<MailResult>) {
    exists i :: 0 <= i < |results| && !results[i].result.success && results[i].result.partialSuccess
  }

  lemma CountedOneMore(mails: Mails, id: nat, m: nat, results: seq<MailResult>, mail: MailResult)
    requires Counted(mails, id, results) && m !in mails
    ensures Counted(mails[m := MailLogOf(id, mail)], id, results + [mail])
  {
    OneResult(results, mail);
    OneMail(mails, m, MailLogOf(id, mail), id, MailSuccess);
    OneMail(mails, m, MailLogOf(id, mail), id, MailPartialFailed);
  }

  lemma OthersKeepMails(before: Mails, mails: Mails, m: nat, entry: MailLog, e: nat)
    requires m !in mails && SameMails(before, mails, e) && e != entry.executionLogId
    ensures SameMails(before, mails[m := entry], e)
  {
    forall st
      ensures MailsWith(mails[m := entry], e, st) == MailsWith(before, e, st)
    {
      OneMail(mails, m, entry, e, st);
    }
    OneMail(mails, m, entry, e, MailSuccess);
  }

  lemma WrittenOneMore(before: Mails, after: Mails, id: nat, end: nat, results: seq<MailResult>, mail: MailResult)
    requires Written(before, after, id, end, results)
    ensures Written(before, after[end := MailLogOf(id, mail)], id, end + 1, results + [mail])
  {
    var more := after[end := MailLogOf(id, mail)];
    CountedOneMore(after, id, end, results, mail);
    forall e | e != id
      ensures SameMails(before, more, e)
    {
      OthersKeepMails(before, after, end, MailLogOf(id, mail), e);
    }
  }

  lemma {:induction false} WithMailsIs(s: Store, id: nat, firstId: nat, results: seq<MailResult>, n: nat)
    requires n <= |results| && Unused(s, id, firstId) && ForeignKeys(s)
    ensures Written(s.mails, WithMails(s.mails, id, firstId, results, n), id, firstId + n, results[..n])
  {
    if n == 0 {
      assert MailsOf(s.mails, id) == {};
      assert forall st :: MailsWith(s.mails, id, st) == {};
    } else {
      WithMailsIs(s, id, firstId, results, n - 1);
      assert results[..n] == results[..n - 1] + [results[n - 1]];
      WrittenOneMore(s.mails, WithMails(s.mails, id, firstId, results, n - 1), id, firstId + n - 1,
        results[..n - 1], results[n - 1]);
    }
  }

  lemma SubsetOfSize(a: set<nat>, b: set<nat>)
    requires a <= b
    ensures |a| == |b| <==> a == b
  {
    assert b == a + (b - a);
  }

  lemma NewExecutionTallied(t: Store, id: nat, result: ExecutionResult)
    requires Counted(t.mails, id, result.mailResults) && Tally(result) && result.mailResults != [] && id in t.executions
    requires t.executions[id].status == result.status && t.executions[id].emailCount == result.mailCount
    ensures Tallied(t, id)
  {
    SubsetOfSize(MailsWith(t.mails, id, MailSuccess), MailsOf(t.mails, id));
    if Successes(result.mailResults) == 0 {
      assert AnyPartial(result.mailResults) <==> UnsuccessfulPartial(result.mailResults);
    }
  }

  /** A persisted execution leaves every execution tallied and every mail with its execution. */
  lemma PersistedConsistent(s: Store, id: nat, log: ExecutionLog, firstMailId: nat, result: ExecutionResult)
    requires Consistent(s) && Unused(s, id, firstMailId) && Tally(result)
    requires log.status == result.status && log.emailCount == result.mailCount
    ensures Consistent(Persisted(s, id, log, firstMailId, result.mailResults))
  {
    var results := result.mailResults;
    var t := Persisted(s, id, log, firstMailId, results);
    WithMailsIs(s, id, firstMailId, results, |results|);
    assert results[..|results|] == results;
    forall e | e in t.executions && MailsOf(t.mails, e) != {}
      ensures Tallied(t, e)
    {
      if e == id {
        NewExecutionTallied(t, id, result);
      } else {
        assert SameMails(s.mails, t.mails, e);
        assert Tallied(s, e);
      }
    }
  }

  // ----- every committed state -----

  /** What a commit does to the log tables: a finished execution is added, or a batch is purged. */
  datatype Commit =
    | Persist(id: nat, firstMailId: nat, ruleId: int, startedAt: int, finishedAt: int, result: ExecutionResult)
    | Purge(ids: set<nat>)

  function Committed(s: Store, c: Commit): Store {
    match c
    case Persist(id, firstMailId, ruleId, startedAt, finishedAt, result) =>
      Persisted(s, id, LogOf(ruleId, result, startedAt, finishedAt), firstMailId, result.mailResults)
    case Purge(ids) => Purged(s, ids)
  }

  ghost predicate Permitted(s: Store, c: Commit) {
    c.Persist? ==> Unused(s, c.id, c.firstMailId) && Tally(c.result)
  }

  /** Whatever executions and cleanups were committed, in every committed state each mail has
      its execution, and each execution with mails has the count and status they call for. */
  lemma {:induction false} CommittedStatesAreConsistent(states: seq<Store>, commits: seq<Commit>, n: nat)
    requires |states| == |commits| + 1 && n <= |commits|
    requires states[0] == Store(map[], map[])
    requires forall i :: 0 <= i < |commits| ==> Permitted(states[i], commits[i]) && states[i + 1] == Committed(states[i], commits[i])
    ensures Consistent(states[n])
  {
    if n > 0 {
      CommittedStatesAreConsistent(states, commits, n - 1);
      assert Permitted(states[n - 1], commits[n - 1]) && states[n] == Committed(states[n - 1], commits[n - 1]);
      match commits[n - 1]
      case Persist(id, firstMailId, ruleId, startedAt, finishedAt, result) =>
        PersistedConsistent(states[n - 1], id, LogOf(ruleId, result, startedAt, finishedAt), firstMailId, result);
      case Purge(ids) =>
        PurgedConsistent(states[n - 1], ids);
    }
  }

  // ----- cleanups among writers -----

  /** A cleanup removes only what was expired for it at that moment. */
  ghost predicate PurgesExpired(s: Store, c: Commit, cutoff: int) {
    c.Purge? ==> c.ids <= Expired(s, cutoff)
  }

  /** Commits of executions and of batches of cleanups, with cutoffs up to this one, in any order. */
  ghost predicate Interleaved(states: seq<Store>, commits: seq<Commit>, cutoff: int) {
    && |states| == |commits| + 1
    && forall i :: 0 <= i < |commits| ==>
      && Permitted(states[i], commits[i]) && PurgesExpired(states[i], commits[i], cutoff)
      && states[i + 1] == Committed(states[i], commits[i])
  }

  lemma {:induction false} OldMailsStay(mails: Mails, id: nat, firstId: nat, results: seq<MailResult>, n: nat, m: nat)
    requires n <= |results| && m < firstId
    ensures m in WithMails(mails, id, firstId, results, n) <==> m in mails
    ensures m in mails ==> WithMails(mails, id, firstId, results, n)[m] == mails[m]
  {
    if n > 0 {
      OldMailsStay(mails, id, firstId, results, n - 1, m);
    }
  }

  /** However cleanups and executions interleave: an execution that is not expired stays, with all its mails. */
  lemma {:induction false} UnexpiredStays(states: seq<Store>, commits: seq<Commit>, cutoff: int, i: nat, n: nat, e: nat)
    requires Interleaved(states, commits, cutoff) && i <= n <= |commits|
    requires e in states[i].executions && !IsExpired(states[i].executions[e], cutoff)
    ensures e in states[n].executions && states[n].executions[e] == states[i].executions[e]
    ensures forall m :: m in states[i].mails && states[i].mails[m].executionLogId == e ==>
      m in states[n].mails && states[n].mails[m] == states[i].mails[m]
    decreases n
  {
    if i < n {
      UnexpiredStays(states, commits, cutoff, i, n - 1, e);
      var s, c := states[n - 1], commits[n - 1];
      assert Permitted(s, c) && PurgesExpired(s, c, cutoff) && states[n] == Committed(s, c);
      if c.Persist? {
        forall m | m in s.mails
          ensures m in states[n].mails && states[n].mails[m] == s.mails[m]
        {
          OldMailsStay(s.mails, c.id, c.firstMailId, c.result.mailResults, |c.result.mailResults|, m);
        }
      }
    }
  }
}
