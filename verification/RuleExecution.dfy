/** A whole execution of a rule (app/execution_service.py:91-140): lease, attempts, and the
    transaction that writes down what happened. */
module RuleExecutions {
  import opened Outcomes
  import opened Executions
  import opened Suppressions
  import opened LogStores
  import ExecutionLeases

  /** What is outside the process: the lease clock and token, the clock around the attempts, the
      numbers the database assigns, and which of its calls raise. */
  datatype Surroundings = Surroundings(
    token: ExecutionLeases.Token, acquiredAt: int, leaseSeconds: int, startedAt: int, finishedAt: int,
    id: nat, firstMailId: nat, upsertRaises: bool, persistRaises: bool, releaseRaises: bool)
  {
    function Row(): ExecutionLeases.Row {
      ExecutionLeases.Row(token, acquiredAt + leaseSeconds)
    }
  }

  /** Where the call ends: before the lease, or as the context manager ends. The log is returned
      exactly if that one is finished. */
  datatype Ending = RuleNotFound | Leased(outcome: ExecutionLeases.Outcome)

  /** The run as duplicate suppression remembers it. */
  function RunOf(env: Environment, setting: Option<Setting>, success: bool): RuleRun {
    if setting.None? then RuleRun(env.now, [], "", 0, false)
    else RuleRun(env.now, if env.query.Ok? then env.query.value else [], setting.value.field, setting.value.windowHours, success)
  }

  /** A run that leaves no trace. */
  lemma FruitlessRun(history: seq<RuleRun>, run: RuleRun)
    requires !run.success
    ensures After(history + [run]) == After(history)
  {
    assert (history + [run])[..|history|] == history;
  }

  /** The attempt came as far as filtering its rows. */
  predicate Filtered(env: Environment, filtered: Result<seq<Row>>) {
    env.setup.Ok? && env.sqlCheck.Ok? && env.query.Ok? && filtered.Ok?
  }

  lemma SuccessfulAttemptFiltered(rule: Rule, env: Environment, filtered: Result<seq<Row>>, result: ExecutionResult)
    requires Attempted(rule, env, filtered, result) && result.status == Success
    ensures Filtered(env, filtered)
  {
  }

  /** What persisting a successful attempt writes is what one more run of the history leaves. */
  lemma HistoryGrows(env: Environment, setting: Setting, history: seq<RuleRun>)
    requires env.query.Ok?
    ensures var state := Collected(env.query.value, setting, After(history), env.now);
      TouchAll(After(history), state.newKeys + state.suppressedKeys, env.now)
      == After(history + [RunOf(env, Some(setting), true)])
  {
    RunExtendsHistory(history, RunOf(env, Some(setting), true));
  }

  lemma CollectedState(rule: Rule, setting: Setting, records: Records, env: Environment, result: ExecutionResult)
    requires AttemptedOver(rule, Some(setting), records, env, result) && result.status == Success
    ensures env.query.Ok? && StateOf(Some(setting), records, env) == Some(Collected(env.query.value, setting, records, env.now))
  {
    SuccessfulAttemptFiltered(rule, env, FilterOutcome(Some(setting), records, env), result);
  }

  /** One log, of this result, or nothing at all. */
  ghost predicate Logged(ruleId: int, around: Surroundings, result: ExecutionResult, before: Store, after: Store) {
    after == if around.persistRaises then before
      else Persisted(before, around.id, LogOf(ruleId, result, around.startedAt, around.finishedAt), around.firstMailId,
                     result.mailResults)
  }

  /** The transaction at the end, with the suppression state that the attempt itself has collected. */
  method PersistAttempt(db: LogDatabase, ruleId: int, ghost rule: Rule, ghost setting: Option<Setting>,
      ghost env: Environment, result: ExecutionResult, state: Option<SuppressionState>, around: Surroundings,
      ghost attempt: ExecutionResult, ghost history: seq<RuleRun>) returns (committed: bool)
    requires Unused(db.View(), around.id, around.firstMailId) && db.suppressions == After(history)
    requires AttemptedOver(rule, setting, After(history), env, attempt) && state == StateOf(setting, After(history), env)
    requires result == attempt.(retryNote := result.retryNote)
    modifies db
    ensures committed == !around.persistRaises && Logged(ruleId, around, attempt, old(db.View()), db.View())
    ensures db.suppressions == After(history + [RunOf(env, setting, committed && attempt.status == Success)])
  {
    committed := db.PersistExecutionResult(ruleId, result, state, around.startedAt, around.finishedAt, around.id,
      around.firstMailId, around.persistRaises);
    if setting.Some? && committed && attempt.status == Success {
      CollectedState(rule, setting.value, After(history), env, attempt);
      HistoryGrows(env, setting.value, history);
    } else {
      FruitlessRun(history, RunOf(env, setting, committed && attempt.status == Success));
    }
  }

  lemma LoggedConsistent(rule: Rule, env: Environment, filtered: Result<seq<Row>>, ruleId: int, around: Surroundings,
      result: ExecutionResult, before: Store, after: Store)
    requires Attempted(rule, env, filtered, result) && Unused(before, around.id, around.firstMailId)
    requires Logged(ruleId, around, result, before, after) && Consistent(before)
    ensures Consistent(after)
  {
    AttemptsTally(rule, env, filtered, result, result.retryNote);
    if !around.persistRaises {
      PersistedConsistent(before, around.id, LogOf(ruleId, result, around.startedAt, around.finishedAt),
        around.firstMailId, result);
    }
  }

  // ----- which rows are mailed -----

  /** The rows an attempt is to mail about: all rows of the query, or those that the history of the
      rule leaves due. */
  ghost function RowsToMail(setting: Option<Setting>, history: seq<RuleRun>, env: Environment): seq<Row>
    requires env.query.Ok?
  {
    if setting.None? then env.query.value
    else DueRows(history, RunOf(env, setting, false), |env.query.value|)
  }

  /** The clock has not gone back since the runs of the history. */
  ghost predicate InOrder(setting: Option<Setting>, history: seq<RuleRun>, env: Environment) {
    Chronological(history + [RunOf(env, setting, false)])
  }

  lemma FilteredAreToMail(setting: Option<Setting>, history: seq<RuleRun>, env: Environment)
    requires InOrder(setting, history, env) && FilterOutcome(setting, After(history), env).Ok?
    ensures FilterOutcome(setting, After(history), env).value == RowsToMail(setting, history, env)
  {
    if setting.Some? {
      PassedAreDue(history, RunOf(env, setting, false), |env.query.value|);
    }
  }

  /** From end to end: the mails of an attempt are about exactly the rows that have no key, or are
      the first of the run with their key and were seen by no earlier committed SUCCESS within the
      window; one mail per such row, or one about all of them. */
  lemma MailsFollowHistory(rule: Rule, setting: Option<Setting>, history: seq<RuleRun>, env: Environment,
      result: ExecutionResult)
    requires AttemptedOver(rule, setting, After(history), env, result) && result.mailResults != []
    requires InOrder(setting, history, env)
    ensures env.query.Ok? && MailsAbout(rule, env, RowsToMail(setting, history, env), result.mailResults)
  {
    var filtered := FilterOutcome(setting, After(history), env);
    MailsAreAboutFiltered(rule, env, filtered, result);
    FilteredAreToMail(setting, history, env);
  }

  /** With nothing due an attempt that got so far succeeds without a mail. */
  lemma NothingDueNothingSent(rule: Rule, setting: Option<Setting>, history: seq<RuleRun>, env: Environment,
      result: ExecutionResult)
    requires AttemptedOver(rule, setting, After(history), env, result) && InOrder(setting, history, env)
    requires Filtered(env, FilterOutcome(setting, After(history), env))
    requires RowsToMail(setting, history, env) == []
    ensures result.status == Success && result.mailResults == []
  {
    FilteredAreToMail(setting, history, env);
  }

  // ----- the call -----

  /** The last attempt: its number, what it met and what it ended with. */
  datatype Attempt = Attempt(number: nat, env: Environment, result: ExecutionResult)

  /** The attempts of a call over the history of the rule, and what became of them. */
  ghost predicate Attempts(rule: Rule, setting: Option<Setting>, history: seq<RuleRun>, environments: seq<Environment>,
      maxAttempts: int, earlier: seq<ExecutionResult>, last: Attempt)
    requires |environments| >= TotalAttempts(maxAttempts)
  {
    && 1 <= last.number <= TotalAttempts(maxAttempts) && last.env == environments[last.number - 1]
    && |earlier| == last.number - 1
    && Retried(rule, setting, After(history), environments, earlier)
    && AttemptedOver(rule, setting, After(history), last.env, last.result)
    && (Retryable(last.result) ==> last.number == TotalAttempts(maxAttempts))
  }

  /** The mails of the last attempt are about the rows to mail. */
  ghost predicate MailsDue(rule: Rule, setting: Option<Setting>, history: seq<RuleRun>, last: Attempt) {
    last.result.mailResults != [] && InOrder(setting, history, last.env) ==>
      last.env.query.Ok? && MailsAbout(rule, last.env, RowsToMail(setting, history, last.env), last.result.mailResults)
  }

  lemma AttemptsMailDue(rule: Rule, setting: Option<Setting>, history: seq<RuleRun>, environments: seq<Environment>,
      maxAttempts: int, earlier: seq<ExecutionResult>, last: Attempt)
    requires |environments| >= TotalAttempts(maxAttempts)
    requires Attempts(rule, setting, history, environments, maxAttempts, earlier, last)
    ensures MailsDue(rule, setting, history, last)
  {
    if last.result.mailResults != [] && InOrder(setting, history, last.env) {
      MailsFollowHistory(rule, setting, history, last.env, last.result);
    }
  }

  /** What a call does outside: the log tables, the suppression table of the rule and the mailboxes. */
  datatype Effects = Effects(store: Store, suppressions: Records, delivered: seq<Delivery>)

  /** The new log, with what the attempt ended with. */
  ghost predicate HasLog(store: Store, ruleId: int, around: Surroundings, result: ExecutionResult) {
    && around.id in store.executions
    && store.executions[around.id] == ExecutionLog(
         ruleId, result.status, around.startedAt, Some(around.finishedAt), result.rowCount, result.mailCount)
  }

  /** What the body of the `with` statement leaves behind. Whatever reached a mailbox was sent by the
      last attempt, about the rows that the history leaves due; that attempt has the one new log, if
      the transaction was committed; and the suppression table is that of a history with one more run. */
  ghost predicate Performed(ruleId: int, rule: Rule, setting: Option<Setting>, history: seq<RuleRun>, around: Surroundings,
      environments: seq<Environment>, maxAttempts: int, earlier: seq<ExecutionResult>, last: Attempt,
      before: Effects, after: Effects)
    requires |environments| >= TotalAttempts(maxAttempts)
  {
    && Attempts(rule, setting, history, environments, maxAttempts, earlier, last)
    && MailsDue(rule, setting, history, last)
    && after.delivered == before.delivered + DeliveredBy(last.env, last.result.mailResults)
    && Logged(ruleId, around, last.result, before.store, after.store)
    && (!around.persistRaises ==> HasLog(after.store, ruleId, around, last.result))
    && (Consistent(before.store) ==> Consistent(after.store))
    && after.suppressions
      == After(history + [RunOf(last.env, setting, !around.persistRaises && last.result.status == Success)])
  }

  /** The body of the `with` statement: the attempts, then the transaction. */
  method RunAndPersist(db: LogDatabase, server: MailServer, ruleId: int, rule: Rule, setting: Option<Setting>,
      environments: seq<Environment>, maxAttempts: int, around: Surroundings, ghost history: seq<RuleRun>)
      returns (committed: bool, ghost earlier: seq<ExecutionResult>, ghost last: Attempt)
    requires |environments| >= TotalAttempts(maxAttempts)
    requires Unused(db.View(), around.id, around.firstMailId) && db.suppressions == After(history)
    modifies db, server
    ensures committed == !around.persistRaises
    ensures Performed(ruleId, rule, setting, history, around, environments, maxAttempts, earlier, last,
                      old(EffectsOf(db, server)), EffectsOf(db, server))
  {
    var result, state, used;
    ghost var lastResult;
    result, state, used, earlier, lastResult :=
      ExecuteWithRetries(server, rule, setting, db.suppressions, environments, maxAttempts);
    last := Attempt(used, environments[used - 1], lastResult);
    AttemptsMailDue(rule, setting, history, environments, maxAttempts, earlier, last);
    committed := PersistAttempt(db, ruleId, rule, setting, environments[used - 1], result, state, around, lastResult,
      history);
    if old(Consistent(db.View())) {
      LoggedConsistent(rule, last.env, FilterOutcome(setting, After(history), last.env), ruleId, around,
        lastResult, old(db.View()), db.View());
    }
  }

  function EffectsOf(db: LogDatabase, server: MailServer): Effects
    reads db, server
  {
    Effects(db.View(), db.suppressions, server.delivered)
  }

  /** The `with` statement from its body on; `before` is what it finds outside. */
  method RunUnderLease(db: LogDatabase, leases: ExecutionLeases.LeaseTable, server: MailServer, ruleId: int, rule: Rule,
      setting: Option<Setting>, environments: seq<Environment>, maxAttempts: int, around: Surroundings,
      ghost history: seq<RuleRun>, ghost before: Effects)
      returns (outcome: ExecutionLeases.Outcome, ghost earlier: seq<ExecutionResult>, ghost last: Attempt)
    requires |environments| >= TotalAttempts(maxAttempts) && before == EffectsOf(db, server)
    requires Unused(db.View(), around.id, around.firstMailId) && db.suppressions == After(history)
    modifies db, leases, server
    ensures Performed(ruleId, rule, setting, history, around, environments, maxAttempts, earlier, last,
                      before, EffectsOf(db, server))
    ensures outcome.Finished? ==> HasLog(db.View(), ruleId, around, last.result)
    ensures leases.rows ==
      if around.releaseRaises then old(leases.rows) else ExecutionLeases.Deleted(old(leases.rows), ruleId, around.token)
    ensures outcome ==
      if around.persistRaises then ExecutionLeases.Raised(ExecutionLeases.BodyError)
      else if around.releaseRaises then ExecutionLeases.Raised(ExecutionLeases.ReleaseError)
      else ExecutionLeases.Finished
  {
    var committed;
    committed, earlier, last :=
      RunAndPersist(db, server, ruleId, rule, setting, environments, maxAttempts, around, history);
    outcome := leases.Exit(ruleId, around.token, !committed, around.releaseRaises);
  }

  lemma ExitGivesBack(ruleId: int, around: Surroundings, before: map<int, ExecutionLeases.Row>,
      entered: map<int, ExecutionLeases.Row>, after: map<int, ExecutionLeases.Row>)
    requires entered == before[ruleId := around.Row()]
    requires after == if around.releaseRaises then entered else ExecutionLeases.Deleted(entered, ruleId, around.token)
    ensures around.releaseRaises ==> after == before[ruleId := around.Row()]
    ensures !around.releaseRaises ==> after == before - {ruleId}
  {
  }

  /** execute_rule_by_id; `last` is missing if nothing was attempted. */
  method ExecuteRuleById(db: LogDatabase, leases: ExecutionLeases.LeaseTable, server: MailServer, found: bool, ruleId: int,
      rule: Rule, setting: Option<Setting>, environments: seq<Environment>, maxAttempts: int, around: Surroundings,
      ghost history: seq<RuleRun>)
      returns (ending: Ending, ghost earlier: seq<ExecutionResult>, ghost last: Option<Attempt>)
    requires |environments| >= TotalAttempts(maxAttempts)
    requires Unused(db.View(), around.id, around.firstMailId) && db.suppressions == After(history)
    modifies db, leases, server
    // how the call ends, in every case
    ensures !found ==> ending == RuleNotFound
    ensures found && last.None? ==> ending == Leased(ExecutionLeases.Raised(
      if around.leaseSeconds < 1 then ExecutionLeases.InvalidLease
      else if around.upsertRaises then ExecutionLeases.AcquireError else ExecutionLeases.InProgress))
    ensures last.Some? ==> ending == Leased(
      if around.persistRaises then ExecutionLeases.Raised(ExecutionLeases.BodyError)
      else if around.releaseRaises then ExecutionLeases.Raised(ExecutionLeases.ReleaseError)
      else ExecutionLeases.Finished)
    ensures ending == Leased(ExecutionLeases.Finished) <==>
      last.Some? && !around.persistRaises && !around.releaseRaises
    ensures ending == Leased(ExecutionLeases.Raised(ExecutionLeases.BodyError)) <==> last.Some? && around.persistRaises
    // without the rule and its lease nothing is attempted, sent or written
    ensures last.Some? <==>
      && found && around.leaseSeconds >= 1 && !around.upsertRaises
      && (ruleId !in old(leases.rows) || old(leases.rows)[ruleId].expiresAt <= around.acquiredAt)
    ensures last.None? ==> leases.rows == old(leases.rows) && EffectsOf(db, server) == old(EffectsOf(db, server))
    ensures last.Some? ==>
      Performed(ruleId, rule, setting, history, around, environments, maxAttempts, earlier, last.value,
                old(EffectsOf(db, server)), EffectsOf(db, server))
    // the lease is given back unless the release itself raises
    ensures last.Some? && around.releaseRaises ==> leases.rows == old(leases.rows)[ruleId := around.Row()]
    ensures last.Some? && !around.releaseRaises ==> leases.rows == old(leases.rows) - {ruleId}
    // a call that ends well has left its log
    ensures ending == Leased(ExecutionLeases.Finished) ==>
      last.Some? && HasLog(db.View(), ruleId, around, last.value.result)
  {
    ghost var before := EffectsOf(db, server);
    earlier, last := [], None;
    if !found {
      return RuleNotFound, earlier, last;
    }
    var failure := leases.Enter(ruleId, around.token, around.acquiredAt, around.leaseSeconds, around.upsertRaises);
    if failure.Some? {
      return Leased(ExecutionLeases.Raised(failure.value)), earlier, last;
    }
    ghost var entered := leases.rows;
    ghost var attempt;
    var outcome;
    outcome, earlier, attempt :=
      RunUnderLease(db, leases, server, ruleId, rule, setting, environments, maxAttempts, around, history, before);
    last := Some(attempt);
    ExitGivesBack(ruleId, around, old(leases.rows), entered, leases.rows);
    ending := Leased(outcome);
  }
}
