# A verified model of the alerting service's core

The service runs SQL queries on a schedule and mails their rows. This project models, in Dafny, the parts of
it that are state machines, protocols or hand-written loops, and proves what they keep over every run:

- **Login limiter** (`AttemptStates`, `LimiterTables`, `LimiterHistory`, `LimiterConcurrency`,
  `LimiterFailures`, `LimiterRotations`, `LoginRateLimiting`). The limiter appears three times: as pure functions on its table, as all interleavings
  of threads whose `_lock` sections, gate operations and passages of time are single steps, and as a class
  whose methods change attempt objects in place. The methods of the class are proved equal to the table
  functions; the interleavings are proved to give the answers of a limiter that never forgets a key, and when a key
  locks, for how long, and which failures count is told from the recorded events alone.
- **Executions** (`ExecutionLeases`, `Executions`, `Suppressions`, `LogStores`, `RuleExecutions`). The lease
  with its stale clock readings, crashes and late releases; the attempt from query to SMTP replies; the retry
  loop; duplicate suppression over the whole history of a rule; the log transaction and the retention job;
  and the call that ties them together.
- **Schedule synchronizer** (`Scheduling`). A reconciler with a memory, against an external job store that may
  fail at every call and lose jobs between two rounds.
- **Log export** (`LogStreams`). Keyset pagination while other writers insert and delete.
- **Redaction** (`StructuredText`, `Redaction`). The bracket and quote machine proved to accept exactly a
  grammar of nested values, and the rewriting loop around it.
- **Round trips** (`Odbc`, `RuleTransfer`). Quoting in connection strings, and rule export followed by import.

`Outcomes`, `Text` and `Numerals` hold what several of these need: missing and failed values, `str.strip`,
splitting, and the text of integers.

## What the model assumes

- Clocks never go back; the limiter's clock is a nonnegative real number, database times are integers.
- Tokens of leases are new for every use. One SQL statement is one step; a commit happens wholly or not at
  all; a database or scheduler call that raises has changed nothing; an SMTP call that raises was accepted
  for nobody.
- Rows inserted while an export runs get numbers above the largest one the export saw at its start, and
  timestamps of logs are not changed.
- What pyodbc, smtplib, the template engine, the SQL validator and the cron library answer is a parameter:
  every theorem holds for every answer they may give.

## Where code, documentation and expectation differ

- `README.md:94` of the service promises that the lease prevents concurrent executions of a rule. The code
  guarantees it for bodies that end within their lease (`BodiesExclude`). Over a whole run two bodies of a rule
  run at once exactly if some upsert takes the row of a body that is still running, having read the clock at or
  after the end of that row's lease (`TwoRunExactlyAfterTakeover`; `ExpiredBodyMayBeJoined` is such a run). Once
  that has happened the row no longer speaks for the older body, and even a contender that read the clock before
  the end of its lease may start beside it (`EarlyReaderMayJoin`). `docs/operations.md:408` names the condition
  on the lease's length.
- `docs/deployment.md:514` lets the lease begin when it is obtained. The code counts it from the clock reading
  before the upsert, and the model follows the code.
- The suppression window of `docs/superpowers/specs/2026-07-08-duplicate-suppression-design.md:21` slides:
  every committed sighting renews it, sent or not, so a key that keeps appearing is mailed once and then
  never again (`SightingsRenewTheWindow`).
- A job whose id is another spelling of a rule's number, such as `rule-07`, misleads the synchronizer's memory
  at the start, and a round without failures then leaves the rule on its old trigger (`AliasMisleads`).
  `StartAgreesIff` says exactly when the memory agrees at the start, `CleanRoundConvergesIff` exactly when a round
  without failures sets everything right.
- Importing an exported rule keeps its data source exactly if the name of the source has no outer whitespace
  (`SourceIsKeptIff`); the settings form accepts such names, the importer strips them, and the rule may come back on
  another source (`SourceMayChange`).
- The `max` in `app/error_reporting.py:151` never matters: a value never ends before it starts
  (`ValueEndIsDelimiter`).

## Model

| member | source | states |
|---|---|---|
| AttemptStates.ExpireTwice | app/web_security.py:175-181 | expiring early and again later is the same as expiring later: lazy expiry may happen at any time, any number of times |
| AttemptStates.RetryAfterIsLeast | app/web_security.py:183-186 | a reported wait is the least whole number of seconds after which the lock is over, and 0 exactly when it is over |
| AttemptStates.DropOldKeepsRecent | app/web_security.py:180-181 | dropping old failures keeps every recent one |
| LimiterTables.CurrentTidies | app/web_security.py:167-173 | looking a key up never removes or replaces a referenced state and changes values only by expiry; the key then reads as its expired value, also when it was discarded |
| LimiterTables.DiscardTidies | app/web_security.py:188-195 | discarding touches no referenced state and no key's value |
| LimiterTables.ReserveTidies | app/web_security.py:160-165 | a new state never lifts the table above its capacity and disturbs no other key |
| LimiterTables.CleanupTidies | app/web_security.py:197-205 | the rotating cleanup keeps every referenced object and its count, creates none, and changes values only by expiry |
| LimiterTables.PrologueTidies | app/web_security.py:97-104 | the common beginning of attempt and record_failure, as a whole, does no more than tidy, and leaves the key at its expired value |
| LimiterTables.QueryTidies | app/web_security.py:123-128 | asking for the wait answers from the expired value and otherwise only tidies |
| LimiterTables.CleanupVisits | app/web_security.py:201-205 | a due cleanup expires every entry of its batch and keeps exactly the active ones |
| LimiterTables.RotationReachesEveryState | app/web_security.py:197-205 | for every sequence of primitive table changes: an entry at position p is visited as soon as the due cleanups together exceed p entries, unless it leaves the table |
| LimiterHistory.DisciplinedBounded | app/web_security.py:130-144 | if passwords are judged only on open keys, no key ever has more than the allowed failures, and fewer while unlocked |
| LimiterHistory.LockKeepsOut | app/web_security.py:142-144 | after a locking failure nothing is judged on the key and no wait of 0 is reported for the whole lockout |
| LimiterHistory.RateLimit | app/web_security.py:130-144 | within one failure window, without success and without a lock set and ended meanwhile, at most max_failures failures |
| LimiterHistory.ShortSpanIsQuiet | app/web_security.py:175-178 | in a span shorter than the lockout no lock set in it can end in it |
| LimiterConcurrency.RunInv | app/web_security.py:94-121 | references, attached objects, gates and values agree in every state of every interleaving |
| LimiterConcurrency.MutualExclusion | app/web_security.py:109-116 | at most one thread per key is ever inside the body of `attempt` |
| LimiterConcurrency.ReferencedStateStays | app/web_security.py:103-121 | from its increment to its decrement a thread finds its own state object in the table, whose count is the number of such threads |
| LimiterConcurrency.CapacityKept | app/web_security.py:160-165 | the table never holds more than max_states entries |
| LimiterConcurrency.AnswersAreTheReference | app/web_security.py:94-154 | in every interleaving every answer to a call that is not refused is the one of a limiter that keeps every key's state for ever and tidies nothing; a refused call gets the capacity wait; what those answers are, `LocksExactlyAtTheLimit` and `ReportsTheLatestLock` say from the events alone |
| LimiterConcurrency.RefusedExactlyWhenFull | app/web_security.py:97-107 | an attempt, or a failure recorded from elsewhere, is refused exactly if the table, cleaned up as far as due, holds max_states entries and none for the key |
| LimiterConcurrency.OthersAreNotRefused | app/web_security.py:109-154 | nothing else is ever refused, in particular no failed verification inside an attempt |
| LimiterConcurrency.FailedVerificationCounts | app/auth.py:139-143 | a failed verification inside an attempt is always recorded, even when the table is full |
| LimiterConcurrency.FailuresBounded | app/auth.py:130-149 | under the login protocol no state holds more than max_failures failures, an unlocked one fewer |
| LimiterConcurrency.LockoutIsServed | app/auth.py:130-149 | under the login protocol a locking failure keeps everyone out of the key for the whole lockout |
| LimiterConcurrency.GuessesAreLimited | app/auth.py:130-149 | under the login protocol a failure window without success and without a lock ending in it has at most max_failures failed verifications per key |
| LimiterConcurrency.ShortSpansAreLimited | app/auth.py:130-149 | the same for every span without success that is shorter than window and lockout |
| LimiterFailures.FailuresAreCounted | app/web_security.py:175-181 | the failures a state holds are exactly the times of those recorded events that count: inside the window, on the key, with no success and no served lock since |
| LimiterFailures.LocksExactlyAtTheLimit | app/web_security.py:137-144 | in every interleaving, from the events alone: a recorded failure is answered with the lockout exactly if it and the earlier ones that count number at least max_failures, and with 0 otherwise |
| LimiterFailures.ReportsTheLatestLock | app/web_security.py:111-128 | in every interleaving a wait is reported exactly while the latest lock of the key lasts, and is the least whole number of seconds that reaches its end |
| LimiterFailures.LoginLocksExactlyAtTheLimit | app/auth.py:130-149 | under the login protocol a failed verification locks exactly if it and the earlier ones on the key inside the window, with neither lock nor success since, number at least max_failures |
| LimiterRotations.StepIsOps | app/web_security.py:94-205 | every step of the interleavings changes the table by a sequence of the primitive changes, the scheduled cleanup first |
| LimiterRotations.GoneStaysGone | app/web_security.py:160-165 | an object that has left the table never comes back |
| LimiterRotations.VisitExpires | app/web_security.py:201-205 | a visit in a run expires the state and keeps it exactly if it is then still active |
| LimiterRotations.RotationReachesEveryStateInRuns | app/web_security.py:197-205 | in every interleaving an entry at position p is visited as soon as the due cleanups together exceed p entries, unless it leaves the table before |
| LimiterRotations.CleanupTakesOneBatch | app/web_security.py:197-205 | a cleanup that is not due changes nothing; a due one leaves everything behind its batch as it is and moves it forward by exactly one batch |
| LimiterRotations.SweepsExactlyAfterInterval | app/web_security.py:197-201 | in every interleaving a step cleans up exactly if it is an attempt, a query or a recorded failure at least one interval after the cleanup before it, or after the start |
| LimiterRotations.NoIdleStates | app/web_security.py:188-205 | in every interleaving the table holds, between the locked sections, no state without references, failures and lock |
| LoginRateLimiting.CreateLimiter | app/web_security.py:65-92 | made exactly if the three limits are positive; starts empty with the cleanup one interval away |
| LoginRateLimiting.LoginRateLimiter.ExpireState | app/web_security.py:175-181 | the loop in place computes the expiry of the value |
| LoginRateLimiting.LoginRateLimiter.DiscardIfInactive | app/web_security.py:188-195 | comparing objects is comparing their numbers |
| LoginRateLimiting.LoginRateLimiter.CurrentState | app/web_security.py:167-173 | returns the object in the table after expiry and discard |
| LoginRateLimiting.LoginRateLimiter.ReserveState | app/web_security.py:160-165 | a new object at the end of the order, or none when the table is full |
| LoginRateLimiting.LoginRateLimiter.RunScheduledCleanup | app/web_security.py:197-205 | popping, expiring and reinserting in place is the rotation of the table |
| LoginRateLimiting.LoginRateLimiter.EnterAttempt | app/web_security.py:96-107 | the first locked section of `attempt` as the interleavings use it |
| LoginRateLimiting.LoginRateLimiter.AdmitAttempt | app/web_security.py:111-115 | the second one, also for an object that has left the table |
| LoginRateLimiting.LoginRateLimiter.LeaveAttempt | app/web_security.py:117-121 | the last one, also for an object that has left the table |
| LoginRateLimiting.LoginRateLimiter.RetryAfterFor | app/web_security.py:123-128 | the query as the interleavings use it |
| LoginRateLimiting.LoginRateLimiter.RecordFailureFor | app/web_security.py:130-144 | the failure as the interleavings use it, with the answer that `LimiterFailures.LocksExactlyAtTheLimit` describes |
| LoginRateLimiting.LoginRateLimiter.ClearFor | app/web_security.py:146-154 | the success as the interleavings use it |
| ExecutionLeases.LeaseTable.Acquire | app/execution_lock.py:50-76 | takes the row exactly if there is none or it expired by the time read, and otherwise changes nothing |
| ExecutionLeases.LeaseTable.Enter | app/execution_lock.py:44-76 | why the body is not entered, in every case; the row is taken exactly if it is |
| ExecutionLeases.LeaseTable.Exit | app/execution_lock.py:17-34 | the row is deleted only while it carries the token; what the caller sees |
| ExecutionLeases.LeaseTable.WithLease | app/execution_lock.py:37-84 | which exception the caller sees in every combination of failures; the body runs only with the lease; a successor's row is never deleted |
| ExecutionLeases.AtMostOneLive | app/execution_lock.py:47-84 | per rule at most one contender is unreleased with its lease not over, and the row is its own, with stale clock readings, crashes and late releases |
| ExecutionLeases.BodiesExclude | app/execution_lock.py:47-84 | two bodies of a rule at once mean that one has outlived its lease |
| ExecutionLeases.LeaseCountsFromReading | app/execution_lock.py:47-56 | in every run a lease ends leaseSeconds after its own clock reading, however late its upsert came |
| ExecutionLeases.OneTry | app/execution_lock.py:68-84 | one use of the context manager makes one upsert; a refused or failed one is never repeated |
| ExecutionLeases.JoinedExactlyAfterExpiry | app/execution_lock.py:57-66 | beside a running body that still owns its row a second one starts exactly if the newcomer read the clock at or after the end of the row's lease |
| ExecutionLeases.TwoRunExactlyAfterTakeover | app/execution_lock.py:47-84 | over a whole run two bodies of a rule run at once exactly if some upsert takes the row of a running body, having read the clock at or after the end of its lease |
| ExecutionLeases.EarlyReaderMayJoin | app/execution_lock.py:47-84 | an interleaving in which a contender with an early reading starts beside a body that has lost its row |
| ExecutionLeases.ExpiredBodyMayBeJoined | app/execution_lock.py:57-66 | an interleaving with two running bodies of one rule |
| ExecutionLeases.ExpiredRowIsTaken | app/execution_lock.py:47-76 | once a row has expired, the next contender to read the clock gets the rule, however late its upsert, if no other upsert comes first |
| Executions.Send | app/mailer.py:34-70 | the server is handed the message at most once; success exactly if nobody was refused, partial success exactly if some but not all accepted; a client that was made is closed |
| Executions.DeliveredExactlyIfAccepted | app/mailer.py:44-58 | every address gets the mail as often as it is addressed if the server answered and did not refuse it, and not at all otherwise; nobody gets another mail |
| Executions.MessageReachesAll | app/mailer.py:44-47 | a message that nobody refuses reaches its recipients and then its cc recipients, each once per mention |
| Executions.RecipientsAreSeparated | app/executor.py:204-205 | commas and semicolons divide a text into addresses |
| Executions.OneRecipient | app/executor.py:204-205 | between separators stands one address without its outer space, or none if there is nothing but space |
| Executions.BuildMessages | app/executor.py:119-152 | summary: one mail to the rule's addresses, rendered from all rows. Per row: mail i is rendered from row i and goes to the addresses in the row's own field if that field holds any, and to the rule's otherwise; the same for cc. Or the error of the first row that cannot be rendered or has no address, and no message |
| Executions.SendMessage | app/executor.py:154-181 | an exception of the mailer is a failed mail, and the mailboxes get what the reply says |
| Executions.SendAll | app/executor.py:104-104 | every message is sent once, in order, and has a result that says how its own recipients were treated |
| Executions.FilterQueried | app/execution_service.py:186-213 | the attempt's own filter run decides the rows it goes on with and the suppression state it leaves, both over the records at that time |
| Executions.FilterRaises | app/execution_service.py:195-203 | the filter raises exactly if the query did, or some row has a key and looking up a record raised |
| Executions.ExecuteOnce | app/executor.py:57-117 | how an attempt ends in each of its stages, with the rows of its own filter; the suppression state it leaves; the mailboxes get what its results say, so nothing unless every message was built |
| Executions.ExceptionsFail | app/executor.py:57-117 | an exception before the mails ends the attempt as FAILED with its type, no mail and no row count; the SQLSTATE is that of the query alone |
| Executions.FailedDeliversNothing | app/executor.py:183-191 | an attempt with status FAILED has delivered a mail to nobody |
| Executions.StatusMeansDelivery | app/executor.py:183-191 | SUCCESS exactly if nobody was refused, FAILED exactly if nobody accepted anything |
| Executions.VerdictIsExact | app/executor.py:104-117 | the same for the whole attempt, from query to status |
| Executions.MailsAreAboutFiltered | app/executor.py:119-152 | in summary mode one mail, rendered from all the rows the filter let through, to the rule's addresses; in per-row mode one for each of them, in order, rendered from its own row and addressed by its own field if that holds an address, by the rule otherwise |
| Executions.ExecuteWithRetries | app/execution_service.py:108-132 | ends with the first result that is not to be retried or the last allowed one; all that reached a mailbox in the whole loop was sent by that last attempt; the note on retries appears exactly for exhausted ones |
| Executions.WhatIsRetried | app/execution_service.py:250-262 | an attempt that mailed is retried exactly if nobody got anything; a query with SQLSTATE by class 08, 40001, HYT00 and HYT01; any other failure by the five exception types |
| Suppressions.FilterRows | app/execution_service.py:186-213 | passes on exactly the rows that have no key, or are the first of the run with a key outside the window; collects the keys of both kinds |
| Suppressions.RowKeyIs | app/execution_service.py:216-220 | a missing value has no key; otherwise the key is the value with white space, and nothing else, taken off both ends, and none is left |
| Suppressions.KeysCountRows | app/execution_service.py:197-210 | a key is collected as often as there are rows that have it |
| Suppressions.PassedKeysAreDistinct | app/execution_service.py:202-210 | no key is passed on twice in a run |
| Suppressions.KeysAreSplit | app/execution_service.py:197-210 | passed and suppressed keys together are the keys of the rows, each as often as it occurs |
| Suppressions.PersistSuppressionState | app/execution_service.py:232-247 | one record per key is written, new keys first |
| Suppressions.TouchAllIs | app/execution_service.py:232-247 | every key given was last seen now, its count grew by its occurrences, its first sighting stays; other keys are untouched |
| Suppressions.TouchAllOrder | app/execution_service.py:234-247 | the order of the keys does not matter |
| Suppressions.RunExtendsHistory | app/execution_service.py:186-247 | filtering by the table and writing down what was seen is one more run of the rule's history |
| Suppressions.SuppressionOverHistory | app/execution_service.py:186-247 | a row is passed on exactly if it has no key, or is its key's first in the run and no earlier committed SUCCESS saw the key within the window; other runs leave no trace |
| Suppressions.PassedAreDue | app/execution_service.py:195-211 | the rows the filter passes are, in order, exactly those the history of the rule leaves due |
| Suppressions.SightingsRenewTheWindow | app/execution_service.py:204-206 | any committed sighting within the window, sent or suppressed, keeps the key back |
| Suppressions.HitCountsAreSightings | app/execution_service.py:232-247 | a key has a record exactly if a committed SUCCESS saw it, with the number of rows those runs saw as its count |
| LogStores.AttemptsTally | app/executor.py:104-117 | what an attempt hands over has the status and count of its mails |
| LogStores.LogDatabase.PersistExecutionResult | app/execution_service.py:272-338 | one execution, field by field, with exactly its mails, each with its own message and status, and suppression records only for a SUCCESS; or, if the transaction fails, nothing at all |
| LogStores.PersistedConsistent | app/execution_service.py:300-338 | a persisted execution has as many successful mail logs as it counts and the status they call for, and no other execution is disturbed |
| LogStores.LogDatabase.CleanupExpiredLogs | app/log_service.py:191-228 | terminates, removes exactly the finished executions before the cutoff with their mails and returns their number; after an error whole batches are gone and nothing else; foreign keys hold after every statement; no transaction takes more than the batch size or 500 |
| LogStores.PurgeIsExact | app/log_service.py:208-224 | what survives is exactly what was not expired, unchanged |
| LogStores.CleanupResumes | app/log_service.py:205-228 | an aborted cleanup followed by a complete one with the same cutoff ends where an uninterrupted one ends |
| LogStores.PurgedConsistent | app/log_service.py:220-224 | the retention job keeps counts, statuses and foreign keys right |
| LogStores.UnexpiredStays | app/log_service.py:205-228 | however cleanups and executions interleave, an execution that is not expired stays, with all its mail logs |
| LogStores.CommittedStatesAreConsistent | app/execution_service.py:272-338 | the same in every committed state of every sequence of executions and cleanups |
| RuleExecutions.PersistAttempt | app/execution_service.py:283-297 | the transaction logs the last attempt and, with the keys that attempt's filter collected, makes the suppression table that of one more run of the history |
| RuleExecutions.RunAndPersist | app/execution_service.py:106-140 | whatever reached a mailbox was sent by the attempt that is logged, about the rows that the history leaves due |
| RuleExecutions.ExecuteRuleById | app/execution_service.py:91-140 | without rule or lease nothing is attempted, sent or written; otherwise only retryable attempts come before the last one, which alone delivered anything, about the rows that the history leaves due, and has the one consistent log; the suppression table is extended by this run; the lease is given back unless the release raises. How the call ends in every case: it finishes exactly if it attempted and neither the transaction nor the release raised, and has then left its log; it ends with the exception of the transaction exactly if that raised |
| RuleExecutions.MailsFollowHistory | app/execution_service.py:186-213 | from end to end: mails are about exactly the rows that have no key, or are the first of the run with their key and were seen by no earlier committed SUCCESS within the window |
| RuleExecutions.NothingDueNothingSent | app/executor.py:91-92 | with no such row the attempt succeeds without a mail |
| LogStreams.SelectOrdered | app/log_service.py:117-122 | the first rows in descending order, none of the others coming before them |
| LogStreams.IterLogBatches | app/log_service.py:94-127 | terminates; batches of at most 500; strictly descending over all of them; only rows of the snapshot; every row that was never deleted; without deletions exactly the sorted snapshot |
| LogStreams.DescendingIsUnique | app/log_service.py:117-122 | a table has one descending list of its rows, so the order of the export leaves no choice |
| Scheduling.JobIdParses | app/scheduler.py:31-41 | a job id leads back to its rule |
| Scheduling.ValidScheduledRules | app/scheduler.py:18-28 | exactly the enabled, unarchived, stored rules with a valid cron expression, in order and each as often as given |
| Scheduling.SchedulableOfIs | app/scheduler.py:18-28 | no valid rule is lost or repeated, and no other one is let in |
| Scheduling.DesiredRules | app/scheduler.py:87-87 | the dictionary has the valid rules, each with its own expression |
| Scheduling.RuleScheduleSynchronizer.constructor | app/scheduler.py:80-84 | what is remembered of the jobs found at the start |
| Scheduling.RuleScheduleSynchronizer.RemoveOne | app/scheduler.py:90-102 | a rule is forgotten only when its job is gone |
| Scheduling.RuleScheduleSynchronizer.UpdateOne | app/scheduler.py:104-133 | what is remembered changes only with the job |
| Scheduling.RuleScheduleSynchronizer.Sync | app/scheduler.py:86-136 | every rule is dealt with on its own: kept if one of its calls fails, right otherwise; raises exactly if some call failed; changes nothing that needs no change |
| Scheduling.AgreementEver | app/scheduler.py:86-136 | from a right memory, after any history of partly failing rounds and vanishing jobs, every present job of a rule is remembered with the text of its trigger |
| Scheduling.RoundIsRightWhereItSucceeds | app/scheduler.py:86-136 | in a partly failing round every rule whose own calls succeed is scheduled as desired, or its job is gone |
| Scheduling.RaisingCallsKeepTheRule | app/scheduler.py:90-133 | call by call: a rule whose lookup, removal, addition or change raises stays as it was in memory and scheduler; every other rule at hand is remembered and has a job exactly if desired |
| Scheduling.RaisesExactlyIfACallDoes | app/scheduler.py:90-136 | the round raises exactly if some call raises that it has to make |
| Scheduling.CleanRoundConverges | app/scheduler.py:86-136 | from a right memory, one round without failure leaves exactly the jobs of the desired rules with their triggers |
| Scheduling.CleanRoundConvergesIff | app/scheduler.py:86-136 | a round without failures ends right exactly if every job of an undesired rule is remembered and no desired rule with a wrong trigger is taken for unchanged |
| Scheduling.AgreementInforms | app/scheduler.py:80-84 | an agreeing memory is enough for that |
| Scheduling.RepeatedRoundIsSilent | app/scheduler.py:108-110 | the next round for the same rules adds, reschedules and removes nothing |
| Scheduling.StartAgreesIff | app/scheduler.py:80-84 | memory and scheduler agree at the start exactly if no rule's job is followed by another spelling of its id with another trigger |
| Scheduling.AliasMisleads | app/scheduler.py:35-41 | for any two expressions: jobs whose memory is wrong, and an enabled rule that every round without failures leaves on its old trigger |
| StructuredText.ScanRecognises | app/error_reporting.py:75-123 | the machine accepts a text exactly if it is a quoted string on one line or matched brackets nested at most 64 deep |
| StructuredText.ValuesArePrefixFree | app/error_reporting.py:99-104 | no value is a proper prefix of another |
| Redaction.MappingValueStart | app/error_reporting.py:40-52 | told apart in all cases: an assignment, a value after the colon and its blanks, neither within the window |
| Redaction.ConsumeTrailingFragment | app/error_reporting.py:55-68 | the next delimiter, unless a line breaks between it and what precedes it; else the end of the text |
| Redaction.StructuredValueEnd | app/error_reporting.py:71-130 | a value of the grammar inside the window goes with what trails it; if there is none, all that is left of the text goes |
| Redaction.ValueEndIsOne | app/error_reporting.py:71-130 | the scan limit, the depth limit and broken lines leave no choice: the end of a value is determined |
| Redaction.WholeValueGoes | app/error_reporting.py:103-104 | nothing of a value of the grammar is left |
| Redaction.ValueEndIsDelimiter | app/error_reporting.py:71-130 | the end is the end of the text, or a `,`, `}` or `]` at or after the start |
| Redaction.RedactSensitiveMappingValues | app/error_reporting.py:133-154 | terminates; the output is the text with ascending disjoint cuts; every key is processed, cut out or part of a processed key; every cut belongs to a key; a text without keys comes back unchanged |
| Redaction.CutIsOne | app/error_reporting.py:139-152 | what is cut for a key is determined, and a key with a cut is no assignment |
| Redaction.CutsHideTheirText | app/error_reporting.py:149-154 | texts that differ only inside the cuts give the same output |
| Redaction.CutsKeepTheRest | app/error_reporting.py:149-154 | the converse: texts of one length with the same output under the same cuts agree at every position that is not cut |
| Redaction.KeptStaysInOrder | app/error_reporting.py:149-154 | every character outside the cuts stands in the output, and they stand in their order |
| Redaction.RedactedLength | app/error_reporting.py:149-154 | the output has the kept characters, ten more for every cut, and nothing else |
| Redaction.MarkerAt | app/error_reporting.py:149-150 | in the place of every cut stands [REDACTED], right after the text before it |
| Odbc.ReadingIsExact | app/sql_client.py:50-51 | reading from the left undoes quoting, and succeeds on nothing but quoted values |
| Odbc.QuotingIsUnique | app/sql_client.py:50-51 | different values are quoted differently, and what follows cannot change the reading |
| Odbc.BracedWordsAreQuoted | app/error_reporting.py:9-9 | the recogniser's pattern accepts exactly the quoted values |
| Odbc.PatternFindsQuotedValue | app/error_reporting.py:9-9 | in a connection string its match is the quoted value, no more and no less |
| Odbc.QuotedSettingsReadBack | app/sql_client.py:83-97 | driver, server, database, user and password are read back as given, in this order and before anything else, whatever they and the other settings contain |
| Odbc.QuotedSettingsByKeyword | app/sql_client.py:83-93 | the first DRIVER is the driver, DATABASE the database, UID the user name, PWD the password; SERVER is the stripped override if there is one, otherwise host, comma and port |
| Odbc.UnquotedSettingsByKeyword | app/sql_client.py:94-97 | behind the quoted settings Encrypt, TrustServerCertificate and Connection Timeout are read back under their names if the two texts can stand without quotes; the extra parameters follow |
| Odbc.NormalizedAgain | app/sql_client.py:61-65 | normalising keeps the parameters and their order and changes nothing the second time |
| RuleTransfer.BuildImportedRules | app/routes.py:408-498 | every entry in order, or the error of the first bad one |
| RuleTransfer.RuleTable.ImportRules | app/routes.py:890-914 | all rules of the document are added, or none, also when the database raises at a rule or at the commit |
| RuleTransfer.EntryRoundTrip | app/routes.py:337-357 | an exported rule is imported exactly if it passes the checks, and is then the same but for outer whitespace |
| RuleTransfer.ExportRoundTrip | app/routes.py:327-498 | a whole export is imported in order if it has at most 500 rules and all pass, and refused otherwise |
| RuleTransfer.SecondRoundTrip | app/routes.py:327-498 | a second export and import changes nothing |
| RuleTransfer.SourceIsKeptIff | app/routes.py:425-428 | a rule keeps its data source exactly if the name of the source has no outer whitespace |
| RuleTransfer.SourceIsSwapped | app/routes.py:425-428 | with a source of the stripped name beside it, every rule on the padded one comes back on that |
| RuleTransfer.SourceMayChange | app/routes.py:425-428 | for every rule that passes the other checks there are such sources |
| RuleTransfer.ImportedRulesAreSound | app/routes.py:424-497 | an imported rule names an existing source, stays within the limits, and has recipients of its own unless every row gets a mail |
| RuleTransfer.MissingFieldsDefault | app/routes.py:424-497 | what a document leaves out: summary mode, empty texts, 30 seconds, 500 rows, 24 hours, enabled, no suppression |
| RuleTransfer.RequiredFields | app/routes.py:363-370 | without a name, a source, a query or a schedule an entry is refused |
| RuleTransfer.NumbersAreChecked | app/routes.py:378-405 | numbers lie between 1 and the maximum; null, text that is no number and values of the wrong type are refused as errors of the document |
| RuleTransfer.NumbersAsText | app/routes.py:378-405 | a number given as text is read as that number |
| RuleTransfer.SwitchesByTruth | app/routes.py:467-494 | the two switches go by what counts as true, and suppression needs a key field |

## Left out

- AnswersAreTheReference: a query on a key may be asked of a state that left the table only in the step relation, where any answer is allowed; `ReferencedStateStays` shows that it never is.
- CleanupExpiredLogs: other writers between two batches are in `UnexpiredStays`, over commits, not in the method.
- IterLogBatches: SQLite may give a deleted largest number to a new row, which the assumption on numbers excludes.
- ExecuteRuleById: contenders for the same rule between its steps are in `ExecutionLeases`, where the steps interleave; the sleep between attempts is left out.
- ExecuteOnce: the database session that an attempt shares with the log transaction is not modelled.
- RedactSensitiveMappingValues: the pattern for keys is a table of its matches, of which only their form is used; the other patterns of `app/error_reporting.py:7-34` are left out.
- UnquotedSettingsByKeyword: `Encrypt` or `TrustServerCertificate` with a semicolon inside or a brace in front are not promised to read back; the source does not quote them.
- ImportRules: reading the upload, its limit of 1 MiB and the JSON parser; a document arrives as parsed.
- FilterRows: how a database value becomes text, and the time zone of its clock.
- JobIdParses: `int` on digits other than ASCII.
- Gates appear in the interleavings only; the class has no field for them.
- Error messages, logging and durations, except whether the note on retries is added.
- Password verification, sessions, CSRF tokens, routes, forms, templates and static files.
- The SQL validator, the cron library, the template engine, encryption and the database drivers.
- Dashboard counts, the readiness check, the heartbeat, CSV cells, page numbers and settings bounds: single branches.
- Schema migration and connection pooling.
