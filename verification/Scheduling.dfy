/** The reconciler of app/scheduler.py: it brings the jobs of an external scheduler in line with
    the enabled rules, remembering in `known` what it last set, while any of its calls may fail
    and jobs may vanish between two rounds. */
module Scheduling {
  import opened Outcomes
  import opened Text
  import opened Numerals

  // ----- job ids -----

  function JobId(ruleId: int): string {
    "rule-" + IntText(ruleId)
  }

  function RuleIdFromJobId(jobId: string): Option<int> {
    if "rule-" <= jobId then ParseInt(jobId[5..]) else None
  }

  /** A rule's job id leads back to the rule, so different rules have different jobs. */
  lemma JobIdParses(ruleId: int)
    ensures RuleIdFromJobId(JobId(ruleId)) == Some(ruleId)
  {
    IntTextParses(ruleId);
    assert JobId(ruleId)[5..] == IntText(ruleId);
  }

  lemma JobIdsDiffer(a: int, b: int)
    requires JobId(a) == JobId(b)
    ensures a == b
  {
    JobIdParses(a);
    JobIdParses(b);
  }

  // ----- rules -----

  datatype ScheduledRule = ScheduledRule(id: Option<int>, enabled: bool, archived: bool, cron: string)

  /** What CronTrigger makes of cron expressions: which it accepts, and the text of the trigger. */
  datatype CronLibrary = CronLibrary(accepts: set<string>, signatures: map<string, string>)
  {
    function Signature(cron: string): string {
      if cron in signatures then signatures[cron] else cron
    }
  }

  predicate Schedulable(lib: CronLibrary, rule: ScheduledRule) {
    !rule.archived && rule.enabled && rule.id.Some? && rule.cron in lib.accepts
  }

  /** The schedulable rules, in order, each as often as it is given. */
  function SchedulableOf(lib: CronLibrary, rules: seq<ScheduledRule>): seq<ScheduledRule> {
    if rules == [] then []
    else
      var last := |rules| - 1;
      SchedulableOf(lib, rules[..last]) + if Schedulable(lib, rules[last]) then [rules[last]] else []
  }

  lemma {:induction false} SchedulableOfIs(lib: CronLibrary, rules: seq<ScheduledRule>, r: ScheduledRule)
    ensures r in SchedulableOf(lib, rules) <==> r in rules && Schedulable(lib, r)
    ensures multiset(SchedulableOf(lib, rules))[r] == if Schedulable(lib, r) then multiset(rules)[r] else 0
  {
    if rules != [] {
      var rest, last := rules[..|rules| - 1], rules[|rules| - 1];
      SchedulableOfIs(lib, rest, r);
      assert rules == rest + [last];
    }
  }

  method ValidScheduledRules(lib: CronLibrary, rules: seq<ScheduledRule>) returns (valid: seq<ScheduledRule>)
    ensures valid == SchedulableOf(lib, rules)
    ensures forall r :: r in valid <==>
      r in rules && r.enabled && !r.archived && r.id.Some? && r.cron in lib.accepts
  {
    valid := [];
    for i := 0 to |rules|
      invariant valid == SchedulableOf(lib, rules[..i])
    {
      assert rules[..i + 1][..i] == rules[..i];
      if Schedulable(lib, rules[i]) {
        valid := valid + [rules[i]];
      }
    }
    assert rules[..|rules|] == rules;
    forall r
      ensures r in valid <==> r in rules && Schedulable(lib, r)
    {
      SchedulableOfIs(lib, rules, r);
    }
  }

  /** The dictionary {rule.id: rule} of the valid rules. */
  ghost predicate IsDesired(lib: CronLibrary, rules: seq<ScheduledRule>, desired: map<int, string>) {
    && (forall n :: n in desired ==>
        exists r :: r in rules && Schedulable(lib, r) && r.id == Some(n) && r.cron == desired[n])
    && (forall r :: r in rules && Schedulable(lib, r) ==> r.id.value in desired)
  }

  method DesiredRules(lib: CronLibrary, rules: seq<ScheduledRule>) returns (desired: map<int, string>)
    ensures IsDesired(lib, rules, desired)
  {
    var valid := ValidScheduledRules(lib, rules);
    desired := map[];
    for i := 0 to |valid|
      invariant forall n :: n in desired ==>
        exists r :: r in rules && Schedulable(lib, r) && r.id == Some(n) && r.cron == desired[n]
      invariant forall j :: 0 <= j < i ==> valid[j].id.Some? && valid[j].id.value in desired
    {
      assert valid[i] in valid;
      desired := desired[valid[i].id.value := valid[i].cron];
    }
    forall r | r in rules && Schedulable(lib, r)
      ensures r.id.value in desired
    {
      assert r in valid;
      var j :| 0 <= j < |valid| && valid[j] == r;
    }
  }

  // ----- one round, per rule -----

  datatype Operation = GetJob | AddJob | RemoveJob | RescheduleJob

  /** The calls of a round that raise. */
  type Faults = set<(Operation, int)>

  type Jobs = map<string, string>      // job id to the cron expression of its trigger
  type Known = map<int, string>

  predicate RemoveFails(faults: Faults, jobs: Jobs, n: int) {
    (GetJob, n) in faults || (JobId(n) in jobs && (RemoveJob, n) in faults)
  }

  predicate Unchanged(lib: CronLibrary, jobs: Jobs, known: Known, n: int, cron: string) {
    JobId(n) in jobs && n in known && known[n] == lib.Signature(cron)
  }

  predicate UpdateFails(lib: CronLibrary, faults: Faults, jobs: Jobs, known: Known, n: int, cron: string) {
    || (GetJob, n) in faults
    || (JobId(n) !in jobs && (AddJob, n) in faults)
    || (JobId(n) in jobs && !Unchanged(lib, jobs, known, n, cron) && (RescheduleJob, n) in faults)
  }

  /** Nothing about rule n has changed. */
  ghost predicate Kept(k0: Known, j0: Jobs, k1: Known, j1: Jobs, n: int) {
    && (n in k0 <==> n in k1) && (n in k0 ==> k1[n] == k0[n])
    && (JobId(n) in j0 <==> JobId(n) in j1) && (JobId(n) in j0 ==> j1[JobId(n)] == j0[JobId(n)])
  }

  ghost predicate Removed(faults: Faults, k0: Known, j0: Jobs, k1: Known, j1: Jobs, n: int) {
    if RemoveFails(faults, j0, n) then Kept(k0, j0, k1, j1, n) else n !in k1 && JobId(n) !in j1
  }

  ghost predicate Updated(lib: CronLibrary, faults: Faults, k0: Known, j0: Jobs, k1: Known, j1: Jobs, n: int, cron: string) {
    if UpdateFails(lib, faults, j0, k0, n, cron) then Kept(k0, j0, k1, j1, n)
    else
      && n in k1 && k1[n] == lib.Signature(cron) && JobId(n) in j1
      && j1[JobId(n)] == if Unchanged(lib, j0, k0, n, cron) then j0[JobId(n)] else cron
  }

  ghost predicate OtherJobsKept(k0: Known, desired: map<int, string>, j0: Jobs, j1: Jobs) {
    forall id :: (forall n :: n in k0 || n in desired ==> id != JobId(n)) ==>
      (id in j0 <==> id in j1) && (id in j0 ==> j1[id] == j0[id])
  }

  /** Rule n as a round leaves it: as it was, or dealt with. */
  ghost predicate RuleState(
      lib: CronLibrary, desired: map<int, string>, faults: Faults,
      k0: Known, j0: Jobs, k1: Known, j1: Jobs, n: int, done: bool)
  {
    if !done then Kept(k0, j0, k1, j1, n)
    else if n in desired then Updated(lib, faults, k0, j0, k1, j1, n, desired[n])
    else Removed(faults, k0, j0, k1, j1, n)
  }

  /** A round that has dealt with these rules. */
  ghost predicate Progress(
      lib: CronLibrary, desired: map<int, string>, faults: Faults,
      k0: Known, j0: Jobs, k1: Known, j1: Jobs, done: set<int>)
  {
    && (forall n :: RuleState(lib, desired, faults, k0, j0, k1, j1, n, n in done))
    && OtherJobsKept(k0, desired, j0, j1)
  }

  /** What a round makes of each rule; jobs that belong to no rule at hand are left alone. */
  ghost predicate Synced(
      lib: CronLibrary, desired: map<int, string>, faults: Faults, k0: Known, j0: Jobs, k1: Known, j1: Jobs)
  {
    Progress(lib, desired, faults, k0, j0, k1, j1, k0.Keys + desired.Keys)
  }

  function Without(jobs: Jobs, id: string): Jobs {
    map i | i in jobs && i != id :: jobs[i]
  }

  lemma RuleStateThen(
      lib: CronLibrary, desired: map<int, string>, faults: Faults,
      k0: Known, j0: Jobs, k1: Known, j1: Jobs, k2: Known, j2: Jobs, n: int, done: bool)
    requires RuleState(lib, desired, faults, k0, j0, k1, j1, n, done) && Kept(k1, j1, k2, j2, n)
    ensures RuleState(lib, desired, faults, k0, j0, k2, j2, n, done)
  {
  }

  /** Changing rule n, and only it, from as it was to as it shall be. */
  lemma OneMoreDone(
      lib: CronLibrary, desired: map<int, string>, faults: Faults,
      k0: Known, j0: Jobs, k1: Known, j1: Jobs, k2: Known, j2: Jobs, done: set<int>, n: int)
    requires Progress(lib, desired, faults, k0, j0, k1, j1, done) && (n in k0 || n in desired)
    requires RuleState(lib, desired, faults, k0, j0, k2, j2, n, true)
    requires forall m :: m != n ==> Kept(k1, j1, k2, j2, m)
    requires forall id :: id != JobId(n) ==> (id in j1 <==> id in j2) && (id in j1 ==> j2[id] == j1[id])
    ensures Progress(lib, desired, faults, k0, j0, k2, j2, done + {n})
  {
    forall m
      ensures RuleState(lib, desired, faults, k0, j0, k2, j2, m, m in done + {n})
    {
      assert RuleState(lib, desired, faults, k0, j0, k1, j1, m, m in done);
      if m != n {
        RuleStateThen(lib, desired, faults, k0, j0, k1, j1, k2, j2, m, m in done);
      }
    }
  }

  lemma OthersKept(k1: Known, j1: Jobs, k2: Known, j2: Jobs, n: int)
    requires forall m :: m != n ==> (m in k1 <==> m in k2) && (m in k1 ==> k2[m] == k1[m])
    requires forall id :: id != JobId(n) ==> (id in j1 <==> id in j2) && (id in j1 ==> j2[id] == j1[id])
    ensures forall m :: m != n ==> Kept(k1, j1, k2, j2, m)
  {
    forall m | m != n
      ensures Kept(k1, j1, k2, j2, m)
    {
      if JobId(m) == JobId(n) {
        JobIdsDiffer(m, n);
      }
    }
  }

  lemma DropProgress(
      lib: CronLibrary, desired: map<int, string>, faults: Faults,
      k0: Known, j0: Jobs, k1: Known, j1: Jobs, done: set<int>, n: int)
    requires Progress(lib, desired, faults, k0, j0, k1, j1, done)
    requires n in k0 && n !in desired && n !in done
    ensures Kept(k0, j0, k1, j1, n)
    ensures RemoveFails(faults, j0, n) ==> Progress(lib, desired, faults, k0, j0, k1, j1, done + {n})
    ensures !RemoveFails(faults, j0, n) ==>
      Progress(lib, desired, faults, k0, j0, k1 - {n}, Without(j1, JobId(n)), done + {n})
  {
    assert RuleState(lib, desired, faults, k0, j0, k1, j1, n, false);
    var (k2, j2) := if RemoveFails(faults, j0, n) then (k1, j1) else (k1 - {n}, Without(j1, JobId(n)));
    OthersKept(k1, j1, k2, j2, n);
    OneMoreDone(lib, desired, faults, k0, j0, k1, j1, k2, j2, done, n);
  }

  lemma UpdateProgress(
      lib: CronLibrary, desired: map<int, string>, faults: Faults,
      k0: Known, j0: Jobs, k1: Known, j1: Jobs, done: set<int>, n: int)
    requires Progress(lib, desired, faults, k0, j0, k1, j1, done)
    requires n in desired && n !in done
    ensures Kept(k0, j0, k1, j1, n)
    ensures UpdateFails(lib, faults, j0, k0, n, desired[n]) || Unchanged(lib, j0, k0, n, desired[n]) ==>
      Progress(lib, desired, faults, k0, j0, k1, j1, done + {n})
    ensures !UpdateFails(lib, faults, j0, k0, n, desired[n]) && !Unchanged(lib, j0, k0, n, desired[n]) ==>
      Progress(lib, desired, faults, k0, j0, k1[n := lib.Signature(desired[n])], j1[JobId(n) := desired[n]], done + {n})
  {
    assert RuleState(lib, desired, faults, k0, j0, k1, j1, n, false);
    var (k2, j2) := if UpdateFails(lib, faults, j0, k0, n, desired[n]) || Unchanged(lib, j0, k0, n, desired[n]) then (k1, j1)
      else (k1[n := lib.Signature(desired[n])], j1[JobId(n) := desired[n]]);
    OthersKept(k1, j1, k2, j2, n);
    OneMoreDone(lib, desired, faults, k0, j0, k1, j1, k2, j2, done, n);
  }

  ghost predicate SomeFailure(lib: CronLibrary, desired: map<int, string>, faults: Faults, k0: Known, j0: Jobs) {
    || (exists n :: n in k0 && n !in desired && RemoveFails(faults, j0, n))
    || (exists n :: n in desired && UpdateFails(lib, faults, j0, k0, n, desired[n]))
  }

  datatype Call = Added(id: string) | Rescheduled(id: string) | Dropped(id: string)

  /** A call that changes the scheduler, and is called for. */
  ghost predicate CalledFor(lib: CronLibrary, desired: map<int, string>, k0: Known, j0: Jobs, call: Call) {
    match call
    case Added(id) => exists n :: n in desired && id == JobId(n) && id !in j0
    case Rescheduled(id) => exists n :: n in desired && id == JobId(n) && id in j0 && !Unchanged(lib, j0, k0, n, desired[n])
    case Dropped(id) => exists n :: n in k0 && n !in desired && id == JobId(n) && id in j0
  }

  class Scheduler {
    var jobs: Jobs
    var calls: seq<Call>       // the changing calls that succeeded
    constructor (jobs: Jobs)
      ensures this.jobs == jobs && calls == []
    {
      this.jobs := jobs;
      calls := [];
    }
  }

  class RuleScheduleSynchronizer {
    const lib: CronLibrary
    const scheduler: Scheduler
    var known: Known

    /** `listed` is the order in which get_jobs returns the jobs. */
    constructor (lib: CronLibrary, scheduler: Scheduler, listed: seq<string>)
      requires forall id :: id in listed <==> id in scheduler.jobs
      ensures this.lib == lib && this.scheduler == scheduler
      ensures known == KnownFrom(lib, scheduler.jobs, listed)
    {
      this.lib := lib;
      this.scheduler := scheduler;
      known := map[];
      new;
      for i := 0 to |listed|
        invariant known == KnownFrom(lib, scheduler.jobs, listed[..i])
      {
        assert listed[..i + 1][..i] == listed[..i];
        var ruleId := RuleIdFromJobId(listed[i]);
        if ruleId.Some? {
          known := known[ruleId.value := lib.Signature(scheduler.jobs[listed[i]])];
        }
      }
      assert listed[..|listed|] == listed;
    }

    /** One turn of the first loop. */
    method RemoveOne(n: int, faults: Faults) returns (failed: bool)
      requires n in known
      modifies this`known, scheduler
      ensures failed == RemoveFails(faults, old(scheduler.jobs), n)
      ensures failed <==> (GetJob, n) in faults || (JobId(n) in old(scheduler.jobs) && (RemoveJob, n) in faults)
      ensures known == if failed then old(known) else old(known) - {n}
      ensures scheduler.jobs == if failed then old(scheduler.jobs) else Without(old(scheduler.jobs), JobId(n))
      ensures scheduler.calls == old(scheduler.calls)
        + if !failed && JobId(n) in old(scheduler.jobs) then [Dropped(JobId(n))] else []
    {
      if (GetJob, n) in faults {
        return true;
      }
      if JobId(n) in scheduler.jobs {
        if (RemoveJob, n) in faults {
          return true;
        }
        scheduler.jobs := Without(scheduler.jobs, JobId(n));
        scheduler.calls := scheduler.calls + [Dropped(JobId(n))];
      }
      assert JobId(n) !in old(scheduler.jobs) ==> Without(old(scheduler.jobs), JobId(n)) == old(scheduler.jobs);
      known := known - {n};
      failed := false;
    }

    /** One turn of the second loop. */
    method UpdateOne(n: int, cron: string, faults: Faults) returns (failed: bool)
      modifies this`known, scheduler
      ensures failed == UpdateFails(lib, faults, old(scheduler.jobs), old(known), n, cron)
      ensures failed <==>
        || (GetJob, n) in faults
        || (JobId(n) !in old(scheduler.jobs) && (AddJob, n) in faults)
        || (&& JobId(n) in old(scheduler.jobs) && (RescheduleJob, n) in faults
            && !(n in old(known) && old(known)[n] == lib.Signature(cron)))
      ensures failed || Unchanged(lib, old(scheduler.jobs), old(known), n, cron) ==>
        known == old(known) && scheduler.jobs == old(scheduler.jobs) && scheduler.calls == old(scheduler.calls)
      ensures !failed && !Unchanged(lib, old(scheduler.jobs), old(known), n, cron) ==>
        && known == old(known)[n := lib.Signature(cron)]
        && scheduler.jobs == old(scheduler.jobs)[JobId(n) := cron]
        && scheduler.calls == old(scheduler.calls)
             + [if JobId(n) in old(scheduler.jobs) then Rescheduled(JobId(n)) else Added(JobId(n))]
    {
      if (GetJob, n) in faults {
        return true;
      }
      var signature := lib.Signature(cron);
      var present := JobId(n) in scheduler.jobs;
      if n in known && known[n] == signature && present {
        return false;
      }
      if !present {
        if (AddJob, n) in faults {
          return true;
        }
        scheduler.calls := scheduler.calls + [Added(JobId(n))];
      } else {
        if (RescheduleJob, n) in faults {
          return true;
        }
        scheduler.calls := scheduler.calls + [Rescheduled(JobId(n))];
      }
      scheduler.jobs := scheduler.jobs[JobId(n) := cron];
      known := known[n := signature];
      failed := false;
    }

    /** RuleScheduleSynchronizer.sync. */
    method Sync(rules: seq<ScheduledRule>, faults: Faults) returns (raised: bool, ghost desired: map<int, string>)
      modifies this`known, scheduler
      ensures IsDesired(lib, rules, desired)
      ensures Synced(lib, desired, faults, old(known), old(scheduler.jobs), known, scheduler.jobs)
      ensures raised <==> SomeFailure(lib, desired, faults, old(known), old(scheduler.jobs))
      ensures old(scheduler.calls) <= scheduler.calls
      ensures forall i :: |old(scheduler.calls)| <= i < |scheduler.calls| ==>
        CalledFor(lib, desired, old(known), old(scheduler.jobs), scheduler.calls[i])
    {
      ghost var k0, j0, c0 := known, scheduler.jobs, scheduler.calls;
      var wanted := DesiredRules(lib, rules);
      desired := wanted;
      var stale := known.Keys - wanted.Keys;
      raised := RemoveStale(desired, stale, faults);
      var failed := UpdateDesired(wanted, faults, k0, j0, c0);
      assert stale + desired.Keys == k0.Keys + desired.Keys;
      raised := raised || failed;
    }

    /** One turn of the first loop, in a round that has dealt with the rules in `done`. */
    method RemoveTurn(n: int, ghost desired: map<int, string>, faults: Faults, ghost k0: Known, ghost j0: Jobs,
        ghost c0: seq<Call>, ghost done: set<int>) returns (failed: bool)
      requires n in k0 && n !in desired && n !in done
      requires Progress(lib, desired, faults, k0, j0, known, scheduler.jobs, done)
      requires CallsFor(lib, desired, k0, j0, c0, scheduler.calls)
      modifies this`known, scheduler
      ensures Progress(lib, desired, faults, k0, j0, known, scheduler.jobs, done + {n})
      ensures failed == RemoveFails(faults, j0, n)
      ensures CallsFor(lib, desired, k0, j0, c0, scheduler.calls)
    {
      DropProgress(lib, desired, faults, k0, j0, known, scheduler.jobs, done, n);
      failed := RemoveOne(n, faults);
    }

    /** The first loop. */
    method RemoveStale(ghost desired: map<int, string>, stale: set<int>, faults: Faults) returns (failed: bool)
      requires stale == known.Keys - desired.Keys
      modifies this`known, scheduler
      ensures Progress(lib, desired, faults, old(known), old(scheduler.jobs), known, scheduler.jobs, stale)
      ensures failed <==> exists n :: n in stale && RemoveFails(faults, old(scheduler.jobs), n)
      ensures CallsFor(lib, desired, old(known), old(scheduler.jobs), old(scheduler.calls), scheduler.calls)
    {
      ghost var k0, j0, c0 := known, scheduler.jobs, scheduler.calls;
      failed := false;
      var todo := stale;
      while todo != {}
        invariant todo <= stale
        invariant Progress(lib, desired, faults, k0, j0, known, scheduler.jobs, stale - todo)
        invariant failed <==> exists n :: n in stale - todo && RemoveFails(faults, j0, n)
        invariant CallsFor(lib, desired, k0, j0, c0, scheduler.calls)
        decreases todo
      {
        var n := AnyOf(todo);
        assert stale - (todo - {n}) == stale - todo + {n};
        var thisFailed := RemoveTurn(n, desired, faults, k0, j0, c0, stale - todo);
        failed := failed || thisFailed;
        todo := todo - {n};
      }
      assert stale - todo == stale;
    }

    /** One turn of the second loop, in a round that has dealt with the rules in `done`. */
    method UpdateTurn(n: int, desired: map<int, string>, faults: Faults, ghost k0: Known, ghost j0: Jobs,
        ghost c0: seq<Call>, ghost done: set<int>) returns (failed: bool)
      requires n in desired && n !in done
      requires Progress(lib, desired, faults, k0, j0, known, scheduler.jobs, done)
      requires CallsFor(lib, desired, k0, j0, c0, scheduler.calls)
      modifies this`known, scheduler
      ensures Progress(lib, desired, faults, k0, j0, known, scheduler.jobs, done + {n})
      ensures failed == UpdateFails(lib, faults, j0, k0, n, desired[n])
      ensures CallsFor(lib, desired, k0, j0, c0, scheduler.calls)
    {
      UpdateProgress(lib, desired, faults, k0, j0, known, scheduler.jobs, done, n);
      failed := UpdateOne(n, desired[n], faults);
    }

    /** The second loop, after the first has left rules `k0`, jobs `j0` and calls `c0` behind. */
    method UpdateDesired(desired: map<int, string>, faults: Faults, ghost k0: Known, ghost j0: Jobs, ghost c0: seq<Call>)
        returns (failed: bool)
      requires Progress(lib, desired, faults, k0, j0, known, scheduler.jobs, k0.Keys - desired.Keys)
      requires CallsFor(lib, desired, k0, j0, c0, scheduler.calls)
      modifies this`known, scheduler
      ensures Progress(lib, desired, faults, k0, j0, known, scheduler.jobs, k0.Keys - desired.Keys + desired.Keys)
      ensures failed <==> exists n :: n in desired && UpdateFails(lib, faults, j0, k0, n, desired[n])
      ensures CallsFor(lib, desired, k0, j0, c0, scheduler.calls)
    {
      ghost var stale := k0.Keys - desired.Keys;
      failed := false;
      var todo := desired.Keys;
      assert stale + (desired.Keys - todo) == stale;
      while todo != {}
        invariant todo <= desired.Keys
        invariant Progress(lib, desired, faults, k0, j0, known, scheduler.jobs, stale + (desired.Keys - todo))
        invariant failed <==> exists n :: n in desired && n !in todo && UpdateFails(lib, faults, j0, k0, n, desired[n])
        invariant CallsFor(lib, desired, k0, j0, c0, scheduler.calls)
        decreases todo
      {
        var n := AnyOf(todo);
        assert stale + (desired.Keys - (todo - {n})) == stale + (desired.Keys - todo) + {n};
        var thisFailed := UpdateTurn(n, desired, faults, k0, j0, c0, stale + (desired.Keys - todo));
        failed := failed || thisFailed;
        todo := todo - {n};
      }
      assert desired.Keys - todo == desired.Keys;
    }
  }

  ghost predicate CallsFor(
      lib: CronLibrary, desired: map<int, string>, k0: Known, j0: Jobs, before: seq<Call>, calls: seq<Call>)
  {
    before <= calls && forall i :: |before| <= i < |calls| ==> CalledFor(lib, desired, k0, j0, calls[i])
  }

  function KnownFrom(lib: CronLibrary, jobs: Jobs, listed: seq<string>): Known
    requires forall id :: id in listed ==> id in jobs
  {
    if listed == [] then map[]
    else
      var rest, id := KnownFrom(lib, jobs, listed[..|listed| - 1]), listed[|listed| - 1];
      var ruleId := RuleIdFromJobId(id);
      if ruleId.Some? then rest[ruleId.value := lib.Signature(jobs[id])] else rest
  }

  // ----- over any history -----

  /** Every present job of a rule is remembered with the text of its trigger. */
  ghost predicate Agreement(lib: CronLibrary, known: Known, jobs: Jobs) {
    forall n :: JobId(n) in jobs ==> n in known && known[n] == lib.Signature(jobs[JobId(n)])
  }

  lemma SyncKeepsAgreement(
      lib: CronLibrary, desired: map<int, string>, faults: Faults, k0: Known, j0: Jobs, k1: Known, j1: Jobs)
    requires Agreement(lib, k0, j0) && Synced(lib, desired, faults, k0, j0, k1, j1)
    ensures Agreement(lib, k1, j1)
  {
    forall n | JobId(n) in j1
      ensures n in k1 && k1[n] == lib.Signature(j1[JobId(n)])
    {
      assert RuleState(lib, desired, faults, k0, j0, k1, j1, n, n in k0.Keys + desired.Keys);
    }
  }

  datatype Happening =
    | Round(desired: map<int, string>, faults: Faults)   // sync, with some of its calls failing
    | Vanish(ids: set<string>)                           // jobs removed by someone else

  ghost predicate Happens(lib: CronLibrary, h: Happening, k0: Known, j0: Jobs, k1: Known, j1: Jobs) {
    match h
    case Round(desired, faults) => Synced(lib, desired, faults, k0, j0, k1, j1)
    case Vanish(ids) => k1 == k0 && j1 == j0 - ids
  }

  lemma {:induction false} AgreementEver(
      lib: CronLibrary, happenings: seq<Happening>, knowns: seq<Known>, jobs: seq<Jobs>, n: nat)
    requires |knowns| == |jobs| == |happenings| + 1 && n <= |happenings|
    requires Agreement(lib, knowns[0], jobs[0])
    requires forall i :: 0 <= i < |happenings| ==> Happens(lib, happenings[i], knowns[i], jobs[i], knowns[i + 1], jobs[i + 1])
    ensures Agreement(lib, knowns[n], jobs[n])
  {
    if n > 0 {
      AgreementEver(lib, happenings, knowns, jobs, n - 1);
      assert Happens(lib, happenings[n - 1], knowns[n - 1], jobs[n - 1], knowns[n], jobs[n]);
      if happenings[n - 1].Round? {
        SyncKeepsAgreement(lib, happenings[n - 1].desired, happenings[n - 1].faults,
          knowns[n - 1], jobs[n - 1], knowns[n], jobs[n]);
      }
    }
  }

  /** The job of the rule is there and its trigger reads as the rule's cron expression does. */
  ghost predicate Scheduled(lib: CronLibrary, jobs: Jobs, n: int, cron: string) {
    JobId(n) in jobs && lib.Signature(jobs[JobId(n)]) == lib.Signature(cron)
  }

  /** However many rounds failed in part and jobs vanished before: a rule whose own calls succeed
      in a round is scheduled as desired, or its job is gone if it is not desired. */
  lemma RoundIsRightWhereItSucceeds(
      lib: CronLibrary, happenings: seq<Happening>, knowns: seq<Known>, jobs: seq<Jobs>, i: nat, n: int)
    requires |knowns| == |jobs| == |happenings| + 1 && i < |happenings| && happenings[i].Round?
    requires Agreement(lib, knowns[0], jobs[0])
    requires forall m :: 0 <= m < |happenings| ==> Happens(lib, happenings[m], knowns[m], jobs[m], knowns[m + 1], jobs[m + 1])
    ensures var desired, faults := happenings[i].desired, happenings[i].faults;
      if n in desired then
        !UpdateFails(lib, faults, jobs[i], knowns[i], n, desired[n]) ==> Scheduled(lib, jobs[i + 1], n, desired[n])
      else
        !RemoveFails(faults, jobs[i], n) ==> JobId(n) !in jobs[i + 1]
  {
    AgreementEver(lib, happenings, knowns, jobs, i);
    assert Happens(lib, happenings[i], knowns[i], jobs[i], knowns[i + 1], jobs[i + 1]);
    var desired, faults := happenings[i].desired, happenings[i].faults;
    assert RuleState(lib, desired, faults, knowns[i], jobs[i], knowns[i + 1], jobs[i + 1], n,
      n in knowns[i].Keys + desired.Keys);
  }

  /** A call raises that the round has to make for rule n. */
  predicate CallRaises(
      lib: CronLibrary, desired: map<int, string>, faults: Faults, known: Known, jobs: Jobs, n: int)
  {
    var present, remembered := JobId(n) in jobs, n in known && n in desired && known[n] == lib.Signature(desired[n]);
    || (GetJob, n) in faults
    || (n !in desired && present && (RemoveJob, n) in faults)
    || (n in desired && !present && (AddJob, n) in faults)
    || (n in desired && present && !remembered && (RescheduleJob, n) in faults)
  }

  /** A rule with a raising call stays as it was, in memory and in the scheduler; every other rule at
      hand is remembered and has a job, or neither, as desired. */
  lemma RaisingCallsKeepTheRule(
      lib: CronLibrary, desired: map<int, string>, faults: Faults, k0: Known, j0: Jobs, k1: Known, j1: Jobs, n: int)
    requires Synced(lib, desired, faults, k0, j0, k1, j1) && (n in k0 || n in desired)
    ensures CallRaises(lib, desired, faults, k0, j0, n) ==>
      && (n in k1 <==> n in k0) && (n in k0 ==> k1[n] == k0[n])
      && (JobId(n) in j1 <==> JobId(n) in j0) && (JobId(n) in j0 ==> j1[JobId(n)] == j0[JobId(n)])
    ensures !CallRaises(lib, desired, faults, k0, j0, n) ==>
      && (n in k1 <==> n in desired) && (JobId(n) in j1 <==> n in desired)
      && (n in desired ==> k1[n] == lib.Signature(desired[n]))
  {
    assert RuleState(lib, desired, faults, k0, j0, k1, j1, n, n in k0.Keys + desired.Keys);
  }

  /** The round raises exactly if one of the calls it has to make does. */
  lemma RaisesExactlyIfACallDoes(
      lib: CronLibrary, desired: map<int, string>, faults: Faults, known: Known, jobs: Jobs)
    ensures SomeFailure(lib, desired, faults, known, jobs) <==>
      exists n :: (n in known || n in desired) && CallRaises(lib, desired, faults, known, jobs, n)
  {
    forall n | n in known || n in desired
      ensures CallRaises(lib, desired, faults, known, jobs, n) <==>
        if n in desired then UpdateFails(lib, faults, jobs, known, n, desired[n]) else RemoveFails(faults, jobs, n)
    {
    }
  }

  lemma CleanRoundOnRule(
      lib: CronLibrary, desired: map<int, string>, k0: Known, j0: Jobs, k1: Known, j1: Jobs, n: int)
    requires Agreement(lib, k0, j0) && Synced(lib, desired, {}, k0, j0, k1, j1)
    ensures (JobId(n) in j1 <==> n in desired) && (n in k1 <==> n in desired)
    ensures n in desired ==> Scheduled(lib, j1, n, desired[n]) && k1[n] == lib.Signature(desired[n])
  {
    assert RuleState(lib, desired, {}, k0, j0, k1, j1, n, n in k0.Keys + desired.Keys);
  }

  /** One round without failures: the rule jobs are exactly those of the desired rules, each
      with its trigger, and that is what is remembered. */
  lemma CleanRoundConverges(
      lib: CronLibrary, desired: map<int, string>, k0: Known, j0: Jobs, k1: Known, j1: Jobs)
    requires Agreement(lib, k0, j0) && Synced(lib, desired, {}, k0, j0, k1, j1)
    ensures forall n :: (JobId(n) in j1 <==> n in desired) && (n in k1 <==> n in desired)
    ensures forall n :: n in desired ==> Scheduled(lib, j1, n, desired[n]) && k1[n] == lib.Signature(desired[n])
  {
    forall n
      ensures (JobId(n) in j1 <==> n in desired) && (n in k1 <==> n in desired)
      ensures n in desired ==> Scheduled(lib, j1, n, desired[n]) && k1[n] == lib.Signature(desired[n])
    {
      CleanRoundOnRule(lib, desired, k0, j0, k1, j1, n);
    }
  }

  ghost predicate RuleConverged(lib: CronLibrary, desired: map<int, string>, jobs: Jobs, n: int) {
    (JobId(n) in jobs <==> n in desired) && (n in desired ==> Scheduled(lib, jobs, n, desired[n]))
  }

  /** The rule jobs are exactly those of the desired rules, each with its trigger. */
  ghost predicate Converged(lib: CronLibrary, desired: map<int, string>, jobs: Jobs) {
    forall n :: RuleConverged(lib, desired, jobs, n)
  }

  /** What a round has to know of a rule: that it is there, if it is to lose its job; and no wrong
      trigger, if the round takes it for unchanged. */
  ghost predicate RuleInformed(lib: CronLibrary, desired: map<int, string>, known: Known, jobs: Jobs, n: int) {
    if n in desired then Unchanged(lib, jobs, known, n, desired[n]) ==> Scheduled(lib, jobs, n, desired[n])
    else JobId(n) in jobs ==> n in known
  }

  ghost predicate Informed(lib: CronLibrary, desired: map<int, string>, known: Known, jobs: Jobs) {
    forall n :: RuleInformed(lib, desired, known, jobs, n)
  }

  lemma RuleConvergesIff(
      lib: CronLibrary, desired: map<int, string>, k0: Known, j0: Jobs, k1: Known, j1: Jobs, n: int)
    requires RuleState(lib, desired, {}, k0, j0, k1, j1, n, n in k0 || n in desired)
    ensures RuleConverged(lib, desired, j1, n) <==> RuleInformed(lib, desired, k0, j0, n)
  {
  }

  /** A round without failures converges exactly if the memory it starts with is good enough;
      agreement is, but is more than needed. */
  lemma CleanRoundConvergesIff(
      lib: CronLibrary, desired: map<int, string>, k0: Known, j0: Jobs, k1: Known, j1: Jobs)
    requires Synced(lib, desired, {}, k0, j0, k1, j1)
    ensures Converged(lib, desired, j1) <==> Informed(lib, desired, k0, j0)
  {
    forall n
      ensures RuleConverged(lib, desired, j1, n) <==> RuleInformed(lib, desired, k0, j0, n)
    {
      assert RuleState(lib, desired, {}, k0, j0, k1, j1, n, n in k0.Keys + desired.Keys);
      RuleConvergesIff(lib, desired, k0, j0, k1, j1, n);
    }
  }

  lemma AgreementInforms(lib: CronLibrary, desired: map<int, string>, known: Known, jobs: Jobs)
    requires Agreement(lib, known, jobs)
    ensures Informed(lib, desired, known, jobs)
  {
    forall n
      ensures RuleInformed(lib, desired, known, jobs, n)
    {
    }
  }

  /** After a clean round, a round for the same rules has nothing to call. */
  lemma RepeatedRoundIsSilent(
      lib: CronLibrary, desired: map<int, string>, k0: Known, j0: Jobs, k1: Known, j1: Jobs, call: Call)
    requires Agreement(lib, k0, j0) && Synced(lib, desired, {}, k0, j0, k1, j1)
    ensures !CalledFor(lib, desired, k1, j1, call)
  {
    CleanRoundConverges(lib, desired, k0, j0, k1, j1);
    forall n | n in desired
      ensures Unchanged(lib, j1, k1, n, desired[n])
    {
      assert Scheduled(lib, j1, n, desired[n]);
    }
  }

  // ----- taking over the jobs found at the start -----

  /** The last listed job whose id is read as n. */
  function LastAlias(listed: seq<string>, n: int): Option<string> {
    if listed == [] then None
    else if RuleIdFromJobId(listed[|listed| - 1]) == Some(n) then Some(listed[|listed| - 1])
    else LastAlias(listed[..|listed| - 1], n)
  }

  lemma {:induction false} KnownFromIs(lib: CronLibrary, jobs: Jobs, listed: seq<string>, n: int)
    requires forall id :: id in listed ==> id in jobs
    ensures LastAlias(listed, n).Some? ==> LastAlias(listed, n).value in listed
    ensures n in KnownFrom(lib, jobs, listed) <==> LastAlias(listed, n).Some?
    ensures n in KnownFrom(lib, jobs, listed) ==>
      KnownFrom(lib, jobs, listed)[n] == lib.Signature(jobs[LastAlias(listed, n).value])
  {
    if listed != [] {
      KnownFromIs(lib, jobs, listed[..|listed| - 1], n);
    }
  }

  lemma {:induction false} AliasListed(listed: seq<string>, id: string, n: int)
    requires id in listed && RuleIdFromJobId(id) == Some(n)
    ensures LastAlias(listed, n).Some?
  {
    if RuleIdFromJobId(listed[|listed| - 1]) != Some(n) {
      AliasListed(listed[..|listed| - 1], id, n);
    }
  }

  /** Memory and scheduler agree at the start exactly if no rule's job is followed by another
      job that is read as the same rule but has a different trigger. */
  lemma StartAgreesIff(lib: CronLibrary, jobs: Jobs, listed: seq<string>)
    requires forall id :: id in listed <==> id in jobs
    ensures Agreement(lib, KnownFrom(lib, jobs, listed), jobs) <==>
      forall n :: JobId(n) in jobs && LastAlias(listed, n).Some? && LastAlias(listed, n).value in jobs ==>
        lib.Signature(jobs[LastAlias(listed, n).value]) == lib.Signature(jobs[JobId(n)])
  {
    forall n | JobId(n) in jobs
      ensures LastAlias(listed, n).Some? && LastAlias(listed, n).value in jobs && n in KnownFrom(lib, jobs, listed)
      ensures KnownFrom(lib, jobs, listed)[n] == lib.Signature(jobs[LastAlias(listed, n).value])
    {
      KnownFromIs(lib, jobs, listed, n);
      JobIdParses(n);
      AliasListed(listed, JobId(n), n);
    }
  }

  /** With a job "rule-07" beside "rule-7" the memory is wrong, whatever their two expressions are, and
      every clean round for rule 7, enabled with the expression of the other job, leaves it on its old trigger. */
  lemma AliasMisleads(before: string, wanted: string)
      returns (lib: CronLibrary, jobs: Jobs, listed: seq<string>, rules: seq<ScheduledRule>, desired: map<int, string>)
    requires before != wanted
    ensures lib.accepts == {before, wanted} && (forall id :: id in listed <==> id in jobs)
    ensures IsDesired(lib, rules, desired) && 7 in desired && desired[7] == wanted
    ensures !Agreement(lib, KnownFrom(lib, jobs, listed), jobs)
    ensures forall k1: Known, j1: Jobs :: Synced(lib, desired, {}, KnownFrom(lib, jobs, listed), jobs, k1, j1) ==>
      !Scheduled(lib, j1, 7, desired[7]) && !Converged(lib, desired, j1)
  {
    lib := CronLibrary({before, wanted}, map[]);
    jobs := map["rule-7" := before, "rule-07" := wanted];
    listed := ["rule-7", "rule-07"];
    rules := [ScheduledRule(Some(7), true, false, wanted)];
    desired := map[7 := wanted];
    assert rules[0] in rules && Schedulable(lib, rules[0]);
    AliasWins(lib, jobs, listed);
    var known := KnownFrom(lib, jobs, listed);
    forall k1: Known, j1: Jobs | Synced(lib, desired, {}, known, jobs, k1, j1)
      ensures !Scheduled(lib, j1, 7, desired[7]) && !Converged(lib, desired, j1)
    {
      WrongTriggerStays(lib, desired, known, jobs, k1, j1, 7);
    }
  }

  /** A wrong trigger taken for unchanged survives a clean round. */
  lemma WrongTriggerStays(
      lib: CronLibrary, desired: map<int, string>, k0: Known, j0: Jobs, k1: Known, j1: Jobs, n: int)
    requires Synced(lib, desired, {}, k0, j0, k1, j1) && n in desired
    requires Unchanged(lib, j0, k0, n, desired[n]) && !Scheduled(lib, j0, n, desired[n])
    ensures !Scheduled(lib, j1, n, desired[n]) && !Converged(lib, desired, j1)
  {
    assert RuleState(lib, desired, {}, k0, j0, k1, j1, n, n in k0.Keys + desired.Keys);
    RuleConvergesIff(lib, desired, k0, j0, k1, j1, n);
    assert !RuleConverged(lib, desired, j1, n);
  }

  lemma AliasWins(lib: CronLibrary, jobs: Jobs, listed: seq<string>)
    requires "rule-7" in jobs && "rule-07" in jobs && listed == ["rule-7", "rule-07"]
    ensures JobId(7) == "rule-7"
    ensures 7 in KnownFrom(lib, jobs, listed) && KnownFrom(lib, jobs, listed)[7] == lib.Signature(jobs["rule-07"])
  {
    assert JobId(7) == "rule-7";
    AliasIsRead();
    assert listed[..1] == ["rule-7"];
  }

  lemma AliasIsRead()
    ensures RuleIdFromJobId("rule-07") == Some(7) && RuleIdFromJobId("rule-7") == Some(7)
  {
    JobIdParses(7);
    assert JobId(7) == "rule-7";
    assert "rule-07"[5..] == "07" && Strip("07") == "07" by {
      StripTrims("07");
    }
    assert ParseDigits("0") == Some(0);
    assert "07"[..1] == "0";
    assert ParseDigits("07") == Some(7);
  }
}
