/** Duplicate suppression (app/execution_service.py): the filter of one run, what a committed
    run writes down, and what that means over all runs of a rule. */
module Suppressions {
  import opened Outcomes
  import opened Text

  /** A result row: column to value; None for NULL, otherwise the value's text. */
  type Row = map<string, Option<string>>

  /** The suppression settings of a rule that has them in force. */
  datatype Setting = Setting(field: string, windowHours: int)

  /** One AlertSuppression of the rule; the table holds one per key. */
  datatype Record = Record(firstSeenAt: int, lastSeenAt: int, hitCount: int)

  type Records = map<string, Record>

  datatype SuppressionState = SuppressionState(newKeys: seq<string>, suppressedKeys: seq<string>, now: int)

  function RowKey(row: Row, field: string): string {
    if field !in row || row[field].None? then "" else Strip(row[field].value)
  }

  /** A missing value and a value of nothing but space have no key; outer space makes no difference. */
  lemma RowKeyIs(row: Row, field: string)
    ensures field !in row || row[field].None? ==> RowKey(row, field) == ""
    ensures Trimmed(RowKey(row, field))
    ensures field in row && row[field].Some? ==>
      exists before, after :: AllSpace(before) && AllSpace(after) && row[field].value == before + RowKey(row, field) + after
  {
    if field in row && row[field].Some? {
      StripTrims(row[field].value);
      var before, after := StripDropsSpace(row[field].value);
    }
  }

  predicate InWindow(records: Records, key: string, cutoff: int) {
    key in records && records[key].lastSeenAt >= cutoff
  }

  // ----- one run -----

  /** Some row before the n-th has this key. */
  predicate SeenBefore(rows: seq<Row>, field: string, n: nat, key: string)
    requires n <= |rows|
  {
    exists j :: 0 <= j < n && RowKey(rows[j], field) == key
  }

  /** The row is passed on: it has no key, or is the first with its key and the key is not in the window. */
  predicate Passes(rows: seq<Row>, field: string, records: Records, cutoff: int, i: nat)
    requires i < |rows|
  {
    var key := RowKey(rows[i], field);
    key == "" || (!SeenBefore(rows, field, i, key) && !InWindow(records, key, cutoff))
  }

  /** The rows before the n-th that pass, in order. */
  function Passed(rows: seq<Row>, field: string, records: Records, cutoff: int, n: nat): seq<Row>
    requires n <= |rows|
  {
    if n == 0 then []
    else
      var rest := Passed(rows, field, records, cutoff, n - 1);
      if Passes(rows, field, records, cutoff, n - 1) then rest + [rows[n - 1]] else rest
  }

  /** The keys of the rows before the n-th that have one. */
  function Keys(rows: seq<Row>, field: string, n: nat): seq<string>
    requires n <= |rows|
  {
    if n == 0 then []
    else
      var rest, key := Keys(rows, field, n - 1), RowKey(rows[n - 1], field);
      if key == "" then rest else rest + [key]
  }

  /** Those of them whose rows pass (`passing`), or do not. */
  function KeysThat(rows: seq<Row>, field: string, records: Records, cutoff: int, n: nat, passing: bool): seq<string>
    requires n <= |rows|
  {
    if n == 0 then []
    else
      var rest, key := KeysThat(rows, field, records, cutoff, n - 1, passing), RowKey(rows[n - 1], field);
      if key != "" && Passes(rows, field, records, cutoff, n - 1) == passing then rest + [key] else rest
  }

  lemma {:induction false} KeysAreSplit(rows: seq<Row>, field: string, records: Records, cutoff: int, n: nat)
    requires n <= |rows|
    ensures multiset(KeysThat(rows, field, records, cutoff, n, true)) + multiset(KeysThat(rows, field, records, cutoff, n, false))
      == multiset(Keys(rows, field, n))
  {
    if n > 0 {
      KeysAreSplit(rows, field, records, cutoff, n - 1);
      OneMore(KeysThat(rows, field, records, cutoff, n - 1, true), KeysThat(rows, field, records, cutoff, n - 1, false),
        Keys(rows, field, n - 1), RowKey(rows[n - 1], field), Passes(rows, field, records, cutoff, n - 1));
    }
  }

  /** The rows before the n-th that have this key. */
  function RowsWith(rows: seq<Row>, field: string, n: nat, key: string): set<nat>
    requires n <= |rows|
  {
    set i: nat | i < n && RowKey(rows[i], field) == key
  }

  /** A key is there as often as there are rows that have it. */
  lemma {:induction false} KeysCountRows(rows: seq<Row>, field: string, n: nat, key: string)
    requires n <= |rows|
    ensures multiset(Keys(rows, field, n))[key] == if key == "" then 0 else |RowsWith(rows, field, n, key)|
  {
    if n > 0 {
      KeysCountRows(rows, field, n - 1, key);
      RowsWithOneMore(rows, field, n - 1, key);
      KeysOneMore(rows, field, n - 1, key);
    }
  }

  lemma {:induction false} KeysSome(rows: seq<Row>, field: string, n: nat)
    requires n <= |rows|
    ensures Keys(rows, field, n) != [] <==> exists i :: 0 <= i < n && RowKey(rows[i], field) != ""
  {
    if n > 0 {
      KeysSome(rows, field, n - 1);
    }
  }

  lemma KeysOneMore(rows: seq<Row>, field: string, n: nat, key: string)
    requires n < |rows|
    ensures multiset(Keys(rows, field, n + 1))[key]
      == multiset(Keys(rows, field, n))[key] + if key != "" && RowKey(rows[n], field) == key then 1 else 0
  {
    CountOneMore(Keys(rows, field, n), RowKey(rows[n], field), key);
  }

  lemma RowsWithOneMore(rows: seq<Row>, field: string, n: nat, key: string)
    requires n < |rows|
    ensures |RowsWith(rows, field, n + 1, key)|
      == |RowsWith(rows, field, n, key)| + if RowKey(rows[n], field) == key then 1 else 0
  {
    var rest := RowsWith(rows, field, n, key);
    assert RowsWith(rows, field, n + 1, key) == if RowKey(rows[n], field) == key then rest + {n} else rest;
    assert n !in rest;
  }

  lemma CountOneMore(keys: seq<string>, k: string, key: string)
    ensures multiset(keys + [k])[key] == multiset(keys)[key] + if k == key then 1 else 0
  {
  }

  lemma OneMore(a: seq<string>, b: seq<string>, all: seq<string>, key: string, first: bool)
    requires multiset(a) + multiset(b) == multiset(all)
    ensures multiset(if key != "" && first then a + [key] else a) + multiset(if key != "" && !first then b + [key] else b)
      == multiset(if key != "" then all + [key] else all)
  {
    assert multiset(all + [key]) == multiset(all) + multiset{key};
    assert multiset(a + [key]) == multiset(a) + multiset{key};
    assert multiset(b + [key]) == multiset(b) + multiset{key};
  }

  /** The local set seen_in_run after n rows. */
  ghost predicate SeenInRun(rows: seq<Row>, field: string, records: Records, cutoff: int, n: nat, seen: set<string>)
    requires n <= |rows|
  {
    forall k :: k in seen <==> k != "" && SeenBefore(rows, field, n, k) && !InWindow(records, k, cutoff)
  }

  lemma SeenInRunDecides(rows: seq<Row>, field: string, records: Records, cutoff: int, n: nat, seen: set<string>)
    requires n < |rows| && SeenInRun(rows, field, records, cutoff, n, seen)
    ensures var key := RowKey(rows[n], field);
      && (Passes(rows, field, records, cutoff, n) <==> key == "" || (key !in seen && !InWindow(records, key, cutoff)))
      && SeenInRun(rows, field, records, cutoff, n + 1,
           if key == "" || InWindow(records, key, cutoff) then seen else seen + {key})
  {
    var key := RowKey(rows[n], field);
    forall k
      ensures SeenBefore(rows, field, n + 1, k) <==> SeenBefore(rows, field, n, k) || k == key
    {
      if k == key {
        assert SeenBefore(rows, field, n + 1, k);
      }
    }
  }

  /** What one more row adds to the three lists. */
  lemma RowAdds(rows: seq<Row>, field: string, records: Records, cutoff: int, n: nat, key: string, passes: bool)
    requires n < |rows| && key == RowKey(rows[n], field) && passes == Passes(rows, field, records, cutoff, n)
    ensures Passed(rows, field, records, cutoff, n + 1)
      == Passed(rows, field, records, cutoff, n) + if passes then [rows[n]] else []
    ensures KeysThat(rows, field, records, cutoff, n + 1, true)
      == KeysThat(rows, field, records, cutoff, n, true) + if key != "" && passes then [key] else []
    ensures KeysThat(rows, field, records, cutoff, n + 1, false)
      == KeysThat(rows, field, records, cutoff, n, false) + if key != "" && !passes then [key] else []
  {
  }

  /** filter_rows of _build_suppression_filter. */
  method FilterRows(rows: seq<Row>, field: string, records: Records, now: int, windowHours: int)
      returns (filtered: seq<Row>, state: SuppressionState)
    ensures filtered == Passed(rows, field, records, now - windowHours, |rows|)
    ensures state.newKeys == KeysThat(rows, field, records, now - windowHours, |rows|, true)
    ensures state.suppressedKeys == KeysThat(rows, field, records, now - windowHours, |rows|, false)
    ensures state.now == now
  {
    var cutoff := now - windowHours;
    var newKeys, suppressedKeys: seq<string> := [], [];
    var seenInRun: set<string> := {};
    filtered := [];
    for i := 0 to |rows|
      invariant filtered == Passed(rows, field, records, cutoff, i)
      invariant newKeys == KeysThat(rows, field, records, cutoff, i, true)
      invariant suppressedKeys == KeysThat(rows, field, records, cutoff, i, false)
      invariant SeenInRun(rows, field, records, cutoff, i, seenInRun)
    {
      var key := RowKey(rows[i], field);
      SeenInRunDecides(rows, field, records, cutoff, i, seenInRun);
      RowAdds(rows, field, records, cutoff, i, key, Passes(rows, field, records, cutoff, i));
      if key == "" {
        filtered := filtered + [rows[i]];
      } else if key in seenInRun || InWindow(records, key, cutoff) {
        assert seenInRun + {key} == seenInRun || InWindow(records, key, cutoff);
        suppressedKeys := suppressedKeys + [key];
      } else {
        seenInRun := seenInRun + {key};
        newKeys := newKeys + [key];
        filtered := filtered + [rows[i]];
      }
    }
    state := SuppressionState(newKeys, suppressedKeys, now);
  }

  /** The keys of the rows that pass, and of the others. */
  function Collected(rows: seq<Row>, setting: Setting, records: Records, now: int): SuppressionState {
    var cutoff := now - setting.windowHours;
    SuppressionState(KeysThat(rows, setting.field, records, cutoff, |rows|, true),
                     KeysThat(rows, setting.field, records, cutoff, |rows|, false), now)
  }

  /** No nonempty key is passed on twice in a run, and rows without a key all are. */
  lemma PassedKeysAreDistinct(rows: seq<Row>, field: string, records: Records, cutoff: int, i: nat, j: nat)
    requires i < j < |rows|
    requires Passes(rows, field, records, cutoff, i) && Passes(rows, field, records, cutoff, j)
    ensures RowKey(rows[i], field) == RowKey(rows[j], field) ==> RowKey(rows[i], field) == ""
  {
  }

  // ----- what a committed run writes -----

  function Touch(records: Records, key: string, now: int): Records {
    if key in records
    then records[key := records[key].(lastSeenAt := now, hitCount := records[key].hitCount + 1)]
    else records[key := Record(now, now, 1)]
  }

  function TouchAll(records: Records, keys: seq<string>, now: int): Records {
    if keys == [] then records
    else Touch(TouchAll(records, keys[..|keys| - 1], now), keys[|keys| - 1], now)
  }

  /** _persist_suppression_state. */
  method PersistSuppressionState(records: Records, state: SuppressionState) returns (updated: Records)
    ensures updated == TouchAll(records, state.newKeys + state.suppressedKeys, state.now)
  {
    var keys := state.newKeys + state.suppressedKeys;
    updated := records;
    for i := 0 to |keys|
      invariant updated == TouchAll(records, keys[..i], state.now)
    {
      assert keys[..i + 1][..i] == keys[..i];
      updated := Touch(updated, keys[i], state.now);
    }
    assert keys[..|keys|] == keys;
  }

  /** After the writing every key given was last seen now and its count has grown by its
      occurrences; other keys are as before. */
  lemma {:induction false} TouchAllIs(records: Records, keys: seq<string>, now: int)
    ensures var r := TouchAll(records, keys, now);
      && r.Keys == records.Keys + (set k | k in keys)
      && (forall k :: k in records && k !in keys ==> r[k] == records[k])
      && (forall k :: k in keys ==> r[k].lastSeenAt == now)
      && (forall k :: k in r ==>
          r[k].hitCount == (if k in records then records[k].hitCount else 0) + multiset(keys)[k])
      && (forall k :: k in r ==> r[k].firstSeenAt == if k in records then records[k].firstSeenAt else now)
  {
    if keys != [] {
      var rest, last := keys[..|keys| - 1], keys[|keys| - 1];
      TouchAllIs(records, rest, now);
      assert keys == rest + [last];
      assert multiset(keys) == multiset(rest) + multiset{last};
    }
  }

  /** The order in which the keys are written does not matter. */
  lemma TouchAllOrder(records: Records, a: seq<string>, b: seq<string>, now: int)
    requires multiset(a) == multiset(b)
    ensures TouchAll(records, a, now) == TouchAll(records, b, now)
  {
    TouchAllIs(records, a, now);
    TouchAllIs(records, b, now);
    var r, s := TouchAll(records, a, now), TouchAll(records, b, now);
    assert forall k :: k in a <==> k in multiset(a);
    assert forall k :: k in b <==> k in multiset(b);
    assert r.Keys == s.Keys;
    forall k | k in r
      ensures r[k] == s[k]
    {
    }
  }

  /** What a committed run writes is what its keyed rows say, whichever of them passed. */
  lemma WrittenKeys(rows: seq<Row>, field: string, records: Records, cutoff: int, now: int)
    ensures TouchAll(records, KeysThat(rows, field, records, cutoff, |rows|, true)
                              + KeysThat(rows, field, records, cutoff, |rows|, false), now)
      == TouchAll(records, Keys(rows, field, |rows|), now)
  {
    var passing := KeysThat(rows, field, records, cutoff, |rows|, true);
    var others := KeysThat(rows, field, records, cutoff, |rows|, false);
    KeysAreSplit(rows, field, records, cutoff, |rows|);
    TouchAllOrder(records, passing + others, Keys(rows, field, |rows|), now);
  }

  // ----- all runs of a rule -----

  /** One finished run: its clock, its result rows, the rule's settings at the time, and
      whether it was committed with status SUCCESS. */
  datatype RuleRun = RuleRun(now: int, rows: seq<Row>, field: string, windowHours: int, success: bool)

  function KeysOf(run: RuleRun): seq<string> {
    Keys(run.rows, run.field, |run.rows|)
  }

  /** The suppression table after these runs. */
  function After(history: seq<RuleRun>): Records {
    if history == [] then map[]
    else
      var rest, run := After(history[..|history| - 1]), history[|history| - 1];
      if run.success then TouchAll(rest, KeysOf(run), run.now) else rest
  }

  /** Filtering by the table and writing down what was seen is one more run of the history. */
  lemma RunExtendsHistory(history: seq<RuleRun>, run: RuleRun)
    requires run.success
    ensures var records, cutoff := After(history), run.now - run.windowHours;
      TouchAll(records, KeysThat(run.rows, run.field, records, cutoff, |run.rows|, true)
                        + KeysThat(run.rows, run.field, records, cutoff, |run.rows|, false), run.now)
      == After(history + [run])
  {
    assert (history + [run])[..|history|] == history;
    WrittenKeys(run.rows, run.field, After(history), run.now - run.windowHours, run.now);
  }

  ghost predicate Chronological(history: seq<RuleRun>) {
    forall i, j :: 0 <= i < j < |history| ==> history[i].now <= history[j].now
  }

  /** Run j was a committed success that saw the key at `since` or later. */
  predicate SawSince(history: seq<RuleRun>, j: nat, key: string, since: int)
    requires j < |history|
  {
    history[j].success && key in KeysOf(history[j]) && history[j].now >= since
  }

  lemma {:induction false} WindowIs(history: seq<RuleRun>, key: string, cutoff: int)
    requires Chronological(history)
    ensures InWindow(After(history), key, cutoff) <==> exists j :: 0 <= j < |history| && SawSince(history, j, key, cutoff)
  {
    if history != [] {
      var n := |history| - 1;
      var rest, run := history[..n], history[n];
      WindowIs(rest, key, cutoff);
      TouchAllIs(After(rest), KeysOf(run), run.now);
      assert forall j :: 0 <= j < n ==> SawSince(rest, j, key, cutoff) == SawSince(history, j, key, cutoff);
      if run.success && key in KeysOf(run) {
        if run.now >= cutoff {
          assert SawSince(history, n, key, cutoff);
        }
      } else {
        assert !SawSince(history, n, key, cutoff);
      }
    }
  }

  /** A row of a run is passed on exactly if it has no key, or is the first of the run with its
      key and no earlier committed success saw the key within the window. Failed and partly
      failed runs leave no trace. */
  lemma SuppressionOverHistory(history: seq<RuleRun>, n: nat, i: nat)
    requires Chronological(history) && n < |history| && i < |history[n].rows|
    ensures var run := history[n];
      var key, cutoff := RowKey(run.rows[i], run.field), run.now - run.windowHours;
      Passes(run.rows, run.field, After(history[..n]), cutoff, i) <==>
        key == "" || (
          && !SeenBefore(run.rows, run.field, i, key)
          && !exists j :: 0 <= j < n && SawSince(history, j, key, cutoff))
  {
    var run := history[n];
    var key, cutoff := RowKey(run.rows[i], run.field), run.now - run.windowHours;
    WindowIs(history[..n], key, cutoff);
    assert forall j :: 0 <= j < n ==> SawSince(history[..n], j, key, cutoff) == SawSince(history, j, key, cutoff);
  }

  /** The row is due in a run after this history: it has no key, or is the first of the run with its
      key and no committed success saw the key within the window. */
  ghost predicate Due(history: seq<RuleRun>, run: RuleRun, i: nat)
    requires i < |run.rows|
  {
    var key, cutoff := RowKey(run.rows[i], run.field), run.now - run.windowHours;
    key == "" || (
      && !SeenBefore(run.rows, run.field, i, key)
      && !exists j :: 0 <= j < |history| && SawSince(history, j, key, cutoff))
  }

  /** The due rows before the n-th, in order. */
  ghost function DueRows(history: seq<RuleRun>, run: RuleRun, n: nat): seq<Row>
    requires n <= |run.rows|
  {
    if n == 0 then []
    else
      var rest := DueRows(history, run, n - 1);
      if Due(history, run, n - 1) then rest + [run.rows[n - 1]] else rest
  }

  lemma PassesIsDue(history: seq<RuleRun>, run: RuleRun, i: nat)
    requires Chronological(history + [run]) && i < |run.rows|
    ensures Passes(run.rows, run.field, After(history), run.now - run.windowHours, i) <==> Due(history, run, i)
  {
    var all, key, cutoff := history + [run], RowKey(run.rows[i], run.field), run.now - run.windowHours;
    SuppressionOverHistory(all, |history|, i);
    assert all[..|history|] == history;
    assert forall j :: 0 <= j < |history| ==> SawSince(all, j, key, cutoff) == SawSince(history, j, key, cutoff);
  }

  /** What the filter passes on is what the history leaves due. */
  lemma {:induction false} PassedAreDue(history: seq<RuleRun>, run: RuleRun, n: nat)
    requires Chronological(history + [run]) && n <= |run.rows|
    ensures Passed(run.rows, run.field, After(history), run.now - run.windowHours, n) == DueRows(history, run, n)
  {
    if n > 0 {
      PassedAreDue(history, run, n - 1);
      PassesIsDue(history, run, n - 1);
    }
  }

  /** Suppressed sightings renew the window: a key that any earlier committed success saw within the
      window, passed on by it or not, is not passed on; so a key seen steadily is sent once. */
  lemma SightingsRenewTheWindow(history: seq<RuleRun>, key: string, m: nat, n: nat, i: nat)
    requires Chronological(history) && m < n < |history| && i < |history[n].rows| && key != ""
    requires SawSince(history, m, key, history[n].now - history[n].windowHours)
    requires RowKey(history[n].rows[i], history[n].field) == key
    ensures !Passes(history[n].rows, history[n].field, After(history[..n]), history[n].now - history[n].windowHours, i)
  {
    SuppressionOverHistory(history, n, i);
  }

  /** How many rows with the key the committed successes saw. */
  function Sightings(history: seq<RuleRun>, key: string): nat {
    if history == [] then 0
    else
      var run := history[|history| - 1];
      Sightings(history[..|history| - 1], key) + if run.success then multiset(KeysOf(run))[key] else 0
  }

  /** A key has a record exactly if a committed success saw it, and its count is the number of
      rows with it that those runs saw. */
  lemma {:induction false} HitCountsAreSightings(history: seq<RuleRun>, key: string)
    ensures key in After(history) <==> Sightings(history, key) > 0
    ensures key in After(history) ==> After(history)[key].hitCount == Sightings(history, key)
  {
    if history != [] {
      var rest, run := history[..|history| - 1], history[|history| - 1];
      HitCountsAreSightings(rest, key);
      TouchAllIs(After(rest), KeysOf(run), run.now);
      assert key in KeysOf(run) <==> multiset(KeysOf(run))[key] > 0;
    }
  }
}
