/** The streaming export of a log table (app/log_service.py): keyset pagination while other
    writers insert and delete between the batches. */
module LogStreams {

  /** A row of the table being exported; ids are unique, timestamps need not be. */
  datatype LogRow = LogRow(id: int, timestamp: int)

  const CSV_EXPORT_BATCH_SIZE := 500

  /** ORDER BY timestamp DESC, id DESC: a comes before b. */
  predicate Before(a: LogRow, b: LogRow) {
    a.timestamp > b.timestamp || (a.timestamp == b.timestamp && a.id > b.id)
  }

  ghost predicate Descending(rows: seq<LogRow>) {
    forall i, j :: 0 <= i < j < |rows| ==> Before(rows[i], rows[j])
  }

  /** Where the last batch ended. */
  datatype Cursor = Start | After(timestamp: int, id: int)
  {
    predicate Admits(row: LogRow) {
      Start? || row.timestamp < timestamp || (row.timestamp == timestamp && row.id < id)
    }
  }

  /** The rows a batch query ranges over. */
  function Remaining(table: set<LogRow>, maxId: int, cursor: Cursor): set<LogRow> {
    set r | r in table && r.id <= maxId && cursor.Admits(r)
  }

  lemma FirstOf(rows: set<LogRow>) returns (first: LogRow)
    requires rows != {}
    ensures first in rows && forall r :: r in rows && r != first ==> Before(first, r)
    decreases rows
  {
    var some :| some in rows;
    var earlier := set r | r in rows && Before(r, some);
    if earlier == {} {
      first := some;
      forall r | r in rows && r != first
        ensures Before(first, r)
      {
        assert r !in earlier;
      }
    } else {
      first := FirstOf(earlier);
      forall r | r in rows && r != first
        ensures Before(first, r)
      {
        if r !in earlier {
          assert Before(first, some);
        }
      }
    }
  }

  /** The first rows in order, at most `limit` of them. */
  method SelectOrdered(rows: set<LogRow>, limit: nat) returns (batch: seq<LogRow>)
    ensures Descending(batch) && (forall r :: r in batch ==> r in rows)
    ensures forall r :: r in rows && r !in batch ==> |batch| == limit && forall b :: b in batch ==> Before(b, r)
    ensures limit > 0 && rows != {} ==> batch != []
    ensures |batch| <= limit
  {
    var rest := rows;
    batch := [];
    while rest != {} && |batch| < limit
      invariant rest <= rows && |batch| <= limit
      invariant forall r :: r in rows <==> r in rest || r in batch
      invariant Descending(batch)
      invariant forall b, r :: b in batch && r in rest ==> Before(b, r)
      invariant rest == rows || batch != []
      decreases rest
    {
      ghost var first := FirstOf(rest);
      var next :| next in rest && forall r :: r in rest && r != next ==> Before(next, r);
      batch, rest := batch + [next], rest - {next};
    }
  }

  /** Between two queries others may delete anything and insert above the snapshot's maximum. */
  ghost predicate Evolves(before: set<LogRow>, after: set<LogRow>, maxId: int) {
    forall r :: r in after && r.id <= maxId ==> r in before
  }

  ghost predicate Environment(tables: nat -> set<LogRow>, maxId: int) {
    forall i: nat :: Evolves(tables(i), tables(i + 1), maxId)
  }

  lemma {:induction false} EvolvesLong(tables: nat -> set<LogRow>, maxId: int, i: nat, j: nat)
    requires Environment(tables, maxId) && i <= j
    ensures Evolves(tables(i), tables(j), maxId)
    decreases j - i
  {
    if i < j {
      EvolvesLong(tables, maxId, i, j - 1);
      assert Evolves(tables(j - 1), tables(j - 1 + 1), maxId);
    }
  }

  /** What the caller has been given after n batches: descending, ending at the cursor, and
      complete above it but for rows deleted meanwhile. */
  ghost predicate Exported(
      tables: nat -> set<LogRow>, maxId: int, cursor: Cursor, out: seq<LogRow>, n: nat)
  {
    && Descending(out)
    && (forall r :: r in out ==> r.id <= maxId && r in tables(0) && !cursor.Admits(r))
    && (forall r :: r in tables(n) && r.id <= maxId && !cursor.Admits(r) ==> r in out)
    && (cursor.Start? ==> out == [])
  }

  function CursorAt(row: LogRow): Cursor {
    After(row.timestamp, row.id)
  }

  /** One more batch. */
  lemma BatchExported(
      tables: nat -> set<LogRow>, maxId: int, cursor: Cursor, out: seq<LogRow>, n: nat, batch: seq<LogRow>)
    requires Environment(tables, maxId) && Exported(tables, maxId, cursor, out, n)
    requires batch != [] && Descending(batch)
    requires forall r :: r in batch ==> r in Remaining(tables(n), maxId, cursor)
    requires forall r, b :: r in Remaining(tables(n), maxId, cursor) && r !in batch && b in batch ==> Before(b, r)
    ensures Exported(tables, maxId, CursorAt(batch[|batch| - 1]), out + batch, n + 1)
  {
    var last := batch[|batch| - 1];
    var next, more := CursorAt(last), out + batch;
    EvolvesLong(tables, maxId, 0, n);
    EvolvesLong(tables, maxId, n, n + 1);
    forall i, j | 0 <= i < j < |more|
      ensures Before(more[i], more[j])
    {
      if i < |out| <= j {
        assert more[i] in out && more[j] in batch;
      }
    }
    forall r | r in more
      ensures r.id <= maxId && r in tables(0) && !next.Admits(r)
    {
      if r in out {
        assert last in batch;
      } else {
        var i :| 0 <= i < |batch| && batch[i] == r;
        assert r == last || Before(batch[i], batch[|batch| - 1]);
      }
    }
    forall r | r in tables(n + 1) && r.id <= maxId && !next.Admits(r)
      ensures r in more
    {
      assert r in tables(n) && last in batch;
    }
  }

  lemma LargestId(rows: set<LogRow>) returns (largest: LogRow)
    requires rows != {}
    ensures largest in rows && forall r :: r in rows ==> r.id <= largest.id
    decreases rows
  {
    var some :| some in rows;
    var larger := set r | r in rows && r.id > some.id;
    if larger == {} {
      largest := some;
      assert forall r :: r in rows && r.id > some.id ==> r in larger;
    } else {
      largest := LargestId(larger);
      assert forall r :: r in rows && r !in larger ==> r.id <= some.id;
    }
  }

  ghost predicate IsMaxId(table: set<LogRow>, maxId: int) {
    (exists r :: r in table && r.id == maxId) && forall r :: r in table ==> r.id <= maxId
  }

  /** SELECT max(id). */
  method SelectMaxId(table: set<LogRow>) returns (maxId: int)
    requires table != {}
    ensures IsMaxId(table, maxId)
  {
    ghost var largest := LargestId(table);
    var row :| row in table && forall r :: r in table ==> r.id <= row.id;
    maxId := row.id;
  }

  /** The rows below the new cursor are fewer than those below the old one. */
  lemma Shrinks(tables: nat -> set<LogRow>, maxId: int, cursor: Cursor, n: nat, last: LogRow)
    requires Environment(tables, maxId) && last in Remaining(tables(n), maxId, cursor)
    ensures Remaining(tables(n + 1), maxId, CursorAt(last)) < Remaining(tables(n), maxId, cursor)
  {
    assert Evolves(tables(n), tables(n + 1), maxId);
    assert last !in Remaining(tables(n + 1), maxId, CursorAt(last));
  }

  /** The rows of all batches, in order. */
  function Rows(batches: seq<seq<LogRow>>): seq<LogRow> {
    if batches == [] then [] else Rows(batches[..|batches| - 1]) + batches[|batches| - 1]
  }

  lemma RowsOneMore(batches: seq<seq<LogRow>>, batch: seq<LogRow>)
    ensures Rows(batches + [batch]) == Rows(batches) + batch
  {
    assert (batches + [batch])[..|batches|] == batches;
  }

  predicate BatchFits(batch: seq<LogRow>) {
    0 < |batch| <= 500
  }

  /** The one descending list of the rows of a table. */
  ghost predicate IsSorted(table: set<LogRow>, rows: seq<LogRow>) {
    forall sorted :: Lists(table, sorted) <==> sorted == rows
  }

  ghost predicate Lists(table: set<LogRow>, rows: seq<LogRow>) {
    Descending(rows) && forall r :: r in rows <==> r in table
  }

  lemma OnlySorted(table: set<LogRow>, rows: seq<LogRow>)
    requires Lists(table, rows)
    ensures IsSorted(table, rows)
  {
    forall sorted | Lists(table, sorted)
      ensures sorted == rows
    {
      DescendingIsUnique(sorted, rows);
    }
  }

  lemma SameFirst(a: seq<LogRow>, b: seq<LogRow>)
    requires Descending(a) && Descending(b) && a != [] && b != [] && a[0] in b && b[0] in a
    ensures a[0] == b[0]
  {
    var i :| 0 <= i < |b| && b[i] == a[0];
    var j :| 0 <= j < |a| && a[j] == b[0];
    if i > 0 {
      assert Before(b[0], b[i]);
    }
  }

  /** Two descending lists of the same rows are the same list. */
  lemma {:induction false} DescendingIsUnique(a: seq<LogRow>, b: seq<LogRow>)
    requires Descending(a) && Descending(b)
    requires forall r :: r in a <==> r in b
    ensures a == b
  {
    assert |b| > 0 ==> b[0] in b && b[0] in a;
    if a != [] {
      assert a[0] in b && b[0] in a;
      SameFirst(a, b);
      forall r
        ensures r in a[1..] <==> r in b[1..]
      {
        if r in a[1..] {
          assert r in b && r != b[0];
        }
        if r in b[1..] {
          assert r in a && r != a[0];
        }
      }
      DescendingIsUnique(a[1..], b[1..]);
    }
  }

  /** _iter_log_batches, with the batches it yields. tables(0) is what the query for the largest id
      sees, tables(i + 1) what the i-th batch query sees. */
  method IterLogBatches(tables: nat -> set<LogRow>) returns (batches: seq<seq<LogRow>>, ghost queries: nat)
    requires forall maxId :: IsMaxId(tables(0), maxId) ==> Environment(tables, maxId)
    ensures forall batch :: batch in batches ==> BatchFits(batch)
    ensures Descending(Rows(batches))
    ensures forall i, j :: 0 <= i < j < |Rows(batches)| ==>
      var a, b := Rows(batches)[i], Rows(batches)[j];
      a.timestamp > b.timestamp || (a.timestamp == b.timestamp && a.id > b.id)
    // no row but those of the snapshot
    ensures forall r :: r in Rows(batches) ==> r in tables(0)
    // every row that was never deleted
    ensures forall r :: (forall i: nat :: i <= queries ==> r in tables(i)) ==> r in Rows(batches)
    // with no deletion in between, exactly the sorted snapshot
    ensures (forall i: nat :: i <= queries ==> tables(0) <= tables(i)) ==> IsSorted(tables(0), Rows(batches))
  {
    batches, queries := [], 0;
    if tables(0) == {} {
      OnlySorted(tables(0), Rows(batches));
      return;
    }
    var maxId := SelectMaxId(tables(0));
    var cursor := Start;
    var n: nat := 1;
    while true
      invariant n >= 1
      invariant Exported(tables, maxId, cursor, Rows(batches), n)
      invariant forall batch :: batch in batches ==> BatchFits(batch)
      decreases Remaining(tables(n), maxId, cursor)
    {
      var batch := SelectOrdered(Remaining(tables(n), maxId, cursor), CSV_EXPORT_BATCH_SIZE);
      if batch == [] {
        queries := n;
        forall r | forall j: nat :: j <= queries ==> r in tables(j)
          ensures r in Rows(batches)
        {
          assert r in tables(0) && r in tables(n);
          assert r !in Remaining(tables(n), maxId, cursor);
        }
        if forall i: nat :: i <= queries ==> tables(0) <= tables(i) {
          OnlySorted(tables(0), Rows(batches));
        }
        return;
      }
      BatchExported(tables, maxId, cursor, Rows(batches), n, batch);
      Shrinks(tables, maxId, cursor, n, batch[|batch| - 1]);
      RowsOneMore(batches, batch);
      batches := batches + [batch];
      cursor := CursorAt(batch[|batch| - 1]);
      n := n + 1;
    }
  }
}
