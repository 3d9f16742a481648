/** order-service/internal/outbox/store.go: the outbox_events table. */
module Outbox {
  import opened Common

  /** The payload of an event on orders.created. */
  datatype OrderCreated = OrderCreated(orderId: string, sku: string, quantity: int)

  datatype Row = Row(id: int, event: OrderCreated, publishedAt: Option<int>)

  ghost predicate DistinctIds(rows: seq<Row>) {
    forall i, j :: 0 <= i < j < |rows| ==> rows[i].id != rows[j].id
  }

  function Ids(rows: seq<Row>): (ids: seq<int>)
    ensures |ids| == |rows|
  {
    seq(|rows|, i requires 0 <= i < |rows| => rows[i].id)
  }

  ghost predicate Ascending(rows: seq<Row>) {
    forall i, j :: 0 <= i < j < |rows| ==> rows[i].id < rows[j].id
  }

  // ---------------------------------------------------------------- FetchUnpublished

  /** WHERE published_at IS NULL */
  function Unpublished(rows: seq<Row>): (r: seq<Row>)
    ensures forall row :: row in r <==> row in rows && row.publishedAt.None?
  {
    if rows == [] then []
    else
      var (rest, last) := (Unpublished(rows[..|rows| - 1]), rows[|rows| - 1]);
      assert forall row :: row in rows <==> row in rows[..|rows| - 1] || row == last;
      if last.publishedAt.None? then rest + [last] else rest
  }

  function InsertById(row: Row, sorted: seq<Row>): (r: seq<Row>)
    ensures forall x :: x in r <==> x == row || x in sorted
    ensures Ascending(sorted) && (forall x <- sorted :: x.id != row.id) ==> Ascending(r)
  {
    if sorted == [] then [row]
    else if row.id < sorted[0].id then [row] + sorted
    else
      var (first, rest) := (sorted[0], InsertById(row, sorted[1..]));
      assert forall x :: x in sorted <==> x == first || x in sorted[1..];
      assert Ascending(sorted) ==> Ascending(sorted[1..]) && forall x <- sorted[1..] :: first.id < x.id;
      assert forall i :: 0 <= i < |rest| ==> rest[i] == row || rest[i] in sorted[1..];
      [first] + rest
  }

  /** ORDER BY id */
  function SortById(rows: seq<Row>): (r: seq<Row>)
    ensures forall x :: x in r <==> x in rows
    ensures DistinctIds(rows) ==> Ascending(r)
  {
    if rows == [] then []
    else
      var (rest, last) := (rows[..|rows| - 1], rows[|rows| - 1]);
      assert forall row :: row in rows <==> row in rest || row == last;
      InsertById(last, SortById(rest))
  }

  /** SELECT ... WHERE published_at IS NULL ORDER BY id LIMIT limit */
  function Fetch(rows: seq<Row>, limit: nat): seq<Row> {
    var sorted := SortById(Unpublished(rows));
    if |sorted| <= limit then sorted else sorted[..limit]
  }

  lemma {:induction false} UnpublishedKeepsDistinct(rows: seq<Row>)
    requires DistinctIds(rows)
    ensures DistinctIds(Unpublished(rows))
  {
    if rows != [] {
      var rest, last := rows[..|rows| - 1], rows[|rows| - 1];
      UnpublishedKeepsDistinct(rest);
      assert forall row <- rest :: row.id != last.id;
    }
  }

  /** The batch is made of unpublished rows in strictly increasing id order; what it leaves out
      is younger than all of it, and is left out only because the batch is full. */
  ghost predicate OldestFirst(rows: seq<Row>, limit: nat, batch: seq<Row>) {
    && |batch| <= limit && Ascending(batch)
    && (forall row <- batch :: row in rows && row.publishedAt.None?)
    && (forall row <- rows :: row.publishedAt.None? && row !in batch ==>
          |batch| == limit && forall x <- batch :: x.id < row.id)
  }

  lemma FetchIsOldestFirst(rows: seq<Row>, limit: nat)
    requires DistinctIds(rows)
    ensures OldestFirst(rows, limit, Fetch(rows, limit))
  {
    UnpublishedKeepsDistinct(rows);
    var sorted, batch := SortById(Unpublished(rows)), Fetch(rows, limit);
    forall row <- rows | row.publishedAt.None? && row !in batch
      ensures |batch| == limit && forall x <- batch :: x.id < row.id
    {
      PrefixIsOlder(sorted, batch, row);
    }
  }

  lemma PrefixIsOlder(sorted: seq<Row>, batch: seq<Row>, row: Row)
    requires Ascending(sorted) && batch <= sorted && row in sorted && row !in batch
    ensures forall x <- batch :: x.id < row.id
  {
    var k :| 0 <= k < |sorted| && sorted[k] == row;
    assert forall i :: 0 <= i < |batch| ==> sorted[i] == batch[i] && batch[i] in batch;
    assert k >= |batch|;
  }

  // ---------------------------------------------------------------- MarkPublished

  /** UPDATE outbox_events SET published_at = now() WHERE id = id */
  function MarkRow(rows: seq<Row>, id: int, now: int): (r: seq<Row>)
    ensures |r| == |rows| && Ids(r) == Ids(rows)
  {
    seq(|rows|, i requires 0 <= i < |rows| =>
      if rows[i].id == id then rows[i].(publishedAt := Some(now)) else rows[i])
  }

  class OutboxStore {
    var rows: seq<Row>

    constructor (rows: seq<Row>)
      ensures this.rows == rows
    {
      this.rows := rows;
    }

    method FetchUnpublished(limit: nat, fails: bool) returns (events: Option<seq<Row>>)
      ensures events == if fails then None else Some(Fetch(rows, limit))
      ensures events.Some? && DistinctIds(rows) ==> OldestFirst(rows, limit, events.value)
    {
      if fails {
        return None;
      }
      if DistinctIds(rows) {
        FetchIsOldestFirst(rows, limit);
      }
      events := Some(Fetch(rows, limit));
    }

    method MarkPublished(id: int, now: int, fault: Fault) returns (ok: bool)
      modifies this
      ensures ok == fault.NoFault?
      ensures rows == if fault.NotRun? then old(rows) else MarkRow(old(rows), id, now)
      ensures |rows| == |old(rows)|
      ensures forall i :: 0 <= i < |rows| && old(rows)[i].id != id ==> rows[i] == old(rows)[i]
      ensures !fault.NotRun? ==>
        forall i :: 0 <= i < |rows| && old(rows)[i].id == id ==> rows[i] == old(rows)[i].(publishedAt := Some(now))
    {
      ok := fault.NoFault?;
      if !fault.NotRun? {
        rows := MarkRow(rows, id, now);
      }
    }

    /** Rows committed by order transactions. */
    method Arrive(arrivals: seq<Row>)
      modifies this
      ensures rows == old(rows) + arrivals
    {
      rows := rows + arrivals;
    }
  }
}
