/** Every order, counted once or weighted by its quantity, is accounted for at every step:
    not yet in the stream, in the stream, recorded, stored again or recorded again. */
module EventAccounting {
  import opened Common
  import opened MessageId
  import opened Outbox
  import opened Broker
  import opened Orders
  import opened Analytics
  import opened Protocol
  import opened EventSafety

  /** An event counts for one, or for its quantity. */
  ghost function Weight(byQuantity: bool): OrderCreated -> int {
    (e: OrderCreated) => if byQuantity then e.quantity else 1
  }

  ghost function OrderWeight(byQuantity: bool): Order -> int {
    (o: Order) => Weight(byQuantity)(EventFor(o))
  }

  ghost function MsgWeight(byQuantity: bool): Msg -> int {
    (m: Msg) => Weight(byQuantity)(m.event)
  }

  /** The weight of a row that has no copy in the stream. */
  ghost function MissingWeight(msgs: seq<Msg>, byQuantity: bool): Row -> int {
    (row: Row) => if Stored(msgs, MsgId(row.id)) then 0 else Weight(byQuantity)(row.event)
  }

  /** The weight of the messages that repeat an id stored before. */
  ghost function Extra(msgs: seq<Msg>, byQuantity: bool): int {
    if msgs == [] then 0
    else
      var (rest, last) := (msgs[..|msgs| - 1], msgs[|msgs| - 1]);
      Extra(rest, byQuantity) + if Stored(rest, last.id) then MsgWeight(byQuantity)(last) else 0
  }

  /** How a number of recorded deliveries splits: none yet, all of them, all after the first. */
  function NotYet(handled: nat): int {
    if handled == 0 then 1 else 0
  }

  function AllTimes(handled: nat): int {
    handled
  }

  function Again(handled: nat): int {
    if handled == 0 then 0 else handled - 1
  }

  ghost function Deliveries(msgs: seq<Msg>, handled: seq<nat>, times: nat -> int, byQuantity: bool): int
    requires |handled| == |msgs|
  {
    if msgs == [] then 0
    else
      var n := |msgs| - 1;
      Deliveries(msgs[..n], handled[..n], times, byQuantity) + times(handled[n]) * MsgWeight(byQuantity)(msgs[n])
  }

  lemma {:induction false} DeliveriesSplit(msgs: seq<Msg>, handled: seq<nat>, byQuantity: bool)
    requires |handled| == |msgs|
    ensures SumBy(msgs, MsgWeight(byQuantity))
         == Deliveries(msgs, handled, NotYet, byQuantity) + Deliveries(msgs, handled, AllTimes, byQuantity)
          - Deliveries(msgs, handled, Again, byQuantity)
  {
    if msgs != [] {
      var n := |msgs| - 1;
      DeliveriesSplit(msgs[..n], handled[..n], byQuantity);
      var (h, w) := (handled[n], MsgWeight(byQuantity)(msgs[n]));
      assert NotYet(h) * w + AllTimes(h) * w - Again(h) * w == (NotYet(h) + AllTimes(h) - Again(h)) * w == w;
    }
  }

  lemma {:induction false} DeliveriesUpdate(msgs: seq<Msg>, handled: seq<nat>, i: nat, byQuantity: bool)
    requires |handled| == |msgs| && i < |msgs|
    ensures Deliveries(msgs, handled[i := handled[i] + 1], AllTimes, byQuantity)
         == Deliveries(msgs, handled, AllTimes, byQuantity) + MsgWeight(byQuantity)(msgs[i])
  {
    var n, next := |msgs| - 1, handled[i := handled[i] + 1];
    var w := MsgWeight(byQuantity)(msgs[n]);
    if i == n {
      assert next[..n] == handled[..n];
      assert (handled[n] + 1) * w == handled[n] * w + w;
    } else {
      assert next[..n] == handled[..n][i := handled[..n][i] + 1];
      DeliveriesUpdate(msgs[..n], handled[..n], i, byQuantity);
    }
  }

  /** A message just stored has not been delivered. */
  lemma DeliveriesAppend(msgs: seq<Msg>, handled: seq<nat>, m: Msg, byQuantity: bool)
    requires |handled| == |msgs|
    ensures Deliveries(msgs + [m], handled + [0], AllTimes, byQuantity)
         == Deliveries(msgs, handled, AllTimes, byQuantity)
  {
    assert (msgs + [m])[..|msgs|] == msgs && (handled + [0])[..|msgs|] == handled;
    assert 0 * MsgWeight(byQuantity)(m) == 0;
  }

  // ---------------------------------------------------------------- the invariant

  /** Orders on one side; rows not in the stream and stored messages, less repeats, on the other. */
  ghost predicate Flow(b: Back, byQuantity: bool) {
    SumBy(b.tables.orders, OrderWeight(byQuantity)) + Extra(b.stream.msgs, byQuantity)
      == SumBy(b.tables.outbox, MissingWeight(b.stream.msgs, byQuantity)) + SumBy(b.stream.msgs, MsgWeight(byQuantity))
  }

  ghost predicate Logged(b: Back, byQuantity: bool)
    requires |b.handled| == |b.stream.msgs|
  {
    SumBy(b.recorded, Weight(byQuantity)) == Deliveries(b.stream.msgs, b.handled, AllTimes, byQuantity)
  }

  /** The totals are those of what was recorded since the last start, in int64. */
  ghost predicate StatsOk(b: Back)
    requires b.base <= |b.recorded|
  {
    b.stats == Snapshot(Int64(|b.recorded| - b.base), Int64(SumBy(b.recorded[b.base..], Weight(true))))
  }

  ghost predicate AccountsOk(b: Back)
    requires ConsumerOk(b)
  {
    (forall q :: Flow(b, q) && Logged(b, q)) && StatsOk(b)
  }

  // ---------------------------------------------------------------- steps that move weight

  /** A new row is missing from the stream: its id is unused and ids name rows uniquely. */
  lemma PersistKeepsFlow(env: Env, b: Back, o: Order, rowId: int, fate: TxFate, q: bool)
    requires BackOk(env, b) && Flow(b, q)
    ensures Flow(b.(tables := Persist(b.tables, o, rowId, fate).0), q)
  {
    var t' := Persist(b.tables, o, rowId, fate).0;
    if t' != b.tables {
      var row := Row(rowId, EventFor(o), None);
      SumAppend(b.tables.orders, o, OrderWeight(q));
      SumAppend(b.tables.outbox, row, MissingWeight(b.stream.msgs, q));
      MsgIdInjective();
      assert !Stored(b.stream.msgs, MsgId(rowId)) by {
        forall m <- b.stream.msgs
          ensures m.id != MsgId(rowId)
        {
          assert FromOutbox(b.tables, m.id, m.event);
        }
      }
    }
  }

  lemma {:induction false} MissingUnchanged(rows: seq<Row>, f: Row -> int, g: Row -> int)
    requires forall row <- rows :: f(row) == g(row)
    ensures SumBy(rows, f) == SumBy(rows, g)
  {
    SumLe(rows, f, g);
    SumLe(rows, g, f);
  }

  lemma StoredAfter(msgs: seq<Msg>, m: Msg)
    ensures forall id :: Stored(msgs + [m], id) <==> Stored(msgs, id) || id == m.id
  {
    assert (msgs + [m])[|msgs|] == m;
    assert forall x :: x in msgs + [m] <==> x in msgs || x == m;
  }

  /** A copy of one row says nothing about another. */
  lemma MissingElsewhere(id: int, other: Row, msgs: seq<Msg>, m: Msg, q: bool)
    requires m.id == MsgId(id) && other.id != id
    ensures MissingWeight(msgs + [m], q)(other) == MissingWeight(msgs, q)(other)
  {
    MsgIdInjective();
    StoredAfter(msgs, m);
  }

  lemma MissingAmongOthers(id: int, others: seq<Row>, msgs: seq<Msg>, m: Msg, q: bool)
    requires m.id == MsgId(id) && forall row <- others :: row.id != id
    ensures SumBy(others, MissingWeight(msgs + [m], q)) == SumBy(others, MissingWeight(msgs, q))
  {
    forall row <- others
      ensures MissingWeight(msgs + [m], q)(row) == MissingWeight(msgs, q)(row)
    {
      MissingElsewhere(id, row, msgs, m, q);
    }
    MissingUnchanged(others, MissingWeight(msgs + [m], q), MissingWeight(msgs, q));
  }

  /** Storing a copy of row k takes exactly that row off the missing ones, if it was the first. */
  lemma CopyLeavesMissing(rows: seq<Row>, k: nat, msgs: seq<Msg>, m: Msg, q: bool)
    requires DistinctIds(rows) && k < |rows| && m.id == MsgId(rows[k].id)
    ensures SumBy(rows, MissingWeight(msgs + [m], q))
         == SumBy(rows, MissingWeight(msgs, q)) - (if Stored(msgs, m.id) then 0 else Weight(q)(rows[k].event))
  {
    var f, f' := MissingWeight(msgs, q), MissingWeight(msgs + [m], q);
    StoredAfter(msgs, m);
    SumAround(rows, k, f);
    SumAround(rows, k, f');
    MissingAmongOthers(rows[k].id, rows[..k], msgs, m, q);
    MissingAmongOthers(rows[k].id, rows[k + 1..], msgs, m, q);
  }

  lemma SumAround(rows: seq<Row>, k: nat, f: Row -> int)
    requires k < |rows|
    ensures SumBy(rows, f) == SumBy(rows[..k], f) + f(rows[k]) + SumBy(rows[k + 1..], f)
  {
    assert rows == (rows[..k] + [rows[k]]) + rows[k + 1..];
    SumConcat(rows[..k] + [rows[k]], rows[k + 1..], f);
    SumAppend(rows[..k], rows[k], f);
  }

  lemma ExtraAppend(msgs: seq<Msg>, m: Msg, q: bool)
    ensures Extra(msgs + [m], q) == Extra(msgs, q) + (if Stored(msgs, m.id) then MsgWeight(q)(m) else 0)
  {
    assert (msgs + [m])[..|msgs|] == msgs;
  }

  lemma StoreKeepsFlow(env: Env, b: Back, b': Back, id: string, event: OrderCreated, q: bool)
    requires BackOk(env, b) && Flow(b, q) && FromOutbox(b.tables, id, event)
    requires b'.tables == b.tables
    requires b'.stream.msgs == b.stream.msgs + [Msg(id, event, b.now)]
    ensures Flow(b', q)
  {
    var m, rows := Msg(id, event, b.now), b.tables.outbox;
    var row :| row in rows && MsgId(row.id) == id && row.event == event;
    var k :| 0 <= k < |rows| && rows[k] == row;
    SumAppend(b.stream.msgs, m, MsgWeight(q));
    ExtraAppend(b.stream.msgs, m, q);
    CopyLeavesMissing(rows, k, b.stream.msgs, m, q);
  }

  lemma {:induction false} MarkKeepsMissing(rows: seq<Row>, id: int, now: int, f: Row -> int)
    requires forall row: Row :: f(row.(publishedAt := Some(now))) == f(row)
    ensures SumBy(MarkRow(rows, id, now), f) == SumBy(rows, f)
  {
    if rows != [] {
      var n := |rows| - 1;
      assert MarkRow(rows, id, now)[..n] == MarkRow(rows[..n], id, now);
      MarkKeepsMissing(rows[..n], id, now, f);
    }
  }

  lemma MarkKeepsFlow(b: Back, b': Back, id: int, q: bool)
    requires Flow(b, q) && b'.stream == b.stream
    requires b'.tables == b.tables.(outbox := MarkRow(b.tables.outbox, id, b.now))
    ensures Flow(b', q)
  {
    MarkKeepsMissing(b.tables.outbox, id, b.now, MissingWeight(b.stream.msgs, q));
  }

  // ---------------------------------------------------------------- all steps

  /** What a step adds to the stream is one message, of a row of the outbox. */
  lemma NewMessage(env: Env, b: Back, a: BackAction) returns (m: Msg)
    requires BackOk(env, b) && (a.PublishHead? || a.LandLate?) && BackNext(env, b, a).stream.msgs != b.stream.msgs
    ensures BackNext(env, b, a).stream.msgs == b.stream.msgs + [m] && m.storedAt == b.now
    ensures FromOutbox(b.tables, m.id, m.event)
  {
    if a.PublishHead? {
      m := PublishedMessage(env, b, a);
    } else {
      assert b.stream.inFlight[a.sent] in b.stream.inFlight;
      m := Msg(b.stream.inFlight[a.sent].id, b.stream.inFlight[a.sent].event, b.now);
    }
  }

  lemma PublishedMessage(env: Env, b: Back, a: BackAction) returns (m: Msg)
    requires BackOk(env, b) && a.PublishHead? && BackNext(env, b, a).stream.msgs != b.stream.msgs
    ensures BackNext(env, b, a).stream.msgs == b.stream.msgs + [m] && m.storedAt == b.now
    ensures FromOutbox(b.tables, m.id, m.event)
  {
    var batch := b.relays[a.relay].batch;
    assert RelayOk(b, b.relays[a.relay]) && batch[0] in batch;
    m := Msg(MsgId(batch[0].id), batch[0].event, b.now);
  }

  /** Steps that leave orders and stream alone, and mark at most one row. */
  lemma OtherKeepsFlow(env: Env, b: Back, a: BackAction, q: bool)
    requires Flow(b, q) && BackNext(env, b, a).stream.msgs == b.stream.msgs
    ensures Flow(BackNext(env, b, a), q)
  {
    var b' := BackNext(env, b, a);
    if b'.tables != b.tables {
      MarkKeepsFlow(b, b', b.relays[a.relay].batch[0].id, q);
    }
  }

  lemma BackKeepsFlow(env: Env, b: Back, a: BackAction, q: bool)
    requires BackOk(env, b) && Flow(b, q)
    ensures Flow(BackNext(env, b, a), q)
  {
    var b' := BackNext(env, b, a);
    if b'.stream.msgs == b.stream.msgs {
      OtherKeepsFlow(env, b, a, q);
    } else {
      var m := NewMessage(env, b, a);
      StoreKeepsFlow(env, b, b', m.id, m.event, q);
    }
  }

  /** The stream grows with its delivery counts, and only by messages not delivered yet. */
  ghost predicate GrowsWith(b: Back, b': Back) {
    && b'.recorded == b.recorded
    && ((b'.stream.msgs == b.stream.msgs && b'.handled == b.handled)
        || (exists m :: b'.stream.msgs == b.stream.msgs + [m] && b'.handled == b.handled + [0]))
  }

  lemma PublishGrows(env: Env, b: Back, a: BackAction)
    requires !a.Handle?
    ensures GrowsWith(b, BackNext(env, b, a))
  {
    var b' := BackNext(env, b, a);
    if |b'.stream.msgs| > |b.stream.msgs| {
      assert b'.stream.msgs == b.stream.msgs + [b'.stream.msgs[|b.stream.msgs|]];
    }
  }

  lemma GrowingKeepsLog(b: Back, b': Back, q: bool)
    requires |b.handled| == |b.stream.msgs| && Logged(b, q) && GrowsWith(b, b')
    ensures |b'.handled| == |b'.stream.msgs| && Logged(b', q)
  {
    if m :| b'.stream.msgs == b.stream.msgs + [m] && b'.handled == b.handled + [0] {
      DeliveriesAppend(b.stream.msgs, b.handled, m, q);
    }
  }

  lemma HandleKeepsLog(env: Env, b: Back, a: BackAction, q: bool)
    requires |b.handled| == |b.stream.msgs| && Logged(b, q) && a.Handle?
    ensures var b' := BackNext(env, b, a);
      |b'.handled| == |b'.stream.msgs| && Logged(b', q)
  {
    if BackNext(env, b, a) != b {
      DeliveriesUpdate(b.stream.msgs, b.handled, a.message, q);
      SumAppend(b.recorded, b.stream.msgs[a.message].event, Weight(q));
    }
  }

  lemma BackKeepsLog(env: Env, b: Back, a: BackAction, q: bool)
    requires |b.handled| == |b.stream.msgs| && Logged(b, q)
    ensures var b' := BackNext(env, b, a);
      |b'.handled| == |b'.stream.msgs| && Logged(b', q)
  {
    if a.Handle? {
      HandleKeepsLog(env, b, a, q);
    } else {
      PublishGrows(env, b, a);
      GrowingKeepsLog(b, BackNext(env, b, a), q);
    }
  }

  lemma StatsAppend(since: seq<OrderCreated>, e: OrderCreated)
    ensures Recorded(Snapshot(Int64(|since|), Int64(SumBy(since, Weight(true)))), e.quantity)
         == Snapshot(Int64(|since + [e]|), Int64(SumBy(since + [e], Weight(true))))
  {
    SumAppend(since, e, Weight(true));
    Int64Add(|since|, 1);
    Int64Add(SumBy(since, Weight(true)), e.quantity);
  }

  lemma HandleRecords(env: Env, b: Back, a: BackAction)
    requires b.base <= |b.recorded| && a.Handle? && BackNext(env, b, a) != b
    ensures var (b', event) := (BackNext(env, b, a), b.stream.msgs[a.message].event);
      && b'.stats == Recorded(b.stats, event.quantity) && b'.base == b.base <= |b'.recorded|
      && b'.recorded[b'.base..] == b.recorded[b.base..] + [event]
  {
  }

  lemma HandleKeepsStats(env: Env, b: Back, a: BackAction)
    requires b.base <= |b.recorded| && StatsOk(b) && a.Handle? && BackNext(env, b, a) != b
    ensures var b' := BackNext(env, b, a);
      b'.base <= |b'.recorded| && StatsOk(b')
  {
    HandleRecords(env, b, a);
    StatsAppend(b.recorded[b.base..], b.stream.msgs[a.message].event);
  }

  lemma OtherKeepsStats(env: Env, b: Back, a: BackAction)
    requires !a.Handle? && !a.RestartConsumer?
    ensures var b' := BackNext(env, b, a);
      b'.stats == b.stats && b'.recorded == b.recorded && b'.base == b.base
  {
  }

  lemma RestartKeepsStats(env: Env, b: Back)
    ensures var b' := BackNext(env, b, RestartConsumer);
      b'.base <= |b'.recorded| && StatsOk(b')
  {
    assert b.recorded[|b.recorded|..] == [];
  }

  lemma BackKeepsStats(env: Env, b: Back, a: BackAction)
    requires ConsumerOk(b) && StatsOk(b)
    ensures BackNext(env, b, a).base <= |BackNext(env, b, a).recorded| && StatsOk(BackNext(env, b, a))
  {
    var b' := BackNext(env, b, a);
    if a.Handle? {
      if b' != b {
        HandleKeepsStats(env, b, a);
      }
    } else if a.RestartConsumer? {
      RestartKeepsStats(env, b);
    } else {
      OtherKeepsStats(env, b, a);
    }
  }
}
