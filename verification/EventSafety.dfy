/** Events: what every interleaving of order transactions, relays, broker and consumer keeps. */
module EventSafety {
  import opened Common
  import opened MessageId
  import opened Outbox
  import opened Broker
  import opened Orders
  import opened Analytics
  import opened Protocol

  // ---------------------------------------------------------------- the invariant

  /** The outbox holds this row, marked or not. */
  ghost predicate Known(t: Tables, id: int, event: OrderCreated) {
    exists row :: row in t.outbox && row.id == id && row.event == event
  }

  /** A message is some outbox row's own event under its own id. */
  ghost predicate FromOutbox(t: Tables, id: string, event: OrderCreated) {
    exists row :: row in t.outbox && MsgId(row.id) == id && row.event == event
  }

  ghost predicate StreamOk(b: Back) {
    && (forall m <- b.stream.msgs :: FromOutbox(b.tables, m.id, m.event) && m.storedAt <= b.now)
    && (forall sent <- b.stream.inFlight :: FromOutbox(b.tables, sent.id, sent.event))
  }

  ghost predicate StoredThen(msgs: seq<Msg>, id: string, t: int) {
    exists m :: m in msgs && m.id == id && m.storedAt == t
  }

  /** Remembered ids are stored, and an id stored less than a window ago is remembered. */
  ghost predicate DedupOk(env: Env, b: Back) {
    && (forall id <- b.stream.dedup :: StoredThen(b.stream.msgs, id, b.stream.dedup[id]) && b.stream.dedup[id] <= b.now)
    && (forall m <- b.stream.msgs ::
          if m.id in b.stream.dedup then m.storedAt <= b.stream.dedup[m.id] else m.storedAt + env.window <= b.now)
  }

  /** Copies of one message are at least a window apart. */
  ghost predicate Spaced(env: Env, msgs: seq<Msg>) {
    forall i, j :: 0 <= i < j < |msgs| && msgs[i].id == msgs[j].id ==>
      msgs[i].storedAt + env.window <= msgs[j].storedAt
  }

  ghost predicate MarkedOk(b: Back) {
    forall row <- b.tables.outbox :: row.publishedAt.Some? ==> Stored(b.stream.msgs, MsgId(row.id))
  }

  ghost predicate RelayOk(b: Back, phase: RelayPhase) {
    && (forall row <- phase.batch :: Known(b.tables, row.id, row.event))
    && (phase.Marking? && phase.batch != [] ==> Stored(b.stream.msgs, MsgId(phase.batch[0].id)))
  }

  ghost predicate Attempted(attempts: seq<Attempt>, id: string, at: int) {
    exists a :: a in attempts && MsgId(a.rowId) == id && a.at == at
  }

  ghost predicate ArrivedAt(arrivals: seq<Arrival>, id: string, at: int) {
    exists a :: a in arrivals && a.id == id && a.at == at
  }

  /** Every store was an arrival at that time, and what arrived or may still arrive was attempted. */
  ghost predicate AttemptsOk(b: Back) {
    && (forall m <- b.stream.msgs :: ArrivedAt(b.arrivals, m.id, m.storedAt))
    && (forall a <- b.arrivals :: a.sentAt <= a.at <= b.now && Attempted(b.attempts, a.id, a.sentAt))
    && (forall sent <- b.stream.inFlight :: sent.at <= b.now && Attempted(b.attempts, sent.id, sent.at))
  }

  ghost predicate ConsumerOk(b: Back) {
    && |b.handled| == |b.stream.msgs|
    && b.base <= |b.recorded|
    && (forall e <- b.recorded :: exists m :: m in b.stream.msgs && m.event == e)
    && (forall i <- b.acked :: i < |b.handled| && b.handled[i] > 0)
  }

  ghost predicate BackOk(env: Env, b: Back) {
    && TablesOk(b.tables)
    && StreamOk(b) && DedupOk(env, b) && Spaced(env, b.stream.msgs)
    && MarkedOk(b)
    && (forall relay <- b.relays :: RelayOk(b, b.relays[relay]))
    && AttemptsOk(b)
    && ConsumerOk(b)
  }

  // ---------------------------------------------------------------- order transactions

  /** More rows in the outbox: whatever was known or stored from it still is. */
  lemma KnownStays(t: Tables, t': Tables)
    requires t.outbox <= t'.outbox
    ensures forall id, event :: FromOutbox(t, id, event) ==> FromOutbox(t', id, event)
    ensures forall id, event :: Known(t, id, event) ==> Known(t', id, event)
  {
    assert forall row <- t.outbox :: row in t'.outbox;
  }

  lemma PersistKeepsMarked(b: Back, b': Back, row: Row)
    requires MarkedOk(b) && row.publishedAt.None?
    requires b'.tables.outbox == b.tables.outbox + [row] && b'.stream == b.stream
    ensures MarkedOk(b')
  {
    assert forall x <- b'.tables.outbox :: x in b.tables.outbox || x == row;
  }

  lemma PersistKeepsRelays(b: Back, b': Back)
    requires b'.relays == b.relays && b'.stream == b.stream
    requires forall id, event :: Known(b.tables, id, event) ==> Known(b'.tables, id, event)
    requires forall relay <- b.relays :: RelayOk(b, b.relays[relay])
    ensures forall relay <- b'.relays :: RelayOk(b', b'.relays[relay])
  {
    forall relay <- b'.relays
      ensures RelayOk(b', b'.relays[relay])
    {
      assert RelayOk(b, b.relays[relay]);
    }
  }

  lemma PersistKeepsBackOk(env: Env, b: Back, o: Order, rowId: int, fate: TxFate)
    requires BackOk(env, b)
    ensures BackOk(env, b.(tables := Persist(b.tables, o, rowId, fate).0))
  {
    PersistIsAtomic(b.tables, o, rowId, fate);
    var t' := Persist(b.tables, o, rowId, fate).0;
    if t' != b.tables {
      var b' := b.(tables := t');
      KnownStays(b.tables, t');
      PersistKeepsMarked(b, b', Row(rowId, EventFor(o), None));
      PersistKeepsRelays(b, b');
      assert StreamOk(b');
    }
  }

  // ---------------------------------------------------------------- relays and broker

  /** Nothing stored is ever lost. */
  lemma StoredStays(s: Stream, s': Stream)
    requires s.msgs <= s'.msgs
    ensures forall id :: Stored(s.msgs, id) ==> Stored(s'.msgs, id)
  {
    forall id | Stored(s.msgs, id)
      ensures Stored(s'.msgs, id)
    {
      var m :| m in s.msgs && m.id == id;
      assert m in s'.msgs;
    }
  }

  lemma FetchKeepsBackOk(env: Env, b: Back, a: BackAction)
    requires BackOk(env, b) && a.FetchBatch?
    ensures BackOk(env, BackNext(env, b, a))
  {
    var b' := BackNext(env, b, a);
    FetchIsOldestFirst(b.tables.outbox, 20);
    var batch := Fetch(b.tables.outbox, 20);
    assert forall row <- batch :: row in b.tables.outbox && Known(b.tables, row.id, row.event);
    forall relay <- b'.relays
      ensures RelayOk(b', b'.relays[relay])
    {
      assert b'.relays[relay] == Publishing(batch) || (relay in b.relays && b'.relays[relay] == b.relays[relay]);
    }
  }

  /** A message with a forgotten or new id is stored: old copies are a window away. */
  lemma StoreKeepsDedup(env: Env, b: Back, b': Back, m: Msg)
    requires DedupOk(env, b) && m.id !in b.stream.dedup && m.storedAt == b.now == b'.now
    requires b'.stream.msgs == b.stream.msgs + [m] && b'.stream.dedup == b.stream.dedup[m.id := b.now]
    ensures DedupOk(env, b')
  {
    assert b'.stream.msgs[|b.stream.msgs|] == m;
    assert forall x <- b'.stream.msgs :: x in b.stream.msgs || x == m;
    assert forall x <- b.stream.msgs :: x in b'.stream.msgs;
    assert forall id, t :: StoredThen(b.stream.msgs, id, t) ==> StoredThen(b'.stream.msgs, id, t);
    assert forall id <- b'.stream.dedup :: id in b.stream.dedup || id == m.id;
  }

  lemma StoreKeepsSpacing(env: Env, b: Back, m: Msg)
    requires DedupOk(env, b) && Spaced(env, b.stream.msgs)
    requires m.id !in b.stream.dedup && m.storedAt == b.now
    ensures Spaced(env, b.stream.msgs + [m])
  {
    var msgs := b.stream.msgs;
    forall i | 0 <= i < |msgs| && msgs[i].id == m.id
      ensures msgs[i].storedAt + env.window <= m.storedAt
    {
      assert msgs[i] in msgs;
    }
  }

  /** The broker receives a publish of a known row, in time or late. */
  lemma ReceiveKeepsStream(env: Env, b: Back, b': Back, id: string, event: OrderCreated)
    requires StreamOk(b) && DedupOk(env, b) && Spaced(env, b.stream.msgs) && FromOutbox(b.tables, id, event)
    requires forall x <- b'.stream.inFlight :: x in b.stream.inFlight
    requires b'.stream == Broker.Receive(b.stream.(inFlight := b'.stream.inFlight), id, event, b.now)
    requires b'.tables == b.tables && b'.now == b.now
    ensures b.stream.msgs <= b'.stream.msgs
    ensures Stored(b'.stream.msgs, id)
    ensures StreamOk(b') && DedupOk(env, b') && Spaced(env, b'.stream.msgs)
  {
    var m := Msg(id, event, b.now);
    if id !in b.stream.dedup {
      StoreKeepsDedup(env, b, b', m);
      StoreKeepsSpacing(env, b, m);
      assert b'.stream.msgs[|b.stream.msgs|] == m;
      assert forall x <- b'.stream.msgs :: x in b.stream.msgs || x == m;
    } else {
      var copy :| copy in b.stream.msgs && copy.id == id && copy.storedAt == b.stream.dedup[id];
    }
  }

  /** One more attempt, and at most one more publish under way. */
  lemma AttemptIsLogged(b: Back, b': Back, rowId: int, event: OrderCreated)
    requires AttemptsOk(b)
    requires b'.attempts == b.attempts + [Protocol.Attempt(rowId, b.now)] && b'.now == b.now
    requires b'.stream.msgs == b.stream.msgs && b'.arrivals == b.arrivals
    requires b'.stream.inFlight == b.stream.inFlight
          || b'.stream.inFlight == b.stream.inFlight + [Sent(MsgId(rowId), event, b.now)]
    ensures AttemptsOk(b')
    ensures Attempted(b'.attempts, MsgId(rowId), b.now)
  {
    assert b'.attempts[|b.attempts|] == Protocol.Attempt(rowId, b.now);
    assert forall x <- b.attempts :: x in b'.attempts;
    assert forall id, at :: Attempted(b.attempts, id, at) ==> Attempted(b'.attempts, id, at);
  }

  /** An arrival that was attempted, and the message it may store. */
  lemma ArrivalIsLogged(b: Back, b': Back, id: string, event: OrderCreated, sentAt: int)
    requires AttemptsOk(b) && Attempted(b.attempts, id, sentAt) && sentAt <= b.now
    requires b'.attempts == b.attempts && b'.now == b.now
    requires b'.arrivals == b.arrivals + [Arrival(id, sentAt, b.now)]
    requires b'.stream.msgs == b.stream.msgs || b'.stream.msgs == b.stream.msgs + [Msg(id, event, b.now)]
    requires forall x <- b'.stream.inFlight :: x in b.stream.inFlight
    ensures AttemptsOk(b')
  {
    assert b'.arrivals[|b.arrivals|] == Arrival(id, sentAt, b.now);
    assert forall x <- b.arrivals :: x in b'.arrivals;
    assert forall x, at :: ArrivedAt(b.arrivals, x, at) ==> ArrivedAt(b'.arrivals, x, at);
  }

  lemma RelaysSeeMore(env: Env, b: Back, b': Back, relay: nat, next: RelayPhase)
    requires BackOk(env, b) && b'.tables == b.tables && b.stream.msgs <= b'.stream.msgs
    requires b'.relays == b.relays[relay := next] && RelayOk(b', next)
    ensures forall k <- b'.relays :: RelayOk(b', b'.relays[k])
    ensures MarkedOk(b')
  {
    StoredStays(b.stream, b'.stream);
    forall k <- b'.relays
      ensures RelayOk(b', b'.relays[k])
    {
      assert k != relay ==> RelayOk(b, b.relays[k]);
    }
  }

  /** What a publish of the head row does to the stream and its bookkeeping. */
  lemma PublishIsLogged(env: Env, b: Back, b': Back, row: Row, fate: Fate)
    requires BackOk(env, b) && Known(b.tables, row.id, row.event)
    requires b'.stream == PublishTo(b.stream, MsgId(row.id), row.event, b.now, fate)
    requires b'.attempts == b.attempts + [Protocol.Attempt(row.id, b.now)]
    requires b'.arrivals == if Reached(fate) then b.arrivals + [Arrival(MsgId(row.id), b.now, b.now)] else b.arrivals
    requires b'.tables == b.tables && b'.now == b.now
    ensures StreamOk(b') && DedupOk(env, b') && Spaced(env, b'.stream.msgs) && AttemptsOk(b')
    ensures b.stream.msgs <= b'.stream.msgs && (fate.Acked? ==> Stored(b'.stream.msgs, MsgId(row.id)))
  {
    assert FromOutbox(b.tables, MsgId(row.id), row.event);
    if Reached(fate) {
      var tried := b.(attempts := b'.attempts);
      AttemptIsLogged(b, tried, row.id, row.event);
      ReceiveKeepsStream(env, b, b', MsgId(row.id), row.event);
      ArrivalIsLogged(tried, b', MsgId(row.id), row.event, b.now);
    } else {
      AttemptIsLogged(b, b', row.id, row.event);
    }
  }

  lemma PublishKeepsBackOk(env: Env, b: Back, a: BackAction)
    requires BackOk(env, b) && a.PublishHead?
    ensures BackOk(env, BackNext(env, b, a))
    ensures b.stream.msgs <= BackNext(env, b, a).stream.msgs
  {
    var b' := BackNext(env, b, a);
    if b' != b {
      var batch, row := b.relays[a.relay].batch, b.relays[a.relay].batch[0];
      assert RelayOk(b, b.relays[a.relay]) && row in batch;
      assert forall x <- batch[1..] :: x in batch;
      PublishIsLogged(env, b, b', row, a.fate);
      RelaysSeeMore(env, b, b', a.relay, b'.relays[a.relay]);
      ConsumerSeesMore(b, b');
    }
  }

  /** A publish that its relay gave up on arrives, at any later time. */
  lemma LandKeepsBackOk(env: Env, b: Back, a: BackAction)
    requires BackOk(env, b) && a.LandLate?
    ensures BackOk(env, BackNext(env, b, a))
    ensures b.stream.msgs <= BackNext(env, b, a).stream.msgs
  {
    var b' := BackNext(env, b, a);
    if b' != b {
      var sent := b.stream.inFlight[a.sent];
      assert sent in b.stream.inFlight;
      ReceiveKeepsStream(env, b, b', sent.id, sent.event);
      ArrivalIsLogged(b, b', sent.id, sent.event, sent.at);
      SameRelaysSeeMore(env, b, b');
      ConsumerSeesMore(b, b');
    }
  }

  lemma SameRelaysSeeMore(env: Env, b: Back, b': Back)
    requires BackOk(env, b) && b'.tables == b.tables && b.stream.msgs <= b'.stream.msgs && b'.relays == b.relays
    ensures forall k <- b'.relays :: RelayOk(b', b'.relays[k])
    ensures MarkedOk(b')
  {
    StoredStays(b.stream, b'.stream);
    forall k <- b'.relays
      ensures RelayOk(b', b'.relays[k])
    {
      assert RelayOk(b, b.relays[k]);
    }
  }

  lemma ConsumerSeesMore(b: Back, b': Back)
    requires ConsumerOk(b)
    requires b.stream.msgs <= b'.stream.msgs && |b'.stream.msgs| <= |b.stream.msgs| + 1
    requires b'.recorded == b.recorded && b'.base == b.base && b'.acked == b.acked
    requires b'.handled == if |b'.stream.msgs| > |b.stream.msgs| then b.handled + [0] else b.handled
    ensures ConsumerOk(b')
  {
    forall e <- b'.recorded
      ensures exists m :: m in b'.stream.msgs && m.event == e
    {
      var m :| m in b.stream.msgs && m.event == e;
      assert m in b'.stream.msgs;
    }
  }

  /** Marking changes no row's id or event. */
  lemma MarkKeepsRows(t: Tables, id: int, now: int)
    requires TablesOk(t)
    ensures var t' := t.(outbox := MarkRow(t.outbox, id, now));
      && TablesOk(t')
      && (forall x, event :: FromOutbox(t, x, event) ==> FromOutbox(t', x, event))
      && (forall x, event :: Known(t, x, event) ==> Known(t', x, event))
      && (forall row <- t'.outbox :: row in t.outbox || row.id == id)
  {
    var rows, rows' := t.outbox, MarkRow(t.outbox, id, now);
    forall row <- rows
      ensures row in rows' || row.(publishedAt := Some(now)) in rows'
    {
      var k :| 0 <= k < |rows| && rows[k] == row;
      assert rows'[k] in rows';
    }
    forall row <- rows'
      ensures row in rows || row.id == id
    {
      var k :| 0 <= k < |rows'| && rows'[k] == row;
      assert rows[k] in rows;
    }
    forall x, event | FromOutbox(t, x, event)
      ensures FromOutbox(t.(outbox := rows'), x, event)
    {
      var row :| row in rows && MsgId(row.id) == x && row.event == event;
      assert row in rows' || row.(publishedAt := Some(now)) in rows';
    }
    forall x, event | Known(t, x, event)
      ensures Known(t.(outbox := rows'), x, event)
    {
      var row :| row in rows && row.id == x && row.event == event;
      assert row in rows' || row.(publishedAt := Some(now)) in rows';
    }
  }

  lemma MarkKeepsRelays(env: Env, b: Back, b': Back, marking: nat)
    requires BackOk(env, b) && marking in b.relays && b.relays[marking].batch != []
    requires b'.relays == b.relays[marking := Publishing(b.relays[marking].batch[1..])]
    requires b'.stream == b.stream
    requires forall x, event :: Known(b.tables, x, event) ==> Known(b'.tables, x, event)
    ensures forall relay <- b'.relays :: RelayOk(b', b'.relays[relay])
  {
    forall relay <- b'.relays
      ensures RelayOk(b', b'.relays[relay])
    {
      assert relay in b.relays && RelayOk(b, b.relays[relay]);
      assert relay == marking ==> forall x <- b'.relays[relay].batch :: x in b.relays[marking].batch;
    }
  }

  lemma MarkKeepsBackOk(env: Env, b: Back, a: BackAction)
    requires BackOk(env, b) && a.MarkHead?
    ensures BackOk(env, BackNext(env, b, a))
  {
    var b' := BackNext(env, b, a);
    if b' != b {
      var batch := b.relays[a.relay].batch;
      assert RelayOk(b, b.relays[a.relay]);
      if b'.tables != b.tables {
        MarkKeepsRows(b.tables, batch[0].id, b.now);
      }
      MarkKeepsRelays(env, b, b', a.relay);
    }
  }

  lemma RelaysStay(b: Back, b': Back)
    requires b'.tables == b.tables && b'.stream.msgs == b.stream.msgs
    requires forall relay <- b'.relays :: relay in b.relays && b'.relays[relay] == b.relays[relay]
    requires forall relay <- b.relays :: RelayOk(b, b.relays[relay])
    ensures forall relay <- b'.relays :: RelayOk(b', b'.relays[relay])
  {
    forall relay <- b'.relays
      ensures RelayOk(b', b'.relays[relay])
    {
      assert RelayOk(b, b.relays[relay]);
    }
  }

  lemma CrashKeepsBackOk(env: Env, b: Back, a: BackAction)
    requires BackOk(env, b) && a.CrashRelay?
    ensures BackOk(env, BackNext(env, b, a))
  {
    RelaysStay(b, BackNext(env, b, a));
  }

  lemma TickKeepsBackOk(env: Env, b: Back, a: BackAction)
    requires BackOk(env, b) && a.Tick?
    ensures BackOk(env, BackNext(env, b, a))
  {
    RelaysStay(b, BackNext(env, b, a));
  }

  lemma ForgetKeepsBackOk(env: Env, b: Back, a: BackAction)
    requires BackOk(env, b) && a.Forget?
    ensures BackOk(env, BackNext(env, b, a))
  {
    RelaysStay(b, BackNext(env, b, a));
  }

  /** The consumer's steps touch nothing that the relays and the broker rely on. */
  lemma HandleKeepsConsumer(env: Env, b: Back, a: BackAction)
    requires ConsumerOk(b) && (a.Handle? || a.Ack? || a.RestartConsumer?)
    ensures ConsumerOk(BackNext(env, b, a))
  {
    if a.Handle? && BackNext(env, b, a) != b {
      assert b.stream.msgs[a.message] in b.stream.msgs;
    }
  }

  lemma ConsumerKeepsBackOk(env: Env, b: Back, a: BackAction)
    requires BackOk(env, b) && (a.Handle? || a.Ack? || a.RestartConsumer?)
    ensures BackOk(env, BackNext(env, b, a))
  {
    HandleKeepsConsumer(env, b, a);
    RelaysStay(b, BackNext(env, b, a));
  }

  lemma BackKeepsOk(env: Env, b: Back, a: BackAction)
    requires BackOk(env, b)
    ensures BackOk(env, BackNext(env, b, a))
  {
    match a
    case FetchBatch(_) => FetchKeepsBackOk(env, b, a);
    case PublishHead(_, _) => PublishKeepsBackOk(env, b, a);
    case MarkHead(_, _) => MarkKeepsBackOk(env, b, a);
    case LandLate(_) => LandKeepsBackOk(env, b, a);
    case CrashRelay(_) => CrashKeepsBackOk(env, b, a);
    case Tick(_) => TickKeepsBackOk(env, b, a);
    case Forget(_) => ForgetKeepsBackOk(env, b, a);
    case _ => ConsumerKeepsBackOk(env, b, a);
  }
}
