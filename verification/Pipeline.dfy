/** The theorems about every run of the whole system. */
module Pipeline {
  import opened Common
  import opened MessageId
  import opened Inventory
  import opened InventoryClient
  import opened Outbox
  import opened Broker
  import opened Orders
  import opened Analytics
  import opened Protocol
  import opened StockSafety
  import opened EventSafety
  import opened EventAccounting

  // ---------------------------------------------------------------- the invariant of every run

  ghost function OrderedOf(sku: string): Order -> int {
    (o: Order) => if o.sku == sku then o.quantity else 0
  }

  /** What a request turned into a persisted order. */
  ghost function PersistedOf(sku: string): Request -> int {
    (r: Request) => if r.sku == sku && r.phase.Done? && r.phase.order.Some? then r.quantity else 0
  }

  /** Orders are exactly what requests persisted. */
  ghost predicate Linked(s: State, sku: string) {
    SumBy(s.back.tables.orders, OrderedOf(sku)) == SumBy(s.front.requests, PersistedOf(sku))
  }

  ghost predicate Inv(env: Env, seed: Items, s: State) {
    && FrontOk(env, seed, s.front)
    && BackOk(env, s.back)
    && AccountsOk(s.back)
    && (forall sku :: Linked(s, sku))
    && (forall r <- s.front.requests :: r.phase.Done? && r.phase.order.Some? ==>
          r.phase.order.value in s.back.tables.orders)
  }

  lemma InitOk(env: Env, seed: Items)
    requires ValidItems(seed)
    ensures Inv(env, seed, Init(seed))
  {
    var f := Init(seed).front;
    assert forall sku :: Balanced(seed, f, sku);
    assert Init(seed).back.recorded[0..] == [];
  }

  lemma FrontStepLinked(env: Env, s: State, a: FrontAction, sku: string)
    requires Linked(s, sku)
    ensures Linked(s.(front := FrontNext(env, s.front, a)), sku)
  {
    if a.Arrive? {
      SumAppend(s.front.requests, NewRequest(a.sku, a.quantity), PersistedOf(sku));
    } else if a.OnRequest? && a.r < |s.front.requests| {
      AdvanceLinked(env, s.front, a.r, a.step, sku);
    }
  }

  lemma AdvanceLinked(env: Env, f: Front, i: nat, step: RequestStep, sku: string)
    requires i < |f.requests|
    ensures SumBy(FrontNext(env, f, OnRequest(i, step)).requests, PersistedOf(sku))
         == SumBy(f.requests, PersistedOf(sku))
  {
    var r' := Advance(env, f.items, f.requests[i], step).1;
    SumUpdate(f.requests, i, r', PersistedOf(sku));
    OrderIsFinal(env, f.items, f.requests[i], step);
    assert FrontNext(env, f, OnRequest(i, step)).requests == f.requests[i := r'];
  }

  /** A response is final, and only persisting gives a request an order. */
  lemma OrderIsFinal(env: Env, items: Items, r: Request, step: RequestStep)
    ensures var r' := Advance(env, items, r, step).1;
      && r'.sku == r.sku && r'.quantity == r.quantity
      && (r.phase.Done? ==> r'.phase == r.phase)
      && (!r.phase.Done? && r'.phase.Done? ==> r'.phase.order.None?)
  {
  }

  lemma FrontStepOk(env: Env, seed: Items, s: State, a: FrontAction)
    requires Inv(env, seed, s)
    ensures Inv(env, seed, Next(env, s, FrontStep(a)))
  {
    FrontKeepsOk(env, seed, s.front, a);
    forall sku
      ensures Linked(Next(env, s, FrontStep(a)), sku)
    {
      FrontStepLinked(env, s, a, sku);
    }
    if a.OnRequest? && a.r < |s.front.requests| {
      OrderIsFinal(env, s.front.items, s.front.requests[a.r], a.step);
    }
  }

  lemma BackStepTables(env: Env, b: Back, a: BackAction)
    ensures BackNext(env, b, a).tables.orders == b.tables.orders
  {
  }

  lemma BackStepOk(env: Env, seed: Items, s: State, a: BackAction)
    requires Inv(env, seed, s)
    ensures Inv(env, seed, Next(env, s, BackStep(a)))
  {
    BackKeepsOk(env, s.back, a);
    BackKeepsStats(env, s.back, a);
    BackStepTables(env, s.back, a);
    forall q
      ensures Flow(BackNext(env, s.back, a), q) && Logged(BackNext(env, s.back, a), q)
    {
      BackKeepsFlow(env, s.back, a, q);
      BackKeepsLog(env, s.back, a, q);
    }
    assert forall sku :: Linked(s, sku) ==> Linked(Next(env, s, BackStep(a)), sku);
  }

  lemma PersistFrontOk(env: Env, seed: Items, f: Front, i: nat, status: nat, order: Option<Order>)
    requires FrontOk(env, seed, f) && i < |f.requests| && f.requests[i].phase.Reserved?
    requires status == 500 || (status == 201 && order.Some?)
    requires order.Some? ==>
      && order.value.sku == f.requests[i].sku
      && order.value.quantity == f.requests[i].quantity == f.requests[i].Narrowed()
    ensures FrontOk(env, seed, f.(requests := f.requests[i := f.requests[i].(phase := Done(status, order))]))
  {
    var r := f.requests[i];
    var r' := r.(phase := Done(status, order));
    var f' := f.(requests := f.requests[i := r']);
    assert RequestOk(env, r) && RequestOk(env, r');
    forall sku
      ensures Balanced(seed, f', sku)
    {
      assert Balanced(seed, f, sku);
      SumUpdate(f.requests, i, r', TakenOf(sku));
    }
  }

  lemma PersistLinked(env: Env, s: State, a: Action, sku: string)
    requires Linked(s, sku) && TablesOk(s.back.tables) && a.PersistOrder?
    ensures Linked(Next(env, s, a), sku)
  {
    if a.r < |s.front.requests| && s.front.requests[a.r].phase.Reserved? {
      var r := s.front.requests[a.r];
      var o := Order(a.orderId, r.sku, r.quantity);
      PersistMoves(s.back.tables, r, o, a.rowId, a.fate, sku);
      SumUpdate(s.front.requests, a.r, Next(env, s, a).front.requests[a.r], PersistedOf(sku));
    }
  }

  /** The transaction adds to the item's orders exactly what it adds to the request's account. */
  lemma PersistMoves(t: Tables, r: Request, o: Order, rowId: int, fate: TxFate, sku: string)
    requires r.phase.Reserved? && o.sku == r.sku && o.quantity == r.quantity
    ensures var (t', ok) := Persist(t, o, rowId, fate);
      var order := if |t'.orders| > |t.orders| then Some(o) else None;
      SumBy(t'.orders, OrderedOf(sku)) - SumBy(t.orders, OrderedOf(sku))
        == PersistedOf(sku)(r.(phase := Done(if ok then 201 else 500, order))) - PersistedOf(sku)(r)
  {
    SumAppend(t.orders, o, OrderedOf(sku));
  }

  /** The transaction's step, seen from the order tables. */
  lemma PersistBackOk(env: Env, s: State, a: Action)
    requires BackOk(env, s.back) && AccountsOk(s.back) && a.PersistOrder?
    ensures BackOk(env, Next(env, s, a).back) && AccountsOk(Next(env, s, a).back)
  {
    if a.r < |s.front.requests| && s.front.requests[a.r].phase.Reserved? {
      var r := s.front.requests[a.r];
      var o := Order(a.orderId, r.sku, r.quantity);
      PersistKeepsBackOk(env, s.back, o, a.rowId, a.fate);
      PersistAccountsOk(env, s.back, o, a.rowId, a.fate);
    }
  }

  lemma PersistAccountsOk(env: Env, b: Back, o: Order, rowId: int, fate: TxFate)
    requires BackOk(env, b) && AccountsOk(b)
    ensures AccountsOk(b.(tables := Persist(b.tables, o, rowId, fate).0))
  {
    PersistKeepsFlow(env, b, o, rowId, fate, false);
    PersistKeepsFlow(env, b, o, rowId, fate, true);
    SameRecords(b, b.(tables := Persist(b.tables, o, rowId, fate).0));
  }

  lemma SameRecords(b: Back, b': Back)
    requires ConsumerOk(b) && AccountsOk(b) && b' == b.(tables := b'.tables)
    requires Flow(b', false) && Flow(b', true)
    ensures AccountsOk(b')
  {
    forall q
      ensures Flow(b', q) && Logged(b', q)
    {
      assert Logged(b, q);
      assert q == false || q == true;
    }
  }

  /** A request names an order only if its transaction appended that order. */
  lemma PersistNamesOrder(env: Env, s: State, a: Action)
    requires TablesOk(s.back.tables) && a.PersistOrder?
    requires a.r < |s.front.requests| && s.front.requests[a.r].phase.Reserved?
    ensures var (r', t') := (Next(env, s, a).front.requests[a.r], Next(env, s, a).back.tables);
      && r' == s.front.requests[a.r].(phase := Done(r'.phase.status, r'.phase.order))
      && (r'.phase.status == 500 || (r'.phase.status == 201 && r'.phase.order.Some?))
      && s.back.tables.orders <= t'.orders
      && (r'.phase.order.Some? ==>
            && r'.phase.order.value in t'.orders
            && r'.phase.order.value.sku == r'.sku
            && r'.phase.order.value.quantity == r'.quantity == r'.Narrowed())
  {
    var r := s.front.requests[a.r];
    var o, t := Order(a.orderId, r.sku, r.quantity), s.back.tables;
    PersistIsAtomic(t, o, a.rowId, a.fate);
    assert (t.orders + [o])[|t.orders|] == o;
  }

  lemma PersistStepOk(env: Env, seed: Items, s: State, a: Action)
    requires Inv(env, seed, s) && a.PersistOrder?
    ensures Inv(env, seed, Next(env, s, a))
  {
    var s' := Next(env, s, a);
    PersistBackOk(env, s, a);
    forall sku
      ensures Linked(s', sku)
    {
      PersistLinked(env, s, a, sku);
    }
    if a.r < |s.front.requests| && s.front.requests[a.r].phase.Reserved? {
      PersistNamesOrder(env, s, a);
      var phase := s'.front.requests[a.r].phase;
      PersistFrontOk(env, seed, s.front, a.r, phase.status, phase.order);
      assert forall x <- s'.front.requests :: x == s'.front.requests[a.r] || x in s.front.requests;
    }
  }

  /** Every state of every run, from any seed, satisfies the invariant. */
  lemma {:induction false} EveryRunIsOk(env: Env, seed: Items, actions: seq<Action>)
    requires ValidItems(seed)
    ensures Inv(env, seed, Run(env, Init(seed), actions))
  {
    if actions == [] {
      InitOk(env, seed);
    } else {
      var before, a := actions[..|actions| - 1], actions[|actions| - 1];
      var s := Run(env, Init(seed), before);
      EveryRunIsOk(env, seed, before);
      StepOk(env, seed, s, a);
    }
  }

  lemma StepOk(env: Env, seed: Items, s: State, a: Action)
    requires Inv(env, seed, s)
    ensures Inv(env, seed, Next(env, s, a))
  {
    match a
    case FrontStep(front) => FrontStepOk(env, seed, s, front);
    case BackStep(back) => BackStepOk(env, seed, s, back);
    case PersistOrder(_, _, _, _) => PersistStepOk(env, seed, s, a);
  }

  // ---------------------------------------------------------------- stock and orders

  /** What a request took beyond what it turned into an order. */
  ghost function SurplusOf(sku: string): Request -> int {
    (r: Request) => TakenOf(sku)(r) - PersistedOf(sku)(r)
  }

  lemma {:induction false} SurplusSum(requests: seq<Request>, sku: string)
    ensures SumBy(requests, SurplusOf(sku)) == SumBy(requests, TakenOf(sku)) - SumBy(requests, PersistedOf(sku))
  {
    if requests != [] {
      SurplusSum(requests[..|requests| - 1], sku);
    }
  }

  lemma {:induction false} NonNegativeSum<T>(s: seq<T>, f: T -> int)
    requires forall x <- s :: f(x) >= 0
    ensures SumBy(s, f) >= 0
    ensures SumBy(s, f) == 0 <==> forall x <- s :: f(x) == 0
  {
    if s != [] {
      var rest, last := s[..|s| - 1], s[|s| - 1];
      assert last in s && forall x :: x in s <==> x in rest || x == last;
      NonNegativeSum(rest, f);
    }
  }

  lemma SurplusIsNonNegative(env: Env, r: Request, sku: string)
    requires RequestOk(env, r)
    ensures SurplusOf(sku)(r) >= 0
  {
    var q := r.Narrowed();
    if r.commits > 0 {
      assert r.commits * q - q == (r.commits - 1) * q >= 0;
      assert TakenOf(sku)(r) == if r.sku == sku then r.commits * q else 0;
      assert PersistedOf(sku)(r) == 0 || (r.sku == sku && PersistedOf(sku)(r) == q);
    } else {
      assert !HoldsStock(r.phase);
      assert 0 * q == 0;
      assert TakenOf(sku)(r) == 0 && PersistedOf(sku)(r) == 0;
    }
  }

  /** In every state of every run stock is the seed plus restocks minus committed reservations and
      stays within the column; the orders of an item never exceed its committed reservations, so
      nothing is oversold; and stock is exactly seed plus restocks minus orders if and only if no
      request holds more than its order. This needs no assumption about Unavailable. */
  lemma GlobalAccounting(env: Env, seed: Items, actions: seq<Action>, sku: string)
    requires ValidItems(seed)
    ensures var s := Run(env, Init(seed), actions);
      var stock, restocked := Stock(s.front.items, sku), SumBy(s.front.restocks, RestockedOf(sku));
      var committed, ordered := SumBy(s.front.requests, TakenOf(sku)), SumBy(s.back.tables.orders, OrderedOf(sku));
      && 0 <= stock <= INT32_MAX
      && stock == Stock(seed, sku) + restocked - committed
      && 0 <= ordered <= committed <= Stock(seed, sku) + restocked
      && (stock == Stock(seed, sku) + restocked - ordered
          <==> forall r <- s.front.requests :: SurplusOf(sku)(r) == 0)
  {
    EveryRunIsOk(env, seed, actions);
    var s := Run(env, Init(seed), actions);
    assert Balanced(seed, s.front, sku) && Linked(s, sku);
    forall r <- s.front.requests
      ensures SurplusOf(sku)(r) >= 0 && PersistedOf(sku)(r) >= 0
    {
      SurplusIsNonNegative(env, r, sku);
      assert RequestOk(env, r);
    }
    SurplusSum(s.front.requests, sku);
    NonNegativeSum(s.front.requests, SurplusOf(sku));
    NonNegativeSum(s.front.requests, PersistedOf(sku));
  }

  /** Every request of every run: never more than six reservations, at most one if Unavailable
      means unsent, and then exactly one behind a 201 or 500 and none behind a 400, 404 or 409;
      a 201 has its order in the table, with the quantity its RPC reserved. */
  lemma EveryRequest(env: Env, seed: Items, actions: seq<Action>, i: nat)
    requires ValidItems(seed) && i < |Run(env, Init(seed), actions).front.requests|
    ensures var s := Run(env, Init(seed), actions);
      var r := s.front.requests[i];
      && r.commits <= r.attempts <= 6
      && (env.strictUnavailable ==> r.commits <= 1)
      && (env.strictUnavailable && r.phase.Done? && r.phase.status in {201, 500} ==> r.commits == 1)
      && (env.strictUnavailable && r.phase.Done? && r.phase.status in {400, 404, 409} ==> r.commits == 0)
      && (r.phase.Done? && r.phase.status == 201 ==> r.phase.order.Some?)
      && (r.phase.Done? && r.phase.order.Some? ==>
            && r.commits >= 1
            && r.phase.order.value in s.back.tables.orders
            && r.phase.order.value.sku == r.sku
            && r.phase.order.value.quantity == r.quantity == r.Narrowed())
  {
    EveryRunIsOk(env, seed, actions);
    var s := Run(env, Init(seed), actions);
    assert s.front.requests[i] in s.front.requests;
    assert RequestOk(env, s.front.requests[i]);
  }

  // ---------------------------------------------------------------- events

  /** A committed order with the event's id, item and quantity. */
  ghost predicate IsOrder(t: Tables, e: OrderCreated) {
    exists o :: o in t.orders && EventFor(o) == e
  }

  /** Nothing lost: orders and outbox rows correspond one to one, and a row marked published has
      its own event in the stream. Nothing invented: every stored message and every recorded
      delivery is a committed order's. */
  lemma NothingLostNothingInvented(env: Env, seed: Items, actions: seq<Action>)
    requires ValidItems(seed)
    ensures var b := Run(env, Init(seed), actions).back;
      && TablesOk(b.tables)
      && (forall row <- b.tables.outbox :: row.publishedAt.Some? ==>
            exists m :: m in b.stream.msgs && m.id == MsgId(row.id) && m.event == row.event)
      && (forall m <- b.stream.msgs :: IsOrder(b.tables, m.event))
      && (forall e <- b.recorded :: IsOrder(b.tables, e))
  {
    EveryRunIsOk(env, seed, actions);
    var b := Run(env, Init(seed), actions).back;
    forall m <- b.stream.msgs
      ensures IsOrder(b.tables, m.event)
    {
      assert FromOutbox(b.tables, m.id, m.event);
      var row :| row in b.tables.outbox && MsgId(row.id) == m.id && row.event == m.event;
      var k :| 0 <= k < |b.tables.outbox| && b.tables.outbox[k] == row;
      assert b.tables.orders[k] in b.tables.orders && EventFor(b.tables.orders[k]) == m.event;
    }
    forall row <- b.tables.outbox | Stored(b.stream.msgs, MsgId(row.id))
      ensures exists m :: m in b.stream.msgs && m.id == MsgId(row.id) && m.event == row.event
    {
      StoredIsOwnEvent(b, row);
    }
  }

  /** What is stored under a row's id is that row's event: ids never collide. */
  lemma StoredIsOwnEvent(b: Back, row: Row)
    requires TablesOk(b.tables) && StreamOk(b) && row in b.tables.outbox
    ensures forall m <- b.stream.msgs :: m.id == MsgId(row.id) ==> m.event == row.event
  {
    MsgIdInjective();
    forall m <- b.stream.msgs | m.id == MsgId(row.id)
      ensures m.event == row.event
    {
      assert FromOutbox(b.tables, m.id, m.event);
      var other :| other in b.tables.outbox && MsgId(other.id) == m.id && other.event == m.event;
      var j :| 0 <= j < |b.tables.outbox| && b.tables.outbox[j] == other;
      var k :| 0 <= k < |b.tables.outbox| && b.tables.outbox[k] == row;
      assert j == k;
    }
  }

  /** The relay gets an acknowledgement only if the row's own event is in the stream. */
  lemma AcknowledgedIsStored(env: Env, seed: Items, actions: seq<Action>, relay: nat)
    requires ValidItems(seed)
    ensures var b := Run(env, Init(seed), actions).back;
      relay in b.relays && b.relays[relay].Marking? && b.relays[relay].batch != [] ==>
        var row := b.relays[relay].batch[0];
        exists m :: m in b.stream.msgs && m.id == MsgId(row.id) && m.event == row.event
  {
    EveryRunIsOk(env, seed, actions);
    var b := Run(env, Init(seed), actions).back;
    if relay in b.relays && b.relays[relay].Marking? && b.relays[relay].batch != [] {
      var row := b.relays[relay].batch[0];
      assert RelayOk(b, b.relays[relay]) && row in b.relays[relay].batch;
      var known :| known in b.tables.outbox && known.id == row.id && known.event == row.event;
      StoredIsOwnEvent(b, known);
    }
  }

  // ---------------------------------------------------------------- duplicates

  /** When the copies of a message were stored, in stream order. */
  ghost function StoreTimes(msgs: seq<Msg>, id: string): seq<int> {
    if msgs == [] then []
    else
      var (rest, last) := (msgs[..|msgs| - 1], msgs[|msgs| - 1]);
      StoreTimes(rest, id) + if last.id == id then [last.storedAt] else []
  }

  /** Each of them is the time of a stored copy. */
  lemma {:induction false} StoreTimeIsStore(msgs: seq<Msg>, id: string, k: nat) returns (i: nat)
    requires k < |StoreTimes(msgs, id)|
    ensures i < |msgs| && msgs[i].id == id && msgs[i].storedAt == StoreTimes(msgs, id)[k]
  {
    var rest := msgs[..|msgs| - 1];
    if k < |StoreTimes(rest, id)| {
      i := StoreTimeIsStore(rest, id, k);
    } else {
      i := |msgs| - 1;
    }
  }

  /** The n-th copy is at least n - 1 windows after the first. */
  lemma {:induction false} CopiesAreSpaced(env: Env, msgs: seq<Msg>, id: string)
    requires Spaced(env, msgs) && StoreTimes(msgs, id) != []
    ensures var times := StoreTimes(msgs, id);
      times[0] + (|times| - 1) * env.window <= times[|times| - 1]
  {
    var rest, last := msgs[..|msgs| - 1], msgs[|msgs| - 1];
    var before := StoreTimes(rest, id);
    if last.id != id {
      CopiesAreSpaced(env, rest, id);
    } else if before == [] {
      assert StoreTimes(msgs, id) == [last.storedAt];
      assert 0 * env.window == 0;
    } else {
      CopiesAreSpaced(env, rest, id);
      var i := StoreTimeIsStore(rest, id, |before| - 1);
      assert msgs[i].id == last.id;
      OneMoreWindow(before[0], |before|, env.window, before[|before| - 1], last.storedAt);
      assert StoreTimes(msgs, id) == before + [last.storedAt];
    }
  }

  lemma OneMoreWindow(first: int, n: nat, w: nat, t: int, next: int)
    requires first + (n - 1) * w <= t && t + w <= next
    ensures first + n * w <= next
  {
    assert n * w == (n - 1) * w + w;
  }

  /** However many publishes were ambiguous, however late they arrived and however many marks were
      lost: if all publishes of a row reach the broker between two times, the windows between its
      copies fit between them, so there are at most 1 + (last - first) / window copies. */
  lemma DuplicateBound(env: Env, seed: Items, actions: seq<Action>, rowId: int, first: int, last: int)
    requires ValidItems(seed)
    requires forall a <- Run(env, Init(seed), actions).back.arrivals :: a.id == MsgId(rowId) ==> first <= a.at <= last
    ensures var copies := |StoreTimes(Run(env, Init(seed), actions).back.stream.msgs, MsgId(rowId))|;
      copies > 0 ==> (copies - 1) * env.window <= last - first
  {
    EveryRunIsOk(env, seed, actions);
    var b := Run(env, Init(seed), actions).back;
    StoresAreArrivals(b, MsgId(rowId), first, last);
    CopiesWithin(env, b.stream.msgs, MsgId(rowId), first, last);
  }

  lemma StoresAreArrivals(b: Back, id: string, first: int, last: int)
    requires AttemptsOk(b)
    requires forall a <- b.arrivals :: a.id == id ==> first <= a.at <= last
    ensures forall m <- b.stream.msgs :: m.id == id ==> first <= m.storedAt <= last
  {
    forall m <- b.stream.msgs | m.id == id
      ensures first <= m.storedAt <= last
    {
      assert ArrivedAt(b.arrivals, m.id, m.storedAt);
      var a :| a in b.arrivals && a.id == m.id && a.at == m.storedAt;
    }
  }

  /** In terms of what the relays do: if they attempt a row between two times, and no publish
      takes longer than a given time to reach the broker, that time is all that is added. */
  lemma DuplicateBoundByAttempts(env: Env, seed: Items, actions: seq<Action>, rowId: int,
                                 first: int, last: int, latency: nat)
    requires ValidItems(seed)
    requires var b := Run(env, Init(seed), actions).back;
      && (forall a <- b.attempts :: a.rowId == rowId ==> first <= a.at <= last)
      && (forall a <- b.arrivals :: a.id == MsgId(rowId) ==> a.at - a.sentAt <= latency)
    ensures var copies := |StoreTimes(Run(env, Init(seed), actions).back.stream.msgs, MsgId(rowId))|;
      copies > 0 ==> (copies - 1) * env.window <= last - first + latency
  {
    EveryRunIsOk(env, seed, actions);
    var b := Run(env, Init(seed), actions).back;
    MsgIdInjective();
    forall a <- b.arrivals | a.id == MsgId(rowId)
      ensures first <= a.at <= last + latency
    {
      assert Attempted(b.attempts, a.id, a.sentAt);
      var attempt :| attempt in b.attempts && MsgId(attempt.rowId) == a.id && attempt.at == a.sentAt;
    }
    DuplicateBound(env, seed, actions, rowId, first, last + latency);
  }

  lemma CopiesWithin(env: Env, msgs: seq<Msg>, id: string, first: int, last: int)
    requires Spaced(env, msgs)
    requires forall m <- msgs :: m.id == id ==> first <= m.storedAt <= last
    ensures var copies := |StoreTimes(msgs, id)|;
      copies > 0 ==> (copies - 1) * env.window <= last - first
  {
    var times := StoreTimes(msgs, id);
    if times != [] {
      var i := StoreTimeIsStore(msgs, id, 0);
      var j := StoreTimeIsStore(msgs, id, |times| - 1);
      assert msgs[i] in msgs && msgs[j] in msgs;
      CopiesAreSpaced(env, msgs, id);
      Between((|times| - 1) * env.window, times[0], times[|times| - 1], first, last);
    }
  }

  lemma Between(d: int, t0: int, t1: int, first: int, last: int)
    requires first <= t0 && t0 + d <= t1 && t1 <= last
    ensures d <= last - first
  {
  }

  /** The step brings a publish of this id to the broker, in time or late. */
  predicate Brings(b: Back, a: BackAction, id: string) {
    match a
    case PublishHead(relay, fate) =>
      && Reached(fate) && relay in b.relays && b.relays[relay].Publishing?
      && b.relays[relay].batch != [] && MsgId(b.relays[relay].batch[0].id) == id
    case LandLate(k) => k < |b.stream.inFlight| && b.stream.inFlight[k].id == id
    case _ => false
  }

  /** What such a step adds: the arrival, and a message unless the id is remembered. */
  lemma BroughtIs(env: Env, b: Back, a: BackAction, id: string)
    requires Brings(b, a, id)
    ensures var b' := BackNext(env, b, a);
      && |b'.arrivals| == |b.arrivals| + 1 && b'.arrivals[..|b.arrivals|] == b.arrivals
      && b'.arrivals[|b.arrivals|].id == id && b'.arrivals[|b.arrivals|].at == b.now
      && (if id in b.stream.dedup then b'.stream.msgs == b.stream.msgs
          else && |b'.stream.msgs| == |b.stream.msgs| + 1 && b.stream.msgs <= b'.stream.msgs
               && b'.stream.msgs[|b.stream.msgs|].id == id && b'.stream.msgs[|b.stream.msgs|].storedAt == b.now)
  {
  }

  /** When one more publish stores one more copy, whichever way it arrives, if the broker forgets as
      soon as it may: exactly when every copy is a window old. */
  lemma AnotherCopyExactly(env: Env, seed: Items, actions: seq<Action>, a: BackAction, id: string)
    requires ValidItems(seed) && Brings(Run(env, Init(seed), actions).back, a, id)
    ensures var b := Run(env, Init(seed), actions).back;
      (|BackNext(env, BackNext(env, b, Forget(id)), a).stream.msgs| > |b.stream.msgs|)
      <==> forall m <- b.stream.msgs :: m.id == id ==> m.storedAt + env.window <= b.now
  {
    RunIsDedupOk(env, seed, actions);
    var b := Run(env, Init(seed), actions).back;
    RememberedExactly(env, b, id);
    ForgetLeaves(env, b, a, id);
    BroughtIs(env, BackNext(env, b, Forget(id)), a, id);
  }

  lemma ForgetLeaves(env: Env, b: Back, a: BackAction, id: string)
    requires Brings(b, a, id)
    ensures var b' := BackNext(env, b, Forget(id));
      && Brings(b', a, id) && b'.stream.msgs == b.stream.msgs
      && (id in b'.stream.dedup <==> id in b.stream.dedup && b.now < b.stream.dedup[id] + env.window)
  {
  }

  lemma RememberedExactly(env: Env, b: Back, id: string)
    requires DedupOk(env, b)
    ensures (id in b.stream.dedup ==> b.stream.dedup[id] + env.window <= b.now)
       <==> forall m <- b.stream.msgs :: m.id == id ==> m.storedAt + env.window <= b.now
  {
    if id in b.stream.dedup {
      var m :| m in b.stream.msgs && m.id == id && m.storedAt == b.stream.dedup[id];
    }
  }

  /** Every publish of the row that reaches the broker does so within the window of a stored copy. */
  ghost predicate RetriesInWindow(env: Env, b: Back, id: string) {
    forall m <- b.stream.msgs, a <- b.arrivals :: m.id == id && a.id == id ==> a.at < m.storedAt + env.window
  }

  /** Then it has no second copy, whatever happens to other rows. */
  lemma NoSecondCopy(env: Env, seed: Items, actions: seq<Action>, rowId: int)
    requires ValidItems(seed)
    requires RetriesInWindow(env, Run(env, Init(seed), actions).back, MsgId(rowId))
    ensures |StoreTimes(Run(env, Init(seed), actions).back.stream.msgs, MsgId(rowId))| <= 1
  {
    EveryRunIsOk(env, seed, actions);
    var b, id := Run(env, Init(seed), actions).back, MsgId(rowId);
    CopiesDiffer(env, b, id);
    AtMostOneStore(b.stream.msgs, id);
  }

  /** The broker has forgotten the id if it may, whenever a publish of it arrives. */
  ghost predicate ForgetsInTime(env: Env, b: Back, a: Action, id: string) {
    a.BackStep? && Brings(b, a.back, id) && id in b.stream.dedup ==> b.now < b.stream.dedup[id] + env.window
  }

  /** Each arrival of the id came within the window of a copy stored by then. */
  ghost predicate Covered(env: Env, b: Back, id: string) {
    forall a <- b.arrivals :: a.id == id ==> CoveredAt(env, b.stream.msgs, id, a.at)
  }

  ghost predicate CoveredAt(env: Env, msgs: seq<Msg>, id: string, at: int) {
    exists m :: m in msgs && m.id == id && m.storedAt <= at < m.storedAt + env.window
  }

  lemma CoveredStays(env: Env, msgs: seq<Msg>, msgs': seq<Msg>, id: string, at: int)
    requires msgs <= msgs' && CoveredAt(env, msgs, id, at)
    ensures CoveredAt(env, msgs', id, at)
  {
    assert forall m <- msgs :: m in msgs';
  }

  lemma BroughtIsCovered(env: Env, b: Back, a: BackAction, id: string)
    requires DedupOk(env, b) && Covered(env, b, id) && Brings(b, a, id) && env.window > 0
    requires id in b.stream.dedup ==> b.now < b.stream.dedup[id] + env.window
    ensures Covered(env, BackNext(env, b, a), id)
  {
    var b' := BackNext(env, b, a);
    BroughtIs(env, b, a, id);
    ArrivalCovered(env, b, b', id);
  }

  lemma ArrivalCovered(env: Env, b: Back, b': Back, id: string)
    requires DedupOk(env, b) && Covered(env, b, id) && env.window > 0
    requires id in b.stream.dedup ==> b.now < b.stream.dedup[id] + env.window
    requires b.stream.msgs <= b'.stream.msgs
    requires id !in b.stream.dedup ==>
      && |b'.stream.msgs| == |b.stream.msgs| + 1
      && b'.stream.msgs[|b.stream.msgs|].id == id && b'.stream.msgs[|b.stream.msgs|].storedAt == b.now
    requires |b'.arrivals| == |b.arrivals| + 1 && b'.arrivals[..|b.arrivals|] == b.arrivals
    requires b'.arrivals[|b.arrivals|].at == b.now
    ensures Covered(env, b', id)
  {
    forall a <- b'.arrivals | a.id == id
      ensures CoveredAt(env, b'.stream.msgs, id, a.at)
    {
      if a in b.arrivals {
        CoveredStays(env, b.stream.msgs, b'.stream.msgs, id, a.at);
      } else {
        assert a == b'.arrivals[|b.arrivals|];
        if id in b.stream.dedup {
          var m :| m in b.stream.msgs && m.id == id && m.storedAt == b.stream.dedup[id];
          CoveredStays(env, b.stream.msgs, b'.stream.msgs, id, a.at);
        } else {
          assert b'.stream.msgs[|b.stream.msgs|] in b'.stream.msgs;
        }
      }
    }
  }

  /** Any other step adds no arrival of this id, and loses no message. */
  lemma OthersBringNothing(env: Env, b: Back, a: BackAction, id: string)
    requires !Brings(b, a, id)
    ensures var b' := BackNext(env, b, a);
      && b.stream.msgs <= b'.stream.msgs
      && forall x <- b'.arrivals :: x.id == id ==> x in b.arrivals
  {
  }

  lemma StepIsCovered(env: Env, s: State, a: Action, id: string)
    requires DedupOk(env, s.back) && Covered(env, s.back, id) && env.window > 0
    requires ForgetsInTime(env, s.back, a, id)
    ensures Covered(env, Next(env, s, a).back, id)
  {
    if a.BackStep? {
      if Brings(s.back, a.back, id) {
        BroughtIsCovered(env, s.back, a.back, id);
      } else {
        OthersBringNothing(env, s.back, a.back, id);
        var b' := BackNext(env, s.back, a.back);
        forall x <- b'.arrivals | x.id == id
          ensures CoveredAt(env, b'.stream.msgs, id, x.at)
        {
          CoveredStays(env, s.back.stream.msgs, b'.stream.msgs, id, x.at);
        }
      }
    }
  }

  lemma {:induction false} RunIsCovered(env: Env, seed: Items, actions: seq<Action>, id: string)
    requires ValidItems(seed) && env.window > 0
    requires forall k :: 0 <= k < |actions| ==>
      ForgetsInTime(env, Run(env, Init(seed), actions[..k]).back, actions[k], id)
    ensures Covered(env, Run(env, Init(seed), actions).back, id)
  {
    if actions != [] {
      var n := |actions| - 1;
      var before := actions[..n];
      assert forall k :: 0 <= k < n ==> before[..k] == actions[..k];
      RunIsCovered(env, seed, before, id);
      RunIsDedupOk(env, seed, before);
      StepIsCovered(env, Run(env, Init(seed), before), actions[n], id);
    }
  }

  lemma RunIsDedupOk(env: Env, seed: Items, actions: seq<Action>)
    requires ValidItems(seed)
    ensures DedupOk(env, Run(env, Init(seed), actions).back)
  {
    EveryRunIsOk(env, seed, actions);
  }

  /** Over a whole run in which the broker forgets in time, a row has no second copy exactly if every
      publish of it that arrives does so within the window of the stored copy. */
  lemma NoSecondCopyExactly(env: Env, seed: Items, actions: seq<Action>, rowId: int)
    requires ValidItems(seed) && env.window > 0
    requires forall k :: 0 <= k < |actions| ==>
      ForgetsInTime(env, Run(env, Init(seed), actions[..k]).back, actions[k], MsgId(rowId))
    ensures var b := Run(env, Init(seed), actions).back;
      |StoreTimes(b.stream.msgs, MsgId(rowId))| <= 1 <==> RetriesInWindow(env, b, MsgId(rowId))
  {
    var b, id := Run(env, Init(seed), actions).back, MsgId(rowId);
    if RetriesInWindow(env, b, id) {
      NoSecondCopy(env, seed, actions, rowId);
    }
    if |StoreTimes(b.stream.msgs, id)| <= 1 {
      RunIsCovered(env, seed, actions, id);
      OneStoreTime(b.stream.msgs, id);
      forall m <- b.stream.msgs, a <- b.arrivals | m.id == id && a.id == id
        ensures a.at < m.storedAt + env.window
      {
        assert CoveredAt(env, b.stream.msgs, id, a.at);
      }
    }
  }

  /** Copies of an id with one store time were stored then. */
  lemma {:induction false} OneStoreTime(msgs: seq<Msg>, id: string)
    ensures forall m <- msgs :: m.id == id ==> m.storedAt in StoreTimes(msgs, id)
    ensures |StoreTimes(msgs, id)| <= 1 ==>
      forall m <- msgs, n <- msgs :: m.id == id && n.id == id ==> m.storedAt == n.storedAt
  {
    if msgs != [] {
      var rest, last := msgs[..|msgs| - 1], msgs[|msgs| - 1];
      OneStoreTime(rest, id);
      assert forall m <- msgs :: m in rest || m == last;
      assert last.id == id ==> StoreTimes(msgs, id)[|StoreTimes(rest, id)|] == last.storedAt;
    }
    assert |StoreTimes(msgs, id)| <= 1 ==>
      forall x <- StoreTimes(msgs, id), y <- StoreTimes(msgs, id) :: x == y;
  }

  lemma CopiesDiffer(env: Env, b: Back, id: string)
    requires AttemptsOk(b) && Spaced(env, b.stream.msgs) && RetriesInWindow(env, b, id)
    ensures forall i, j :: 0 <= i < j < |b.stream.msgs| && b.stream.msgs[i].id == id ==> b.stream.msgs[j].id != id
  {
    var msgs := b.stream.msgs;
    forall i, j | 0 <= i < j < |msgs| && msgs[i].id == id
      ensures msgs[j].id != id
    {
      assert msgs[i] in msgs && msgs[j] in msgs;
      assert ArrivedAt(b.arrivals, msgs[j].id, msgs[j].storedAt);
      var a :| a in b.arrivals && a.id == msgs[j].id && a.at == msgs[j].storedAt;
    }
  }

  lemma {:induction false} AtMostOneStore(msgs: seq<Msg>, id: string)
    requires forall i, j :: 0 <= i < j < |msgs| && msgs[i].id == id ==> msgs[j].id != id
    ensures |StoreTimes(msgs, id)| <= 1
    ensures StoreTimes(msgs, id) != [] ==> Stored(msgs, id)
  {
    if msgs != [] {
      var rest, last := msgs[..|msgs| - 1], msgs[|msgs| - 1];
      AtMostOneStore(rest, id);
      if StoreTimes(rest, id) != [] {
        var k: nat := StoreTimeIsStore(rest, id, 0);
        assert msgs[k].id == id;
      }
      if last.id == id {
        assert last in msgs;
      } else if m :| m in rest && m.id == id {
        assert m in msgs;
      }
    }
  }

  // ---------------------------------------------------------------- conservation

  /** The weight of what was recorded since the consumer's last start. */
  ghost function SinceStart(b: Back, byQuantity: bool): int
    requires b.base <= |b.recorded|
  {
    SumBy(b.recorded[b.base..], Weight(byQuantity))
  }

  ghost function BeforeStart(b: Back, byQuantity: bool): int
    requires b.base <= |b.recorded|
  {
    SumBy(b.recorded[..b.base], Weight(byQuantity))
  }

  /** In every state of every run, by count and by quantity: orders, second copies and repeated
      recordings together are the rows not in the stream, the messages not yet handled, what the
      totals now show and what earlier restarts forgot. The totals themselves are those of the
      recordings since the last start. */
  lemma ExactAccounting(env: Env, seed: Items, actions: seq<Action>, byQuantity: bool)
    requires ValidItems(seed)
    ensures var b := Run(env, Init(seed), actions).back;
      && |b.handled| == |b.stream.msgs| && b.base <= |b.recorded|
      && SumBy(b.tables.orders, OrderWeight(byQuantity))
           + Extra(b.stream.msgs, byQuantity) + Deliveries(b.stream.msgs, b.handled, Again, byQuantity)
         == SumBy(b.tables.outbox, MissingWeight(b.stream.msgs, byQuantity))
           + Deliveries(b.stream.msgs, b.handled, NotYet, byQuantity)
           + SinceStart(b, byQuantity) + BeforeStart(b, byQuantity)
      && b.stats == Snapshot(Int64(SinceStart(b, false)), Int64(SinceStart(b, true)))
  {
    EveryRunIsOk(env, seed, actions);
    var b := Run(env, Init(seed), actions).back;
    FlowAndLog(b, byQuantity);
    CountIsLength(b.recorded[b.base..]);
  }

  lemma FlowAndLog(b: Back, byQuantity: bool)
    requires ConsumerOk(b) && AccountsOk(b)
    ensures SumBy(b.tables.orders, OrderWeight(byQuantity))
           + Extra(b.stream.msgs, byQuantity) + Deliveries(b.stream.msgs, b.handled, Again, byQuantity)
         == SumBy(b.tables.outbox, MissingWeight(b.stream.msgs, byQuantity))
           + Deliveries(b.stream.msgs, b.handled, NotYet, byQuantity)
           + SinceStart(b, byQuantity) + BeforeStart(b, byQuantity)
  {
    assert Flow(b, byQuantity) && Logged(b, byQuantity);
    DeliveriesSplit(b.stream.msgs, b.handled, byQuantity);
    assert b.recorded == b.recorded[..b.base] + b.recorded[b.base..];
    SumConcat(b.recorded[..b.base], b.recorded[b.base..], Weight(byQuantity));
  }

  lemma {:induction false} CountIsLength(events: seq<OrderCreated>)
    ensures SumBy(events, Weight(false)) == |events|
  {
    if events != [] {
      CountIsLength(events[..|events| - 1]);
    }
  }

  /** The quantity of a committed order fits its INTEGER column. */
  lemma {:induction false} QuantityBound(events: seq<OrderCreated>)
    requires forall e <- events :: 0 < e.quantity <= INT32_MAX
    ensures 0 <= SumBy(events, Weight(true)) <= |events| * INT32_MAX
  {
    if events != [] {
      var rest, last := events[..|events| - 1], events[|events| - 1];
      assert last in events && forall e :: e in rest ==> e in events;
      QuantityBound(rest);
    }
  }

  /** The totals do not wrap before 2^32 recordings: until then they are the exact sums. */
  lemma TotalsAreExact(env: Env, seed: Items, actions: seq<Action>)
    requires ValidItems(seed)
    ensures var b := Run(env, Init(seed), actions).back;
      && b.base <= |b.recorded|
      && (|b.recorded| - b.base <= TWO_32 ==> b.stats == Snapshot(SinceStart(b, false), SinceStart(b, true)))
  {
    ExactAccounting(env, seed, actions, true);
    NothingLostNothingInvented(env, seed, actions);
    var b := Run(env, Init(seed), actions).back;
    var since := b.recorded[b.base..];
    forall e <- since
      ensures 0 < e.quantity <= INT32_MAX
    {
      assert e in b.recorded && IsOrder(b.tables, e);
    }
    QuantityBound(since);
    CountIsLength(since);
  }

  lemma {:induction false} NoExtra(msgs: seq<Msg>, byQuantity: bool)
    requires forall i, j :: 0 <= i < j < |msgs| ==> msgs[i].id != msgs[j].id
    ensures Extra(msgs, byQuantity) == 0
  {
    if msgs != [] {
      NoExtra(msgs[..|msgs| - 1], byQuantity);
    }
  }

  lemma {:induction false} NoRepeats(msgs: seq<Msg>, handled: seq<nat>, byQuantity: bool)
    requires |handled| == |msgs| && forall h <- handled :: h <= 1
    ensures Deliveries(msgs, handled, Again, byQuantity) == 0
  {
    if msgs != [] {
      var n := |msgs| - 1;
      assert handled[n] in handled && forall h <- handled[..n] :: h in handled;
      NoRepeats(msgs[..n], handled[..n], byQuantity);
      assert Again(handled[n]) * MsgWeight(byQuantity)(msgs[n]) == 0;
    }
  }

  /** Every row's publishes arrive in its window, no delivery was recorded twice, and the consumer
      has not restarted. */
  ghost predicate OnceEach(env: Env, b: Back) {
    && (forall row <- b.tables.outbox :: RetriesInWindow(env, b, MsgId(row.id)))
    && (forall h <- b.handled :: h <= 1)
    && b.base == 0
  }

  lemma NoCopies(env: Env, b: Back)
    requires BackOk(env, b) && OnceEach(env, b)
    ensures forall i, j :: 0 <= i < j < |b.stream.msgs| ==> b.stream.msgs[i].id != b.stream.msgs[j].id
  {
    forall i, j | 0 <= i < j < |b.stream.msgs|
      ensures b.stream.msgs[i].id != b.stream.msgs[j].id
    {
      var m := b.stream.msgs[i];
      assert FromOutbox(b.tables, m.id, m.event);
      CopiesDiffer(env, b, m.id);
    }
  }

  /** A total, as the snapshot shows it. */
  function Total(s: Snapshot, byQuantity: bool): int {
    if byQuantity then s.totalQuantity else s.ordersCount
  }

  /** Then every order is at every step in exactly one place: its row not yet in the stream, its
      message not yet handled, or in the totals. */
  lemma ExactlyOnceConservation(env: Env, seed: Items, actions: seq<Action>, byQuantity: bool)
    requires ValidItems(seed) && OnceEach(env, Run(env, Init(seed), actions).back)
    ensures var b := Run(env, Init(seed), actions).back;
      && |b.handled| == |b.stream.msgs|
      && Total(b.stats, byQuantity) == Int64(SumBy(b.recorded, Weight(byQuantity)))
      && SumBy(b.tables.orders, OrderWeight(byQuantity))
         == SumBy(b.tables.outbox, MissingWeight(b.stream.msgs, byQuantity))
           + Deliveries(b.stream.msgs, b.handled, NotYet, byQuantity)
           + SumBy(b.recorded, Weight(byQuantity))
      && (|b.recorded| <= TWO_32 ==>
           SumBy(b.tables.orders, OrderWeight(byQuantity))
           == SumBy(b.tables.outbox, MissingWeight(b.stream.msgs, byQuantity))
             + Deliveries(b.stream.msgs, b.handled, NotYet, byQuantity)
             + Total(b.stats, byQuantity))
  {
    ExactAccounting(env, seed, actions, byQuantity);
    EveryRunIsOk(env, seed, actions);
    TotalsAreExact(env, seed, actions);
    var b := Run(env, Init(seed), actions).back;
    NoCopies(env, b);
    NoExtra(b.stream.msgs, byQuantity);
    NoRepeats(b.stream.msgs, b.handled, byQuantity);
    assert b.recorded[..0] == [] && b.recorded[0..] == b.recorded;
  }

  /** Nothing is under way: every row is in the stream and every message has been handled. */
  ghost predicate Quiescent(b: Back) {
    && (forall row <- b.tables.outbox :: Stored(b.stream.msgs, MsgId(row.id)))
    && (forall h <- b.handled :: h > 0)
  }

  lemma {:induction false} AllHandled(msgs: seq<Msg>, handled: seq<nat>, byQuantity: bool)
    requires |handled| == |msgs| && forall h <- handled :: h > 0
    ensures Deliveries(msgs, handled, NotYet, byQuantity) == 0
  {
    if msgs != [] {
      var n := |msgs| - 1;
      assert handled[n] in handled && forall h <- handled[..n] :: h in handled;
      AllHandled(msgs[..n], handled[..n], byQuantity);
      assert NotYet(handled[n]) * MsgWeight(byQuantity)(msgs[n]) == 0;
    }
  }

  /** At rest nothing is missing from the stream and nothing waits to be handled. */
  lemma NothingUnderWay(b: Back, byQuantity: bool)
    requires Quiescent(b) && |b.handled| == |b.stream.msgs|
    ensures SumBy(b.tables.outbox, MissingWeight(b.stream.msgs, byQuantity)) == 0
    ensures Deliveries(b.stream.msgs, b.handled, NotYet, byQuantity) == 0
  {
    AllHandled(b.stream.msgs, b.handled, byQuantity);
    assert forall row <- b.tables.outbox :: MissingWeight(b.stream.msgs, byQuantity)(row) == 0;
    NonNegativeSum(b.tables.outbox, MissingWeight(b.stream.msgs, byQuantity));
  }

  /** When nothing is under way, the totals are the orders table plus second copies and repeated
      recordings, less what restarts forgot, in Go's int; until they could wrap, they agree with
      the orders table exactly if these balance. */
  lemma TotalsAtRest(env: Env, seed: Items, actions: seq<Action>, byQuantity: bool)
    requires ValidItems(seed) && Quiescent(Run(env, Init(seed), actions).back)
    ensures var b := Run(env, Init(seed), actions).back;
      && |b.handled| == |b.stream.msgs| && b.base <= |b.recorded|
      && var ordered := SumBy(b.tables.orders, OrderWeight(byQuantity));
         var again := Deliveries(b.stream.msgs, b.handled, Again, byQuantity);
         var repeated := Extra(b.stream.msgs, byQuantity) + again;
         && Total(b.stats, byQuantity) == Int64(ordered + repeated - BeforeStart(b, byQuantity))
         && (|b.recorded| - b.base <= TWO_32 ==>
              (Total(b.stats, byQuantity) == ordered <==> repeated == BeforeStart(b, byQuantity)))
  {
    SumsAtRest(env, seed, actions, byQuantity);
    TotalsAreExact(env, seed, actions);
    var b := Run(env, Init(seed), actions).back;
    var since := SinceStart(b, byQuantity);
    assert Total(b.stats, byQuantity) == Int64(since);
    assert |b.recorded| - b.base <= TWO_32 ==> Total(b.stats, byQuantity) == since;
  }

  lemma SumsAtRest(env: Env, seed: Items, actions: seq<Action>, byQuantity: bool)
    requires ValidItems(seed) && Quiescent(Run(env, Init(seed), actions).back)
    ensures var b := Run(env, Init(seed), actions).back;
      && |b.handled| == |b.stream.msgs| && b.base <= |b.recorded|
      && b.stats == Snapshot(Int64(SinceStart(b, false)), Int64(SinceStart(b, true)))
      && SinceStart(b, byQuantity)
         == SumBy(b.tables.orders, OrderWeight(byQuantity))
            + (Extra(b.stream.msgs, byQuantity) + Deliveries(b.stream.msgs, b.handled, Again, byQuantity))
            - BeforeStart(b, byQuantity)
  {
    ExactAccounting(env, seed, actions, byQuantity);
    NothingUnderWay(Run(env, Init(seed), actions).back, byQuantity);
  }

  /** So with every order published and handled exactly once, the snapshot at rest is the number of
      orders in the table and the sum of their quantities. */
  lemma TotalsMatchOrders(env: Env, seed: Items, actions: seq<Action>)
    requires ValidItems(seed) && Quiescent(Run(env, Init(seed), actions).back)
    requires OnceEach(env, Run(env, Init(seed), actions).back)
    requires |Run(env, Init(seed), actions).back.recorded| <= TWO_32
    ensures var b := Run(env, Init(seed), actions).back;
      b.stats == Snapshot(|b.tables.orders|, SumBy(b.tables.orders, OrderWeight(true)))
  {
    var b := Run(env, Init(seed), actions).back;
    ExactlyOnceConservation(env, seed, actions, false);
    ExactlyOnceConservation(env, seed, actions, true);
    NothingUnderWay(b, false);
    NothingUnderWay(b, true);
    OrdersAreCounted(b.tables.orders);
  }

  lemma {:induction false} OrdersAreCounted(orders: seq<Order>)
    ensures SumBy(orders, OrderWeight(false)) == |orders|
  {
    if orders != [] {
      OrdersAreCounted(orders[..|orders| - 1]);
      assert Weight(false)(EventFor(orders[|orders| - 1])) == 1;
    }
  }
}
