/** order-service/internal/order: the transactional store and the handler of POST /orders. */
module Orders {
  import opened Common
  import opened Outbox
  import opened InventoryClient
  import Inventory

  datatype Order = Order(id: string, sku: string, quantity: int)

  /** The orders and outbox_events tables, in commit order. */
  datatype Tables = Tables(orders: seq<Order>, outbox: seq<Row>)

  function EventFor(o: Order): OrderCreated {
    OrderCreated(o.id, o.sku, o.quantity)
  }

  /** Where a CreateOrder transaction ends, apart from the constraints: a commit, an error before
      it, an error of Commit without effect, or an error of a Commit that took effect. */
  datatype TxFate = Committed | BeginFails | OrderInsertFails | EventInsertFails | CommitFails | CommitUnknown

  /** The primary keys and CHECK (quantity > 0) on an INTEGER column. */
  predicate Insertable(t: Tables, o: Order, rowId: int) {
    && (forall x <- t.orders :: x.id != o.id)
    && (forall row <- t.outbox :: row.id != rowId)
    && 0 < o.quantity <= INT32_MAX
  }

  /** The transaction and whether CreateOrder reports success. */
  function Persist(t: Tables, o: Order, rowId: int, fate: TxFate): (Tables, bool) {
    if Insertable(t, o, rowId) && (fate.Committed? || fate.CommitUnknown?)
    then (Tables(t.orders + [o], t.outbox + [Row(rowId, EventFor(o), None)]), fate.Committed?)
    else (t, false)
  }

  datatype GetError = OrderNotFound | ReadFailed

  class OrderStore {
    var orders: seq<Order>
    var outbox: seq<Row>

    constructor (t: Tables)
      ensures State() == t
    {
      orders, outbox := t.orders, t.outbox;
    }

    function State(): Tables
      reads this
    {
      Tables(orders, outbox)
    }

    /** Two inserts in one transaction; the deferred rollback drops both unless it commits. */
    method CreateOrder(o: Order, event: OrderCreated, rowId: int, fate: TxFate) returns (ok: bool)
      requires event == EventFor(o)
      modifies this
      ensures (State(), ok) == Persist(old(State()), o, rowId, fate)
    {
      if fate.BeginFails? {
        return false;
      }
      if fate.OrderInsertFails? || (exists x <- orders :: x.id == o.id) || !(0 < o.quantity <= INT32_MAX) {
        return false;
      }
      var txOrders := orders + [o];
      if fate.EventInsertFails? || (exists row <- outbox :: row.id == rowId) {
        return false;
      }
      var txOutbox := outbox + [Row(rowId, event, None)];
      if fate.CommitFails? {
        return false;
      }
      orders, outbox := txOrders, txOutbox;
      ok := !fate.CommitUnknown?;
    }

    method GetOrder(id: string, readFails: bool) returns (r: Result<Order, GetError>)
      ensures r == Err(ReadFailed) <==> readFails
      ensures r.Ok? ==> r.value in orders && r.value.id == id
      ensures r == Err(OrderNotFound) ==> forall o <- orders :: o.id != id
    {
      if readFails {
        return Err(ReadFailed);
      }
      for k := 0 to |orders|
        invariant forall j :: 0 <= j < k ==> orders[j].id != id
      {
        if orders[k].id == id {
          return Ok(orders[k]);
        }
      }
      r := Err(OrderNotFound);
    }
  }

  /** The correspondence the transaction is there for: order k and outbox row k belong together,
      keys are unique, and every quantity is a positive INTEGER. */
  ghost predicate TablesOk(t: Tables) {
    && |t.orders| == |t.outbox|
    && DistinctIds(t.outbox)
    && (forall i, j :: 0 <= i < j < |t.orders| ==> t.orders[i].id != t.orders[j].id)
    && (forall k :: 0 <= k < |t.orders| ==>
          t.outbox[k].event == EventFor(t.orders[k]) && 0 < t.orders[k].quantity <= INT32_MAX)
  }

  /** The transaction with its constraints spelt out: it takes effect exactly if both ids are new,
      the quantity is a positive INTEGER and the commit goes through. */
  lemma PersistExactly(t: Tables, o: Order, rowId: int, fate: TxFate)
    ensures var fits := && (forall x <- t.orders :: x.id != o.id) && (forall row <- t.outbox :: row.id != rowId)
                        && 0 < o.quantity <= INT32_MAX;
      Persist(t, o, rowId, fate)
        == if fits && (fate.Committed? || fate.CommitUnknown?)
           then (Tables(t.orders + [o], t.outbox + [Row(rowId, OrderCreated(o.id, o.sku, o.quantity), None)]),
                 fate.Committed?)
           else (t, false)
  {
  }

  /** Both rows or neither; reported success means both; the one silent success is a Commit whose
      error hid its effect; and the correspondence is kept. */
  lemma PersistIsAtomic(t: Tables, o: Order, rowId: int, fate: TxFate)
    requires TablesOk(t)
    ensures var (t', ok) := Persist(t, o, rowId, fate);
      && TablesOk(t')
      && (t' == t || (t'.orders == t.orders + [o] && t'.outbox == t.outbox + [Row(rowId, EventFor(o), None)]))
      && (ok ==> t' != t)
      && (t' != t && !ok <==> fate.CommitUnknown? && Insertable(t, o, rowId))
      && (t' != t ==> Int32(o.quantity) == o.quantity)
  {
    var (t', _) := Persist(t, o, rowId, fate);
    if t' != t {
      assert forall k :: 0 <= k < |t.orders| ==> t.orders[k] in t.orders && t.outbox[k] in t.outbox;
    } else {
      assert Insertable(t, o, rowId) && (fate.Committed? || fate.CommitUnknown?) ==>
        |Persist(t, o, rowId, fate).0.orders| != |t.orders|;
    }
  }

  // ---------------------------------------------------------------- the handler

  datatype CreateOrderRequest = CreateOrderRequest(sku: string, quantity: int)

  predicate ValidBody(body: Option<CreateOrderRequest>) {
    body.Some? && body.value.sku != "" && body.value.quantity > 0
  }

  function StatusFor(e: ReserveError): nat {
    match e
    case ItemNotFound => 404
    case InsufficientStock => 409
    case CallFailed => 502
  }

  class Handler {
    const store: OrderStore

    constructor (store: OrderStore)
      ensures this.store == store
    {
      this.store := store;
    }

    /** Reserve first, then persist; nothing is written unless the reservation succeeded. */
    method CreateOrder(body: Option<CreateOrderRequest>, id: string, rowId: int, fate: TxFate,
                       server: (ReserveRequest, nat) -> Rpc, ctxDone: nat -> bool, draws: nat -> nat)
      returns (status: nat, reserved: Option<Result<Inventory.Item, ReserveError>>, calls: nat)
      modifies store
      ensures body.None? || body.value.sku == "" || body.value.quantity <= 0 ==>
        status == 400 && calls == 0 && reserved.None? && store.State() == old(store.State())
      ensures body.Some? && body.value.sku != "" && body.value.quantity > 0 ==>
        var (sku, quantity) := (body.value.sku, body.value.quantity);
        var request := ReserveRequest(sku, Int32(quantity));
        && reserved.Some?
        && ReserveTrace((k: nat) => server(request, k), ctxDone, reserved.value, calls)
        && match server(request, calls - 1).reply.code
           case OK =>
             var (t', ok) := Persist(old(store.State()), Order(id, sku, quantity), rowId, fate);
             store.State() == t' && status == if ok then 201 else 500
           case NotFound => status == 404 && store.State() == old(store.State())
           case FailedPrecondition => status == 409 && store.State() == old(store.State())
           case _ => status == 502 && store.State() == old(store.State())
    {
      if body.None? {
        return 400, None, 0;
      }
      var req := body.value;
      if req.sku == "" || req.quantity <= 0 {
        return 400, None, 0;
      }
      var r, n := Reserve(req.sku, req.quantity, server, ctxDone, draws);
      reserved, calls := Some(r), n;
      match r {
        case Err(ItemNotFound) =>
          return 404, reserved, calls;
        case Err(InsufficientStock) =>
          return 409, reserved, calls;
        case Err(CallFailed) =>
          return 502, reserved, calls;
        case Ok(_) =>
      }
      var o := Order(id, req.sku, req.quantity);
      var ok := store.CreateOrder(o, OrderCreated(o.id, o.sku, o.quantity), rowId, fate);
      status := if ok then 201 else 500;
    }
  }

  /** What the status of a request says, when Unavailable means unsent: 201 is one reservation of
      exactly the ordered quantity, one order and its event; 404 and 409 mean nothing happened
      anywhere; only 500 can leave stock taken without an order. */
  lemma {:induction false} StatusMeaning(t: Tables, t': Tables, body: CreateOrderRequest, id: string, rowId: int,
                                         fate: TxFate, rpcs: nat -> Rpc, ctxDone: nat -> bool,
                                         r: Result<Inventory.Item, ReserveError>, calls: nat, status: nat)
    requires TablesOk(t)
    requires ReserveTrace(rpcs, ctxDone, r, calls)
    requires forall k :: 0 <= k < calls ==> Truthful(rpcs(k)) && UnavailableMeansUnsent(rpcs(k))
    requires match r
             case Err(e) => status == StatusFor(e) && t' == t
             case Ok(_) =>
               var (p, ok) := Persist(t, Order(id, body.sku, body.quantity), rowId, fate);
               t' == p && status == if ok then 201 else 500
    ensures status == 201 ==>
      && Commits(rpcs, calls) == 1 && Int32(body.quantity) == body.quantity
      && t' == Tables(t.orders + [Order(id, body.sku, body.quantity)],
                      t.outbox + [Row(rowId, OrderCreated(id, body.sku, body.quantity), None)])
    ensures status == 404 || status == 409 ==> Commits(rpcs, calls) == 0 && t' == t
    ensures status == 500 ==> Commits(rpcs, calls) == 1
    ensures Commits(rpcs, calls) == 1 && t' == t ==> status == 500 || status == 502
  {
    AtMostOnce(rpcs, ctxDone, r, calls);
    PersistIsAtomic(t, Order(id, body.sku, body.quantity), rowId, fate);
  }
}
