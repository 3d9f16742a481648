/** The pipeline from POST /orders to the analytics totals as one state machine: one step for each
    atomic action of a database, the broker, a relay, a consumer or the network, in any order.
    The steps are built from the same functions the sequential methods are proved against. */
module Protocol {
  import opened Common
  import opened MessageId
  import opened Inventory
  import opened InventoryClient
  import opened Outbox
  import opened Broker
  import opened Orders
  import opened Analytics
  import Relay

  /** Whether Unavailable always means that the request never reached the server, and the
      broker's deduplication window. */
  datatype Env = Env(strictUnavailable: bool, window: nat)

  // ---------------------------------------------------------------- requests and stock

  /** Where one POST /orders request is. */
  datatype Phase =
    | Calling                                   // an RPC is being sent
    | Missed                                    // the UPDATE matched no row; the follow-up read is next
    | Answered(code: Code)                      // the server has replied
    | Waiting                                   // backing off before the next attempt
    | Reserved                                  // Reserve returned no error
    | Done(status: nat, order: Option<Order>)   // responded; the order it persisted, if any
    | Dead                                      // the service crashed

  /** A request with the RPCs it has begun, the reservations committed for it, and the RPCs its
      client gave up on that may still reach the server. */
  datatype Request = Request(sku: string, quantity: int, phase: Phase, attempts: nat, commits: nat, abandoned: nat) {
    /** The quantity its RPCs carry. */
    function Narrowed(): int {
      Int32(quantity)
    }
  }

  datatype RequestStep =
    | Execute(fault: Fault)
    | FollowUp(readFails: bool)
    | Receive
    | Unsent(code: Code)
    | Abandon(code: Code)
    | Lose(code: Code)
    | ExecuteLate(fault: Fault)
    | Retry
    | Cancel
    | Die

  /** Codes the client's transport can produce by itself. */
  predicate TransportCode(code: Code) {
    code in {Canceled, Unknown, DeadlineExceeded, Internal, Unavailable}
  }

  /** The transport may give up with this code on an RPC that reached, or may reach, the server. */
  predicate MayHideExecution(env: Env, code: Code) {
    TransportCode(code) && (env.strictUnavailable ==> code != Unavailable)
  }

  /** The client has the outcome of an attempt. */
  function Got(r: Request, code: Code): Request {
    if code == OK then r.(phase := Reserved)
    else if IsRetryableStatus(code) && r.attempts < RESERVE_RETRY.maxAttempts then r.(phase := Waiting)
    else r.(phase := Done(StatusFor(ErrorFor(code)), None))
  }

  /** The UPDATE took stock for this request, whatever the server then learns. */
  predicate TakesStock(items: Items, r: Request, fault: Fault) {
    !fault.NotRun? && Update(items, Write.Reserve(r.sku, r.Narrowed())).1.Returned?
  }

  /** The server runs the UPDATE for one RPC of this request. */
  function Serve(items: Items, r: Request, fault: Fault): (Items, Request, UpdateResult) {
    var (after, updated) := FaultyUpdate(items, Write.Reserve(r.sku, r.Narrowed()), fault);
    (after, if TakesStock(items, r, fault) then r.(commits := r.commits + 1) else r, updated)
  }

  /** One step of one request; a step its phase does not allow changes nothing. */
  function Advance(env: Env, items: Items, r: Request, step: RequestStep): (Items, Request) {
    match step
    case Execute(fault) =>
      if !r.phase.Calling? then (items, r)
      else if !ValidRequest(r.sku, r.Narrowed()) then (items, r.(phase := Answered(InvalidArgument)))
      else
        var (after, r', updated) := Serve(items, r, fault);
        (after, match updated
                case Returned(_) => r'.(phase := Answered(OK))
                case Failed => r'.(phase := Answered(Internal))
                case NoRows => r'.(phase := Missed))
    case FollowUp(readFails) =>
      if !r.phase.Missed? then (items, r)
      else if ReadItem(items, r.sku, readFails) == Err(ErrNotFound) then (items, r.(phase := Answered(NotFound)))
      else (items, r.(phase := Answered(FailedPrecondition)))
    case Receive =>
      if !r.phase.Answered? then (items, r) else (items, Got(r, r.phase.code))
    case Unsent(code) =>
      if !(r.phase.Calling? && TransportCode(code)) then (items, r) else (items, Got(r, code))
    case Abandon(code) =>
      if !(r.phase.Calling? && MayHideExecution(env, code)) then (items, r)
      else (items, Got(r.(abandoned := r.abandoned + 1), code))
    case Lose(code) =>
      if !((r.phase.Missed? || r.phase.Answered?) && MayHideExecution(env, code)) then (items, r)
      else (items, Got(r, code))
    case ExecuteLate(fault) =>
      if r.abandoned == 0 || !ValidRequest(r.sku, r.Narrowed()) then (items, r)
      else
        var (after, r', _) := Serve(items, r, fault);
        (after, r'.(abandoned := r.abandoned - 1))
    case Retry =>
      if !r.phase.Waiting? then (items, r) else (items, r.(phase := Calling, attempts := r.attempts + 1))
    case Cancel =>
      if !r.phase.Waiting? then (items, r) else (items, r.(phase := Done(StatusFor(CallFailed), None)))
    case Die =>
      if r.phase.Done? then (items, r)
      else (items, r.(phase := Dead, abandoned := if r.phase.Calling? then r.abandoned + 1 else r.abandoned))
  }

  /** The inventory database, the restocks it accepted, and every request so far. */
  datatype Front = Front(items: Items, restocks: seq<Write>, requests: seq<Request>)

  datatype FrontAction =
    | Arrive(sku: string, quantity: int)
    | RestockItem(sku: string, quantity: int, fault: Fault)
    | OnRequest(r: nat, step: RequestStep)

  function NewRequest(sku: string, quantity: int): Request {
    if ValidBody(Some(CreateOrderRequest(sku, quantity)))
    then Request(sku, quantity, Calling, 1, 0, 0)
    else Request(sku, quantity, Done(400, None), 0, 0, 0)
  }

  function FrontNext(env: Env, f: Front, a: FrontAction): Front {
    match a
    case Arrive(sku, quantity) => f.(requests := f.requests + [NewRequest(sku, quantity)])
    case RestockItem(sku, quantity, fault) =>
      var w := Write.Restock(sku, quantity);
      if quantity <= 0 || fault.NotRun? || !Update(f.items, w).1.Returned? then f
      else f.(items := Update(f.items, w).0, restocks := f.restocks + [w])
    case OnRequest(r, step) =>
      if r >= |f.requests| then f
      else
        var (items, next) := Advance(env, f.items, f.requests[r], step);
        f.(items := items, requests := f.requests[r := next])
  }

  // ---------------------------------------------------------------- events

  /** A relay between two of its steps: about to publish, or to mark, the head of its batch. */
  datatype RelayPhase = Publishing(batch: seq<Row>) | Marking(batch: seq<Row>)

  /** A relay sends a publish. */
  datatype Attempt = Attempt(rowId: int, at: int)

  /** The broker receives one, possibly long after the relay gave up on it. */
  datatype Arrival = Arrival(id: string, sentAt: int, at: int)

  /** The order database, the relays, the broker and the consumer. `attempts` lists the publishes
      so far, `arrivals` those the broker has received; `handled` counts the deliveries of each
      message that were recorded, which may go on after its ack if they were buffered; `recorded`
      lists them in order, and `base` is how many precede the consumer's last start. */
  datatype Back = Back(
    tables: Tables, relays: map<nat, RelayPhase>, stream: Stream,
    attempts: seq<Attempt>, arrivals: seq<Arrival>,
    handled: seq<nat>, acked: set<nat>, recorded: seq<OrderCreated>, base: nat, stats: Snapshot, now: int)

  datatype BackAction =
    | FetchBatch(relay: nat)
    | PublishHead(relay: nat, fate: Fate)
    | MarkHead(relay: nat, fault: Fault)
    | LandLate(sent: nat)
    | CrashRelay(relay: nat)
    | Tick(duration: nat)
    | Forget(id: string)
    | Handle(message: nat)
    | Ack(message: nat)
    | RestartConsumer

  function BackNext(env: Env, b: Back, a: BackAction): Back {
    match a
    case FetchBatch(relay) =>
      if relay in b.relays && b.relays[relay] != Publishing([]) then b
      else b.(relays := b.relays[relay := Publishing(Fetch(b.tables.outbox, Relay.BATCH_SIZE))])
    case PublishHead(relay, fate) =>
      if relay !in b.relays || !b.relays[relay].Publishing? || b.relays[relay].batch == [] then b
      else
        var (batch, row) := (b.relays[relay].batch, b.relays[relay].batch[0]);
        var stream := PublishTo(b.stream, MsgId(row.id), row.event, b.now, fate);
        b.(stream := stream,
           handled := if |stream.msgs| > |b.stream.msgs| then b.handled + [0] else b.handled,
           attempts := b.attempts + [Attempt(row.id, b.now)],
           arrivals := if Reached(fate) then b.arrivals + [Arrival(MsgId(row.id), b.now, b.now)] else b.arrivals,
           relays := b.relays[relay := if fate.Acked? then Marking(batch) else Publishing(batch[1..])])
    case MarkHead(relay, fault) =>
      if relay !in b.relays || !b.relays[relay].Marking? || b.relays[relay].batch == [] then b
      else
        var batch := b.relays[relay].batch;
        var marked := if fault.NotRun? then b.tables.outbox else MarkRow(b.tables.outbox, batch[0].id, b.now);
        b.(tables := b.tables.(outbox := marked),
           relays := b.relays[relay := Publishing(batch[1..])])
    case LandLate(k) =>
      if k >= |b.stream.inFlight| then b
      else
        var (sent, stream) := (b.stream.inFlight[k], Land(b.stream, k, b.now));
        b.(stream := stream,
           handled := if |stream.msgs| > |b.stream.msgs| then b.handled + [0] else b.handled,
           arrivals := b.arrivals + [Arrival(sent.id, sent.at, b.now)])
    case CrashRelay(relay) => b.(relays := b.relays - {relay})
    case Tick(duration) => b.(now := b.now + duration)
    case Forget(id) =>
      if id !in b.stream.dedup || b.now < b.stream.dedup[id] + env.window then b
      else b.(stream := b.stream.(dedup := b.stream.dedup - {id}))
    case Handle(message) =>
      if message >= |b.stream.msgs| || message >= |b.handled| then b
      else
        var event := b.stream.msgs[message].event;
        b.(handled := b.handled[message := b.handled[message] + 1],
           recorded := b.recorded + [event],
           stats := Recorded(b.stats, event.quantity))
    case Ack(message) =>
      if message >= |b.handled| || b.handled[message] == 0 then b else b.(acked := b.acked + {message})
    case RestartConsumer => b.(base := |b.recorded|, stats := EMPTY)
  }

  // ---------------------------------------------------------------- the whole system

  datatype State = State(front: Front, back: Back)

  datatype Action =
    | FrontStep(front: FrontAction)
    | BackStep(back: BackAction)
    | PersistOrder(r: nat, orderId: string, rowId: int, fate: TxFate)

  function Init(seed: Items): State {
    State(Front(seed, [], []),
          Back(Tables([], []), map[], Stream([], map[], []), [], [], [], {}, [], 0, EMPTY, 0))
  }

  function Next(env: Env, s: State, a: Action): State {
    match a
    case FrontStep(front) => s.(front := FrontNext(env, s.front, front))
    case BackStep(back) => s.(back := BackNext(env, s.back, back))
    case PersistOrder(i, orderId, rowId, fate) =>
      if i >= |s.front.requests| || !s.front.requests[i].phase.Reserved? then s
      else
        var r := s.front.requests[i];
        var o := Order(orderId, r.sku, r.quantity);
        var (tables, ok) := Persist(s.back.tables, o, rowId, fate);
        var order := if |tables.orders| > |s.back.tables.orders| then Some(o) else None;
        var done := r.(phase := Done(if ok then 201 else 500, order));
        State(s.front.(requests := s.front.requests[i := done]), s.back.(tables := tables))
  }

  /** Any sequence of actions is a run: an action that is not possible is passed over. */
  function Run(env: Env, s: State, actions: seq<Action>): State {
    if actions == [] then s
    else Next(env, Run(env, s, actions[..|actions| - 1]), actions[|actions| - 1])
  }

  lemma {:induction false} RunConcat(env: Env, s: State, xs: seq<Action>, ys: seq<Action>)
    ensures Run(env, s, xs + ys) == Run(env, Run(env, s, xs), ys)
  {
    if ys == [] {
      assert xs + ys == xs;
    } else {
      assert (xs + ys)[..|xs + ys| - 1] == xs + ys[..|ys| - 1];
      RunConcat(env, s, xs, ys[..|ys| - 1]);
    }
  }

  /** The first action, then the rest. */
  lemma RunFirst(env: Env, s: State, a: Action, rest: seq<Action>)
    ensures Run(env, s, [a] + rest) == Run(env, Next(env, s, a), rest)
  {
    RunConcat(env, s, [a], rest);
    assert [a][..0] == [];
    assert Run(env, s, [a]) == Next(env, s, a);
  }
}
