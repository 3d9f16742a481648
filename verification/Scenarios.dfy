/** Runs that show why each stated condition is needed, and the relay's poll as a run of the system. */
module Scenarios {
  import opened Common
  import opened MessageId
  import opened Inventory
  import opened InventoryClient
  import opened Outbox
  import opened Broker
  import opened Orders
  import opened Protocol
  import opened StockSafety
  import Relay

  // ---------------------------------------------------------------- steps of relays and broker alone

  function BackRun(env: Env, b: Back, actions: seq<BackAction>): Back
    decreases |actions|
  {
    if actions == [] then b else BackRun(env, BackNext(env, b, actions[0]), actions[1..])
  }

  function BackSteps(actions: seq<BackAction>): seq<Action> {
    seq(|actions|, i requires 0 <= i < |actions| => BackStep(actions[i]))
  }

  lemma {:induction false} BackRunIsRun(env: Env, s: State, actions: seq<BackAction>)
    ensures Run(env, s, BackSteps(actions)) == s.(back := BackRun(env, s.back, actions))
    decreases |actions|
  {
    if actions != [] {
      assert BackSteps(actions) == [BackStep(actions[0])] + BackSteps(actions[1..]);
      RunFirst(env, s, BackStep(actions[0]), BackSteps(actions[1..]));
      BackRunIsRun(env, Next(env, s, BackStep(actions[0])), actions[1..]);
    }
  }

  lemma {:induction false} BackRunConcat(env: Env, b: Back, xs: seq<BackAction>, ys: seq<BackAction>)
    ensures BackRun(env, b, xs + ys) == BackRun(env, BackRun(env, b, xs), ys)
    decreases |xs|
  {
    if xs == [] {
      assert xs + ys == ys;
    } else {
      assert (xs + ys)[1..] == xs[1..] + ys;
      BackRunConcat(env, BackNext(env, b, xs[0]), xs[1..], ys);
    }
  }

  lemma BackRunTwo(env: Env, b: Back, x: BackAction, y: BackAction)
    ensures BackRun(env, b, [x, y]) == BackNext(env, BackNext(env, b, x), y)
  {
    var b1 := BackNext(env, b, x);
    assert [x, y][1..] == [y] && [y][1..] == [];
    assert BackRun(env, b1, [y]) == BackRun(env, BackNext(env, b1, y), []);
  }

  // ---------------------------------------------------------------- the relay's poll is a run

  /** The end of a row's turn in the batch loop. */
  function TurnEnd(id: int, course: Relay.Course): int {
    if course.publish(id).Acked? then course.markAt(id) else course.publishAt(id)
  }

  /** Time does not run backwards along the batch. */
  predicate InOrder(batch: seq<Row>, now: int, course: Relay.Course)
    decreases |batch|
  {
    batch != [] ==>
      var id := batch[0].id;
      && now <= course.publishAt(id) <= TurnEnd(id, course)
      && InOrder(batch[1..], TurnEnd(id, course), course)
  }

  /** The relay's steps for one row: each in its own time. */
  function PublishActions(relay: nat, id: int, course: Relay.Course, now: int): seq<BackAction>
    requires now <= course.publishAt(id)
  {
    [Tick(course.publishAt(id) - now), PublishHead(relay, course.publish(id))]
  }

  function MarkActions(relay: nat, id: int, course: Relay.Course): seq<BackAction>
    requires course.publishAt(id) <= TurnEnd(id, course)
  {
    if course.publish(id).Acked?
    then [Tick(course.markAt(id) - course.publishAt(id)), MarkHead(relay, course.mark(id))]
    else []
  }

  function BatchActions(relay: nat, batch: seq<Row>, course: Relay.Course, now: int): seq<BackAction>
    requires InOrder(batch, now, course)
    decreases |batch|
  {
    if batch == [] then []
    else
      var id := batch[0].id;
      (PublishActions(relay, id, course, now) + MarkActions(relay, id, course))
      + BatchActions(relay, batch[1..], course, TurnEnd(id, course))
  }

  function WorldOf(b: Back): Relay.World {
    Relay.World(b.tables.outbox, b.stream)
  }

  /** One publish per row, in order. */
  function AttemptsOf(batch: seq<Row>, course: Relay.Course): seq<Attempt> {
    if batch == [] then []
    else [Attempt(batch[0].id, course.publishAt(batch[0].id))] + AttemptsOf(batch[1..], course)
  }

  /** Only the outbox, the stream and the bookkeeping of publishing may differ. */
  ghost predicate SameElsewhere(b: Back, b': Back) {
    && b'.tables.orders == b.tables.orders
    && b'.recorded == b.recorded && b'.base == b.base && b'.stats == b.stats
    && b'.acked == b.acked
  }

  lemma PublishIsStep(env: Env, b: Back, relay: nat, batch: seq<Row>, course: Relay.Course)
    requires batch != [] && relay in b.relays && b.relays[relay] == Publishing(batch)
    requires b.now <= course.publishAt(batch[0].id)
    ensures var (id, b') := (batch[0].id, BackRun(env, b, PublishActions(relay, batch[0].id, course, b.now)));
      && b'.stream == PublishTo(b.stream, MsgId(id), batch[0].event, course.publishAt(id), course.publish(id))
      && b'.tables == b.tables && b'.now == course.publishAt(id)
      && b'.attempts == b.attempts + [Attempt(id, course.publishAt(id))]
      && relay in b'.relays
      && b'.relays[relay] == (if course.publish(id).Acked? then Marking(batch) else Publishing(batch[1..]))
      && SameElsewhere(b, b')
  {
    BackRunTwo(env, b, Tick(course.publishAt(batch[0].id) - b.now), PublishHead(relay, course.publish(batch[0].id)));
  }

  lemma MarkIsStep(env: Env, b: Back, relay: nat, batch: seq<Row>, course: Relay.Course)
    requires batch != [] && relay in b.relays
    requires b.now == course.publishAt(batch[0].id) <= TurnEnd(batch[0].id, course)
    requires b.relays[relay] == if course.publish(batch[0].id).Acked? then Marking(batch) else Publishing(batch[1..])
    ensures var (id, b') := (batch[0].id, BackRun(env, b, MarkActions(relay, batch[0].id, course)));
      && b'.tables.outbox == (if course.publish(id).Acked? && !course.mark(id).NotRun?
                              then MarkRow(b.tables.outbox, id, course.markAt(id)) else b.tables.outbox)
      && b'.stream == b.stream && b'.now == TurnEnd(id, course) && b'.attempts == b.attempts
      && relay in b'.relays && b'.relays[relay] == Publishing(batch[1..])
      && SameElsewhere(b, b')
  {
    if course.publish(batch[0].id).Acked? {
      BackRunTwo(env, b, Tick(course.markAt(batch[0].id) - course.publishAt(batch[0].id)),
                 MarkHead(relay, course.mark(batch[0].id)));
    }
  }

  /** One turn of the batch loop, as protocol steps. */
  lemma AttemptIsRun(env: Env, b: Back, relay: nat, batch: seq<Row>, course: Relay.Course)
    requires batch != [] && relay in b.relays && b.relays[relay] == Publishing(batch)
    requires InOrder(batch, b.now, course)
    ensures var id := batch[0].id;
      var b' := BackRun(env, b, PublishActions(relay, id, course, b.now) + MarkActions(relay, id, course));
      && WorldOf(b') == Relay.Attempt(WorldOf(b), batch[0], course)
      && relay in b'.relays && b'.relays[relay] == Publishing(batch[1..])
      && b'.attempts == b.attempts + [Attempt(id, course.publishAt(id))]
      && b'.now == TurnEnd(id, course)
      && SameElsewhere(b, b')
  {
    var id := batch[0].id;
    var b1 := BackRun(env, b, PublishActions(relay, id, course, b.now));
    BackRunConcat(env, b, PublishActions(relay, id, course, b.now), MarkActions(relay, id, course));
    PublishIsStep(env, b, relay, batch, course);
    MarkIsStep(env, b1, relay, batch, course);
  }

  lemma {:induction false} BatchIsRun(env: Env, b: Back, relay: nat, batch: seq<Row>, course: Relay.Course)
    requires relay in b.relays && b.relays[relay] == Publishing(batch)
    requires InOrder(batch, b.now, course)
    ensures var b' := BackRun(env, b, BatchActions(relay, batch, course, b.now));
      && WorldOf(b') == Relay.AttemptAll(WorldOf(b), batch, course)
      && relay in b'.relays && b'.relays[relay] == Publishing([])
      && b'.attempts == b.attempts + AttemptsOf(batch, course)
      && SameElsewhere(b, b')
    decreases |batch|
  {
    if batch != [] {
      var id := batch[0].id;
      var turn := PublishActions(relay, id, course, b.now) + MarkActions(relay, id, course);
      var b1 := BackRun(env, b, turn);
      BackRunConcat(env, b, turn, BatchActions(relay, batch[1..], course, TurnEnd(id, course)));
      AttemptIsRun(env, b, relay, batch, course);
      BatchIsRun(env, b1, relay, batch[1..], course);
      Regroup(b.attempts, [Attempt(id, course.publishAt(id))], AttemptsOf(batch[1..], course));
    }
  }

  lemma Regroup<T>(a: seq<T>, b: seq<T>, c: seq<T>)
    ensures (a + b) + c == a + (b + c)
  {
  }

  /** A poll's steps: the fetch, if it works, then the batch. */
  function PollActions(relay: nat, w: Relay.World, course: Relay.Course, now: int): seq<BackAction>
    requires InOrder(Relay.Fetched(w, course), now, course)
  {
    if course.fetchFails then [] else [FetchBatch(relay)] + BatchActions(relay, Relay.Fetched(w, course), course, now)
  }

  /** What publishPending does to the table and the stream is what a sequence of the protocol's own
      steps does, publishing each fetched row once, in order and in its own time, so everything
      proved of every run holds of it. */
  lemma PollIsRun(env: Env, s: State, relay: nat, course: Relay.Course)
    requires relay in s.back.relays ==> s.back.relays[relay] == Publishing([])
    requires InOrder(Relay.Fetched(WorldOf(s.back), course), s.back.now, course)
    ensures var s' := Run(env, s, BackSteps(PollActions(relay, WorldOf(s.back), course, s.back.now)));
      && s'.front == s.front
      && WorldOf(s'.back) == Relay.Poll(WorldOf(s.back), course)
      && s'.back.attempts == s.back.attempts + AttemptsOf(Relay.Fetched(WorldOf(s.back), course), course)
      && SameElsewhere(s.back, s'.back)
  {
    var b, actions := s.back, PollActions(relay, WorldOf(s.back), course, s.back.now);
    BackRunIsRun(env, s, actions);
    if course.fetchFails {
      assert b.attempts + [] == b.attempts;
    } else {
      var batch := Relay.Fetched(WorldOf(b), course);
      assert actions[1..] == BatchActions(relay, batch, course, b.now);
      BatchIsRun(env, BackNext(env, b, FetchBatch(relay)), relay, batch, course);
    }
  }

  // ---------------------------------------------------------------- why the conditions are needed

  function Req(r: nat, step: RequestStep): Action {
    FrontStep(OnRequest(r, step))
  }

  /** A list of successive states is the run. */
  lemma {:induction false} RunThrough(env: Env, s: State, actions: seq<Action>, states: seq<State>)
    requires |states| == |actions| + 1 && states[0] == s
    requires forall k :: 0 <= k < |actions| ==> states[k + 1] == Next(env, states[k], actions[k])
    ensures Run(env, s, actions) == states[|actions|]
  {
    if actions != [] {
      RunThrough(env, s, actions[..|actions| - 1], states[..|actions|]);
    }
  }

  /** If Unavailable may follow an execution, one order can take stock twice. */
  function DoubleReservation(sku: string, quantity: int, orderId: string): seq<Action> {
    [FrontStep(Arrive(sku, quantity)), Req(0, Execute(NoFault)), Req(0, Lose(Unavailable)), Req(0, Retry),
     Req(0, Execute(NoFault)), Req(0, Receive), PersistOrder(0, orderId, 1, Committed)]
  }

  lemma DoubleReservationHappens(seed: Items, sku: string, quantity: int, orderId: string, window: nat)
    requires ValidItems(seed) && sku != "" && 0 < quantity && sku in seed && seed[sku].quantity >= 2 * quantity
    ensures var s := Run(Env(false, window), Init(seed), DoubleReservation(sku, quantity, orderId));
      && |s.front.requests| == 1 && s.front.requests[0].commits == 2
      && s.front.requests[0].phase == Done(201, Some(Order(orderId, sku, quantity)))
      && s.back.tables.orders == [Order(orderId, sku, quantity)]
      && Stock(s.front.items, sku) == Stock(seed, sku) - 2 * quantity
  {
    var env := Env(false, window);
    var s := TakenAndLost(env, seed, sku, quantity);
    TakenAgain(env, s, orderId);
    var first := [FrontStep(Arrive(sku, quantity)), Req(0, Execute(NoFault)), Req(0, Lose(Unavailable)), Req(0, Retry)];
    var second := [Req(0, Execute(NoFault)), Req(0, Receive), PersistOrder(0, orderId, 1, Committed)];
    assert DoubleReservation(sku, quantity, orderId) == first + second;
    RunConcat(env, Init(seed), first, second);
  }

  /** Stock is taken, the answer is lost as Unavailable, and the client tries again. */
  lemma TakenAndLost(env: Env, seed: Items, sku: string, quantity: int) returns (s: State)
    requires !env.strictUnavailable
    requires ValidItems(seed) && sku != "" && 0 < quantity && sku in seed && seed[sku].quantity >= quantity
    ensures s == Run(env, Init(seed), [FrontStep(Arrive(sku, quantity)), Req(0, Execute(NoFault)),
                                       Req(0, Lose(Unavailable)), Req(0, Retry)])
    ensures s == OneRequest(Init(seed), s.front.items, Request(sku, quantity, Calling, 2, 1, 0))
    ensures ValidItems(s.front.items) && sku in s.front.items
    ensures s.front.items[sku].quantity == seed[sku].quantity - quantity
  {
    var s0 := Init(seed);
    var s1 := OneRequest(s0, seed, Request(sku, quantity, Calling, 1, 0, 0));
    assert Next(env, s0, FrontStep(Arrive(sku, quantity))) == s1;
    var s2 := TakeOnce(env, s1);
    var s3 := Next(env, s2, Req(0, Lose(Unavailable)));
    s := OneRequest(s0, s2.front.items, Request(sku, quantity, Calling, 2, 1, 0));
    LostAndRetried(env, s2);
    RunThrough(env, s0, [FrontStep(Arrive(sku, quantity)), Req(0, Execute(NoFault)),
                         Req(0, Lose(Unavailable)), Req(0, Retry)], [s0, s1, s2, s3, s]);
  }

  /** The second try takes it again, and the order is persisted. */
  lemma TakenAgain(env: Env, s: State, orderId: string)
    requires |s.front.requests| == 1 && ValidItems(s.front.items) && s.back.tables == Tables([], [])
    requires var r := s.front.requests[0];
      && r.phase.Calling? && r.sku != "" && 0 < r.quantity
      && r.sku in s.front.items && r.quantity <= s.front.items[r.sku].quantity
    ensures var r := s.front.requests[0];
      var s' := Run(env, s, [Req(0, Execute(NoFault)), Req(0, Receive), PersistOrder(0, orderId, 1, Committed)]);
      var o := Order(orderId, r.sku, r.quantity);
      && s'.front.requests == [r.(phase := Done(201, Some(o)), commits := r.commits + 1)]
      && s'.back.tables.orders == [o]
      && Stock(s'.front.items, r.sku) == Stock(s.front.items, r.sku) - r.quantity
  {
    var r := s.front.requests[0];
    var s1 := TakeOnce(env, s);
    var s2 := OneRequest(s, s1.front.items, r.(phase := Reserved, commits := r.commits + 1));
    assert Next(env, s1, Req(0, Receive)) == s2;
    PersistOnly(env, s2, orderId);
    var s3 := Next(env, s2, PersistOrder(0, orderId, 1, Committed));
    RunThrough(env, s, [Req(0, Execute(NoFault)), Req(0, Receive), PersistOrder(0, orderId, 1, Committed)],
               [s, s1, s2, s3]);
  }

  /** The answer is lost as Unavailable, and the client tries again. */
  lemma LostAndRetried(env: Env, s: State)
    requires !env.strictUnavailable && |s.front.requests| == 1
    requires s.front.requests[0].phase == Answered(OK) && s.front.requests[0].attempts == 1
    ensures Next(env, Next(env, s, Req(0, Lose(Unavailable))), Req(0, Retry))
         == OneRequest(s, s.front.items, s.front.requests[0].(phase := Calling, attempts := 2))
  {
  }

  lemma PersistOnly(env: Env, s: State, orderId: string)
    requires |s.front.requests| == 1 && s.front.requests[0].phase.Reserved?
    requires s.back.tables == Tables([], []) && 0 < s.front.requests[0].quantity <= INT32_MAX
    ensures var r := s.front.requests[0];
      var (s', o) := (Next(env, s, PersistOrder(0, orderId, 1, Committed)), Order(orderId, r.sku, r.quantity));
      && s'.front == s.front.(requests := [r.(phase := Done(201, Some(o)))])
      && s'.back.tables.orders == [o]
  {
  }

  /** The only request of the system, and the table. */
  function OneRequest(s: State, items: Items, r: Request): State {
    s.(front := s.front.(items := items, requests := [r]))
  }

  /** The UPDATE takes the stock of the only request. */
  lemma TakeOnce(env: Env, s: State) returns (s': State)
    requires |s.front.requests| == 1 && ValidItems(s.front.items)
    requires var r := s.front.requests[0];
      && r.phase.Calling? && r.sku != "" && 0 < r.quantity
      && r.sku in s.front.items && r.quantity <= s.front.items[r.sku].quantity
    ensures s' == Next(env, s, Req(0, Execute(NoFault)))
    ensures var r := s.front.requests[0];
      && s' == OneRequest(s, s'.front.items, r.(phase := Answered(OK), commits := r.commits + 1))
      && ValidItems(s'.front.items) && r.sku in s'.front.items
      && s'.front.items[r.sku].quantity == s.front.items[r.sku].quantity - r.quantity
  {
    s' := Next(env, s, Req(0, Execute(NoFault)));
  }

  /** A reservation, then a transaction that ends as given. */
  function OneOrder(sku: string, quantity: int, orderId: string, fate: TxFate): seq<Action> {
    [FrontStep(Arrive(sku, quantity)), Req(0, Execute(NoFault)), Req(0, Receive), PersistOrder(0, orderId, 1, fate)]
  }

  /** A 500 may hide stock taken without an order, or a persisted order; and a quantity that int32
      cannot hold can take a few items for an order that can never be stored. */
  lemma OneOrderOutcome(env: Env, seed: Items, sku: string, quantity: int, orderId: string, fate: TxFate)
    requires ValidItems(seed) && sku != "" && 0 < quantity
    requires sku in seed && 0 < Int32(quantity) <= seed[sku].quantity
    ensures var s := Run(env, Init(seed), OneOrder(sku, quantity, orderId, fate));
      var stored := quantity <= INT32_MAX && (fate.Committed? || fate.CommitUnknown?);
      && Stock(s.front.items, sku) == Stock(seed, sku) - Int32(quantity)
      && s.back.tables.orders == (if stored then [Order(orderId, sku, quantity)] else [])
      && s.back.tables.outbox == (if stored then [Row(1, OrderCreated(orderId, sku, quantity), None)] else [])
      && s.back == Init(seed).back.(tables := s.back.tables)
      && |s.front.requests| == 1
      && s.front.requests[0].phase == Done(if stored && fate.Committed? then 201 else 500,
                                           if stored then Some(Order(orderId, sku, quantity)) else None)
  {
    var actions := OneOrder(sku, quantity, orderId, fate);
    var s0 := Init(seed);
    var s1 := Next(env, s0, actions[0]);
    var s2 := Next(env, s1, actions[1]);
    var s3 := Next(env, s2, actions[2]);
    var s4 := Next(env, s3, actions[3]);
    assert s3.front.requests == [Request(sku, quantity, Reserved, 1, 1, 0)];
    RunThrough(env, s0, actions, [s0, s1, s2, s3, s4]);
  }

  lemma FetchOne(row: Row)
    requires row.publishedAt.None?
    ensures Fetch([row], Relay.BATCH_SIZE) == [row]
  {
    assert [row][..0] == [];
    assert Unpublished([row]) == [row];
    assert SortById([row]) == InsertById(row, SortById([]));
  }

  ghost predicate Closed(env: Env, states: iset<Back>) {
    forall b, a :: b in states ==> BackNext(env, b, a) in states
  }

  /** Some steps of relays and broker lead from one state to the other: whatever is closed under
      steps and has the one has the other. */
  ghost predicate Reaches(env: Env, b: Back, b': Back) {
    forall states: iset<Back> :: Closed(env, states) && b in states ==> b' in states
  }

  lemma ReachesTwo(env: Env, b: Back, x: BackAction, y: BackAction)
    ensures Reaches(env, b, BackNext(env, BackNext(env, b, x), y))
  {
  }

  lemma ReachesOn(env: Env, b: Back, b': Back, b'': Back)
    requires Reaches(env, b, b') && Reaches(env, b', b'')
    ensures Reaches(env, b, b'')
  {
  }

  /** The states that runs from here end in are closed under steps. */
  lemma ReachedByRun(env: Env, b: Back, b': Back) returns (actions: seq<BackAction>)
    requires Reaches(env, b, b')
    ensures BackRun(env, b, actions) == b'
  {
    var states := iset x | ByRun(env, b, x);
    assert BackRun(env, b, []) == b && b in states;
    forall x, a | x in states
      ensures BackNext(env, x, a) in states
    {
      ByRunOn(env, b, x, a);
    }
    assert Closed(env, states) && b' in states;
    actions :| BackRun(env, b, actions) == b';
  }

  ghost predicate ByRun(env: Env, b: Back, b': Back) {
    exists steps :: BackRun(env, b, steps) == b'
  }

  lemma ByRunOn(env: Env, b: Back, x: Back, a: BackAction)
    requires ByRun(env, b, x)
    ensures ByRun(env, b, BackNext(env, x, a))
  {
    var steps :| BackRun(env, b, steps) == x;
    BackRunConcat(env, b, steps, [a]);
    assert [a][1..] == [] && BackRun(env, x, [a]) == BackRun(env, BackNext(env, x, a), []);
  }

  /** A free relay fetches the only row and publishes it. */
  lemma FetchAndPublish(env: Env, b: Back, row: Row, relay: nat, fate: Fate) returns (b': Back)
    requires b.tables.outbox == [row] && row.publishedAt.None?
    requires relay in b.relays ==> b.relays[relay] == Publishing([])
    ensures Reaches(env, b, b')
    ensures b'.stream == PublishTo(b.stream, MsgId(row.id), row.event, b.now, fate)
    ensures b'.attempts == b.attempts + [Attempt(row.id, b.now)]
    ensures b'.tables == b.tables && b'.now == b.now
    ensures relay in b'.relays && (!fate.Acked? ==> b'.relays[relay] == Publishing([]))
    ensures forall k :: k != relay ==> (k in b'.relays <==> k in b.relays)
  {
    FetchOne(row);
    ReachesTwo(env, b, FetchBatch(relay), PublishHead(relay, fate));
    b' := BackNext(env, BackNext(env, b, FetchBatch(relay)), PublishHead(relay, fate));
  }

  /** After a window the broker may forget. */
  lemma LateForget(env: Env, b: Back, id: string) returns (b': Back)
    requires id in b.stream.dedup && b.stream.dedup[id] == b.now
    ensures Reaches(env, b, b')
    ensures b' == b.(now := b.now + env.window, stream := b.stream.(dedup := b.stream.dedup - {id}))
  {
    ReachesTwo(env, b, Tick(env.window), Forget(id));
    b' := BackNext(env, BackNext(env, b, Tick(env.window)), Forget(id));
  }

  lemma LandOne(env: Env, b: Back, id: string, event: OrderCreated, sentAt: int) returns (b': Back)
    requires b.stream.inFlight == [Sent(id, event, sentAt)] && id !in b.stream.dedup
    ensures Reaches(env, b, b')
    ensures b'.stream.msgs == b.stream.msgs + [Msg(id, event, b.now)] && b'.attempts == b.attempts
  {
    b' := BackNext(env, b, LandLate(0));
  }

  /** Two copies of one message, a window apart, and the times of the two attempts. */
  ghost predicate TwoCopies(env: Env, b: Back, rowId: int, event: OrderCreated, t: int, second: int) {
    && b.stream.msgs == [Msg(MsgId(rowId), event, t), Msg(MsgId(rowId), event, t + env.window)]
    && b.attempts == [Attempt(rowId, t), Attempt(rowId, second)]
  }

  /** An order has been committed, and nothing has been done about its event. */
  ghost predicate JustOrdered(b: Back, row: Row) {
    && b.tables.outbox == [row] && row.publishedAt.None?
    && b.stream == Stream([], map[], []) && b.relays == map[] && b.attempts == []
  }

  /** When a number of copies were stored: at once, and then one each window. */
  function EachWindow(t: int, window: nat, n: nat): (times: seq<int>)
    ensures |times| == n
  {
    if n == 0 then [] else EachWindow(t, window, n - 1) + [t + (n - 1) * window]
  }

  function CopiesAt(times: seq<int>, rowId: int, event: OrderCreated): seq<Msg> {
    seq(|times|, i requires 0 <= i < |times| => Msg(MsgId(rowId), event, times[i]))
  }

  function AttemptsAt(times: seq<int>, rowId: int): seq<Attempt> {
    seq(|times|, i requires 0 <= i < |times| => Attempt(rowId, times[i]))
  }

  /** The row has been stored and attempted at these times, and can be stored again. */
  ghost predicate StoredAt(b: Back, row: Row, times: seq<int>) {
    && b.tables.outbox == [row] && row.publishedAt.None?
    && b.stream == Stream(CopiesAt(times, row.id, row.event), map[], [])
    && b.attempts == AttemptsAt(times, row.id)
    && (0 in b.relays ==> b.relays[0] == Publishing([]))
  }

  /** An acknowledgement is lost, and the relay comes back once the broker has forgotten the id. */
  lemma LateRetry(env: Env, b: Back, row: Row, times: seq<int>) returns (b': Back)
    requires StoredAt(b, row, times)
    ensures Reaches(env, b, b') && StoredAt(b', row, times + [b.now]) && b'.now == b.now + env.window
  {
    var b1 := FetchAndPublish(env, b, row, 0, AckLost);
    var id := MsgId(row.id);
    assert b1.stream == Stream(CopiesAt(times, row.id, row.event) + [Msg(id, row.event, b.now)], map[id := b.now], []);
    b' := LateForget(env, b1, id);
    ReachesOn(env, b, b1, b');
    assert map[id := b.now] - {id} == map[];
    assert CopiesAt(times + [b.now], row.id, row.event)
        == CopiesAt(times, row.id, row.event) + [Msg(id, row.event, b.now)];
    assert AttemptsAt(times + [b.now], row.id) == AttemptsAt(times, row.id) + [Attempt(row.id, b.now)];
  }

  lemma {:induction false} LateRetries(env: Env, b: Back, row: Row, n: nat) returns (b': Back)
    requires JustOrdered(b, row)
    ensures Reaches(env, b, b') && StoredAt(b', row, EachWindow(b.now, env.window, n))
    ensures b'.now == b.now + n * env.window
  {
    if n == 0 {
      b' := b;
      assert 0 * env.window == 0;
    } else {
      var before := LateRetries(env, b, row, n - 1);
      b' := LateRetry(env, before, row, EachWindow(b.now, env.window, n - 1));
      ReachesOn(env, b, before, b');
      assert (n - 1) * env.window + env.window == n * env.window;
    }
  }

  /** One relay gives up on a publish that is still under way, and another publishes the row at once. */
  lemma GiveUp(env: Env, b: Back, row: Row) returns (b': Back)
    requires JustOrdered(b, row)
    ensures Reaches(env, b, b') && b'.now == b.now
    ensures b'.attempts == [Attempt(row.id, b.now), Attempt(row.id, b.now)]
    ensures var id := MsgId(row.id);
      b'.stream == Stream([Msg(id, row.event, b.now)], map[id := b.now], [Sent(id, row.event, b.now)])
  {
    var b1 := FetchAndPublish(env, b, row, 0, Delayed);
    b' := FetchAndPublish(env, b1, row, 1, Acked);
    ReachesOn(env, b, b1, b');
  }

  /** The first publish arrives when the broker has forgotten the id. */
  lemma LandAfterWindow(env: Env, b: Back, id: string, event: OrderCreated) returns (b': Back)
    requires b.stream == Stream([Msg(id, event, b.now)], map[id := b.now], [Sent(id, event, b.now)])
    ensures Reaches(env, b, b') && b'.attempts == b.attempts
    ensures b'.stream.msgs == [Msg(id, event, b.now)] + [Msg(id, event, b.now + env.window)]
  {
    var forgotten := LateForget(env, b, id);
    b' := LandOne(env, forgotten, id, event, b.now);
    ReachesOn(env, b, forgotten, b');
  }

  lemma LateArrival(env: Env, b: Back, row: Row) returns (b': Back)
    requires JustOrdered(b, row)
    ensures Reaches(env, b, b') && TwoCopies(env, b', row.id, row.event, b.now, b.now)
  {
    var sent := GiveUp(env, b, row);
    b' := LandAfterWindow(env, sent, MsgId(row.id), row.event);
    ReachesOn(env, b, sent, b');
  }

  ghost predicate InSomeRun(env: Env, seed: Items, b: Back) {
    exists actions :: Run(env, Init(seed), actions).back == b
  }

  /** One order, and whatever relays and broker can then reach is the end of a run. */
  lemma AfterOneOrder(env: Env, seed: Items, sku: string, quantity: int, orderId: string) returns (b: Back)
    requires ValidItems(seed) && sku != "" && sku in seed && 0 < quantity <= seed[sku].quantity
    ensures JustOrdered(b, Row(1, OrderCreated(orderId, sku, quantity), None)) && b.now == 0
    ensures forall b' :: Reaches(env, b, b') ==> InSomeRun(env, seed, b')
  {
    var ordered := OneOrder(sku, quantity, orderId, Committed);
    var s := Run(env, Init(seed), ordered);
    b := s.back;
    OneOrderOutcome(env, seed, sku, quantity, orderId, Committed);
    forall b' | Reaches(env, b, b')
      ensures InSomeRun(env, seed, b')
    {
      var steps := ReachedByRun(env, b, b');
      RunConcat(env, Init(seed), ordered, BackSteps(steps));
      BackRunIsRun(env, s, steps);
      assert Run(env, Init(seed), ordered + BackSteps(steps)).back == b';
    }
  }

  /** The stable id does not make retries safe forever: in a run from one stocked item, each retry a
      window after a lost acknowledgement stores one copy more. So the bound on duplicates is reached,
      for every number of copies: n of them span exactly n - 1 windows. */
  lemma ManyCopiesHappen(env: Env, seed: Items, sku: string, quantity: int, orderId: string, n: nat)
    requires ValidItems(seed) && sku != "" && sku in seed && 0 < quantity <= seed[sku].quantity
    ensures exists actions ::
      StoredAt(Run(env, Init(seed), actions).back, Row(1, OrderCreated(orderId, sku, quantity), None),
               EachWindow(0, env.window, n))
  {
    var b := AfterOneOrder(env, seed, sku, quantity, orderId);
    var b' := LateRetries(env, b, Row(1, OrderCreated(orderId, sku, quantity), None), n);
    var actions :| Run(env, Init(seed), actions).back == b';
  }

  /** The second copy of them, spelt out. */
  lemma SecondCopyHappens(env: Env, seed: Items, sku: string, quantity: int, orderId: string)
    requires ValidItems(seed) && sku != "" && sku in seed && 0 < quantity <= seed[sku].quantity
    ensures exists actions ::
      TwoCopies(env, Run(env, Init(seed), actions).back, 1, OrderCreated(orderId, sku, quantity), 0, env.window)
  {
    var row := Row(1, OrderCreated(orderId, sku, quantity), None);
    ManyCopiesHappen(env, seed, sku, quantity, orderId, 2);
    var actions :| StoredAt(Run(env, Init(seed), actions).back, row, EachWindow(0, env.window, 2));
    TwoTimes(0, env.window);
    assert TwoCopies(env, Run(env, Init(seed), actions).back, 1, row.event, 0, env.window);
  }

  lemma TwoTimes(t: int, window: nat)
    ensures EachWindow(t, window, 2) == [t, t + window]
  {
    assert EachWindow(t, window, 1) == [] + [t + 0 * window];
  }

  /** A publish that arrives late makes a copy although all attempts are made in the same instant:
      the bound must speak of arrivals. */
  lemma LateArrivalHappens(env: Env, seed: Items, sku: string, quantity: int, orderId: string)
    requires ValidItems(seed) && sku != "" && sku in seed && 0 < quantity <= seed[sku].quantity
    ensures exists actions ::
      TwoCopies(env, Run(env, Init(seed), actions).back, 1, OrderCreated(orderId, sku, quantity), 0, 0)
  {
    var b := AfterOneOrder(env, seed, sku, quantity, orderId);
    var b' := LateArrival(env, b, Row(1, OrderCreated(orderId, sku, quantity), None));
    var actions :| Run(env, Init(seed), actions).back == b';
  }
}
