/** What can always still happen: from every reachable state the pipeline can come to rest. And
    what the single steps are that this does not already show. */
module Settling {
  import opened Common
  import opened MessageId
  import opened Inventory
  import opened InventoryClient
  import opened Outbox
  import opened Broker
  import opened Orders
  import opened Analytics
  import opened Protocol
  import opened EventSafety
  import opened Pipeline
  import opened Progress
  import opened Scenarios
  import Relay

  // ---------------------------------------------------------------- the outbox drains

  /** A poll in which nothing fails, all at one time. */
  function Working(now: int): Relay.Course {
    Relay.Course(false, id => Acked, id => now, id => NoFault, id => now)
  }

  lemma {:induction false} WorkingInOrder(batch: seq<Row>, now: int)
    ensures InOrder(batch, now, Working(now))
    decreases |batch|
  {
    if batch != [] {
      WorkingInOrder(batch[1..], now);
    }
  }

  lemma {:induction false} RunReaches(env: Env, b: Back, actions: seq<BackAction>)
    ensures Reaches(env, b, BackRun(env, b, actions))
    decreases |actions|
  {
    if actions != [] {
      var next := BackNext(env, b, actions[0]);
      RunReaches(env, next, actions[1..]);
      assert Reaches(env, b, next);
      ReachesOn(env, b, next, BackRun(env, next, actions[1..]));
    }
  }

  predicate Idle(b: Back, relay: nat) {
    relay in b.relays ==> b.relays[relay] == Publishing([])
  }

  lemma PollReaches(env: Env, b: Back, relay: nat) returns (b': Back)
    requires Idle(b, relay)
    ensures Reaches(env, b, b') && Idle(b', relay) && SameElsewhere(b, b')
    ensures WorldOf(b') == Relay.Poll(WorldOf(b), Working(b.now))
  {
    var batch := Relay.Fetched(WorldOf(b), Working(b.now));
    var fetched := BackNext(env, b, FetchBatch(relay));
    WorkingInOrder(batch, b.now);
    BatchIsRun(env, fetched, relay, batch, Working(b.now));
    b' := BackRun(env, fetched, BatchActions(relay, batch, Working(b.now), b.now));
    RunReaches(env, fetched, BatchActions(relay, batch, Working(b.now), b.now));
    assert Reaches(env, b, fetched);
    ReachesOn(env, b, fetched, b');
  }

  /** A working poll leaves fewer unpublished rows, if there are any. */
  lemma PollDrains(w: Relay.World, now: int, t: int)
    requires DistinctIds(w.rows) && forall id <- Pending(w.rows) :: id <= t
    ensures var rows := Relay.Poll(w, Working(now)).rows;
      && DistinctIds(rows)
      && (forall id <- Pending(rows) :: id <= t)
      && (Pending(rows) == {} || |Pending(rows)| < |Pending(w.rows)|)
  {
    var round := Relay.Round(Working(now), [], []);
    assert Relay.AfterRound(w, round).rows == Relay.Poll(w, Working(now)).rows;
    var rows := Relay.Poll(w, Working(now)).rows;
    Relay.RoundKeepsIds(w, round);
    assert Relay.Fetched(w, Working(now)) == Fetch(w.rows, 20);
    Relay.DistinctIdsOf(rows);
    PendingHealthy(w.rows, t);
    forall id | id in Pending(rows)
      ensures id in Pending(w.rows)
    {
      StillPending(w, round, id);
    }
    PendingHealthy(rows, t);
    RoundProgress(w, round, iset{}, t);
  }

  lemma PendingHealthy(rows: seq<Row>, t: int)
    requires forall id <- Pending(rows) :: id <= t
    ensures HealthyUpTo(rows, iset{}, t) == Pending(rows) && BadUpTo(rows, iset{}, t) == {}
  {
  }

  lemma {:induction false} OutboxDrains(env: Env, b: Back, relay: nat, t: int) returns (b': Back)
    requires DistinctIds(b.tables.outbox) && Idle(b, relay) && forall id <- Pending(b.tables.outbox) :: id <= t
    ensures Reaches(env, b, b') && Pending(b'.tables.outbox) == {} && SameElsewhere(b, b')
    decreases |Pending(b.tables.outbox)|
  {
    b' := b;
    if Pending(b.tables.outbox) != {} {
      var polled := PollReaches(env, b, relay);
      PollDrains(WorldOf(b), b.now, t);
      b' := polled;
      if Pending(polled.tables.outbox) != {} {
        b' := OutboxDrains(env, polled, relay, t);
        ReachesOn(env, b, polled, b');
      }
    }
  }

  lemma {:induction false} SomeBound(rows: seq<Row>) returns (t: int)
    ensures forall id <- Pending(rows) :: id <= t
  {
    t := 0;
    if rows != [] {
      var rest, last := rows[..|rows| - 1], rows[|rows| - 1];
      t := SomeBound(rest);
      assert forall row <- rows :: row in rest || row == last;
      if t < last.id {
        t := last.id;
      }
      forall id | id in Pending(rows)
        ensures id <= t
      {
        var row :| row in rows && row.publishedAt.None? && row.id == id;
        assert row == last || id in Pending(rest);
      }
    }
  }

  // ---------------------------------------------------------------- the stream is consumed

  lemma {:induction false} StreamIsConsumed(env: Env, b: Back, n: nat) returns (b': Back)
    requires n <= |b.stream.msgs| == |b.handled|
    ensures Reaches(env, b, b') && b'.stream == b.stream && b'.tables == b.tables && |b'.handled| == |b.handled|
    ensures forall i :: 0 <= i < n ==> b'.handled[i] > 0 && i in b'.acked
  {
    b' := b;
    if n > 0 {
      var before := StreamIsConsumed(env, b, n - 1);
      b' := BackNext(env, BackNext(env, before, Handle(n - 1)), Ack(n - 1));
      ReachesTwo(env, before, Handle(n - 1), Ack(n - 1));
      ReachesOn(env, b, before, b');
    }
  }

  // ---------------------------------------------------------------- the whole system

  lemma ReachedIsOk(env: Env, b: Back, b': Back)
    requires BackOk(env, b) && Reaches(env, b, b')
    ensures BackOk(env, b')
  {
    var states := iset x | BackOk(env, x);
    forall x, a | x in states
      ensures BackNext(env, x, a) in states
    {
      BackKeepsOk(env, x, a);
    }
    assert Closed(env, states);
  }

  /** Every order of s is now published, marked, in the stream, recorded and acknowledged, and
      nothing else about requests, stock and orders is different. */
  ghost predicate SettledFrom(s: State, s': State) {
    && s'.front == s.front && s'.back.tables.orders == s.back.tables.orders
    && Quiescent(s'.back)
    && Pending(s'.back.tables.outbox) == {}
    && (forall i :: 0 <= i < |s'.back.stream.msgs| ==> i in s'.back.acked)
  }

  lemma Settles(env: Env, b: Back, relay: nat) returns (b': Back)
    requires BackOk(env, b)
    ensures Reaches(env, b, b') && Quiescent(b') && b'.tables.orders == b.tables.orders
    ensures Pending(b'.tables.outbox) == {}
    ensures forall i :: 0 <= i < |b'.stream.msgs| ==> i in b'.acked
  {
    var crashed := BackNext(env, b, CrashRelay(relay));
    var t := SomeBound(b.tables.outbox);
    var drained := OutboxDrains(env, crashed, relay, t);
    assert Reaches(env, b, crashed);
    ReachesOn(env, b, crashed, drained);
    ReachedIsOk(env, b, drained);
    b' := StreamIsConsumed(env, drained, |drained.stream.msgs|);
    ReachesOn(env, b, drained, b');
    AllPublished(env, drained);
  }

  lemma AllPublished(env: Env, b: Back)
    requires BackOk(env, b) && Pending(b.tables.outbox) == {}
    ensures forall row <- b.tables.outbox :: Stored(b.stream.msgs, MsgId(row.id))
  {
    forall row <- b.tables.outbox
      ensures Stored(b.stream.msgs, MsgId(row.id))
    {
      assert row.id !in Pending(b.tables.outbox);
    }
  }

  /** From every reachable state, whatever went wrong before, any one relay can crash, start again
      and publish all there is, and the consumer can record and acknowledge all of it. */
  lemma CanSettle(env: Env, seed: Items, before: seq<Action>, relay: nat)
    requires ValidItems(seed)
    ensures exists more :: SettledFrom(Run(env, Init(seed), before), Run(env, Init(seed), before + more))
  {
    var s := Run(env, Init(seed), before);
    RunIsBackOk(env, seed, before);
    var b' := Settles(env, s.back, relay);
    var steps := ReachedByRun(env, s.back, b');
    BackRunIsRun(env, s, steps);
    RunConcat(env, Init(seed), before, BackSteps(steps));
    assert SettledFrom(s, Run(env, Init(seed), before + BackSteps(steps)));
  }

  lemma RunIsBackOk(env: Env, seed: Items, actions: seq<Action>)
    requires ValidItems(seed)
    ensures BackOk(env, Run(env, Init(seed), actions).back)
  {
    EveryRunIsOk(env, seed, actions);
  }

  // ---------------------------------------------------------------- single steps

  /** A request begins, or is turned away with 400 and calls nobody. */
  lemma ArriveExactly(env: Env, f: Front, sku: string, quantity: int)
    ensures FrontNext(env, f, Arrive(sku, quantity))
         == f.(requests := f.requests + [if sku != "" && quantity > 0 then Request(sku, quantity, Calling, 1, 0, 0)
                                         else Request(sku, quantity, Done(400, None), 0, 0, 0)])
  {
  }

  /** A restock is accepted exactly if its statement runs, the item exists and its column can hold
      the sum. */
  lemma RestockStepExactly(env: Env, f: Front, sku: string, quantity: int, fault: Fault)
    requires ValidItems(f.items) && quantity > 0
    ensures var f' := FrontNext(env, f, FrontAction.RestockItem(sku, quantity, fault));
      if sku in f.items && !fault.NotRun? && f.items[sku].quantity + quantity <= INT32_MAX then
        && f'.items == f.items[sku := Item(sku, f.items[sku].name, f.items[sku].quantity + quantity)]
        && f'.restocks == f.restocks + [Write.Restock(sku, quantity)] && f'.requests == f.requests
      else f' == f
  {
    RestockExactly(f.items, sku, quantity, fault);
  }

  /** An RPC the client gave up on with anything but Unavailable is answered 502, and may be executed
      all the same: stock is then gone for a request that has long been answered. */
  lemma AbandonedCallTakes(env: Env, items: Items, r: Request)
    requires ValidItems(items) && r.phase.Calling? && r.sku in items && r.sku != ""
    requires 0 < r.Narrowed() <= items[r.sku].quantity
    ensures var (_, gone) := Advance(env, items, r, Abandon(DeadlineExceeded));
      var (after, late) := Advance(env, items, gone, ExecuteLate(NoFault));
      && late == r.(phase := Done(502, None), commits := r.commits + 1)
      && r.sku in after && after[r.sku].quantity == items[r.sku].quantity - r.Narrowed()
  {
  }

  /** A crash ends a request without an answer; an RPC it was making may still be executed. */
  lemma CrashEndsRequest(env: Env, items: Items, r: Request)
    requires !r.phase.Done?
    ensures Advance(env, items, r, Die)
         == (items, r.(phase := Dead, abandoned := r.abandoned + if r.phase.Calling? then 1 else 0))
  {
  }

  /** A delivery is recorded each time, also after its ack; an ack is remembered; a restart keeps
      what was acknowledged and forgets the totals. */
  lemma ConsumerStepsExactly(env: Env, b: Back, message: nat)
    requires message < |b.stream.msgs| == |b.handled|
    ensures var (handled, event) := (BackNext(env, b, Handle(message)), b.stream.msgs[message].event);
      && handled.recorded == b.recorded + [event]
      && handled.handled == b.handled[message := b.handled[message] + 1]
      && handled.stats == Snapshot(Int64(b.stats.ordersCount + 1), Int64(b.stats.totalQuantity + event.quantity))
      && handled.acked == b.acked
    ensures b.handled[message] > 0 ==> BackNext(env, b, Ack(message)) == b.(acked := b.acked + {message})
    ensures BackNext(env, b, RestartConsumer) == b.(base := |b.recorded|, stats := Snapshot(0, 0))
  {
  }

  /** The clock, the broker's memory, and a relay's crash. */
  lemma OtherStepsExactly(env: Env, b: Back, duration: nat, id: string, relay: nat)
    ensures BackNext(env, b, Tick(duration)) == b.(now := b.now + duration)
    ensures id in b.stream.dedup && b.stream.dedup[id] + env.window <= b.now ==>
      BackNext(env, b, Forget(id)) == b.(stream := b.stream.(dedup := b.stream.dedup - {id}))
    ensures id in b.stream.dedup && b.now < b.stream.dedup[id] + env.window ==> BackNext(env, b, Forget(id)) == b
    ensures BackNext(env, b, CrashRelay(relay)) == b.(relays := b.relays - {relay})
  {
  }
}
