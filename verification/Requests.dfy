/** One POST /orders handled from start to end, with its retry loop, is a run of request steps. */
module Requests {
  import opened Common
  import opened Inventory
  import opened InventoryClient
  import opened Outbox
  import opened Orders
  import opened Protocol

  // ---------------------------------------------------------------- steps of one request

  function AdvanceAll(env: Env, items: Items, r: Request, steps: seq<RequestStep>): (Items, Request)
    decreases |steps|
  {
    if steps == [] then (items, r)
    else
      var (after, next) := Advance(env, items, r, steps[0]);
      AdvanceAll(env, after, next, steps[1..])
  }

  lemma {:induction false} AdvanceConcat(env: Env, items: Items, r: Request, xs: seq<RequestStep>, ys: seq<RequestStep>)
    ensures var (after, next) := AdvanceAll(env, items, r, xs);
      AdvanceAll(env, items, r, xs + ys) == AdvanceAll(env, after, next, ys)
    decreases |xs|
  {
    if xs == [] {
      assert xs + ys == ys;
    } else {
      assert (xs + ys)[1..] == xs[1..] + ys;
      var (after, next) := Advance(env, items, r, xs[0]);
      AdvanceConcat(env, after, next, xs[1..], ys);
    }
  }

  lemma AdvanceOne(env: Env, items: Items, r: Request, x: RequestStep)
    ensures AdvanceAll(env, items, r, [x]) == Advance(env, items, r, x)
  {
    assert [x][1..] == [];
  }

  function OnSteps(i: nat, steps: seq<RequestStep>): seq<Action> {
    seq(|steps|, k requires 0 <= k < |steps| => FrontStep(OnRequest(i, steps[k])))
  }

  /** The system with one request and the table as given. */
  function Updated(s: State, i: nat, items: Items, r: Request): State
    requires i < |s.front.requests|
  {
    s.(front := s.front.(items := items, requests := s.front.requests[i := r]))
  }

  lemma {:induction false} StepsAreRun(env: Env, s: State, i: nat, steps: seq<RequestStep>)
    requires i < |s.front.requests|
    ensures var (items, r) := AdvanceAll(env, s.front.items, s.front.requests[i], steps);
      Run(env, s, OnSteps(i, steps)) == Updated(s, i, items, r)
    decreases |steps|
  {
    if steps != [] {
      var (items, r) := Advance(env, s.front.items, s.front.requests[i], steps[0]);
      assert OnSteps(i, steps) == [FrontStep(OnRequest(i, steps[0]))] + OnSteps(i, steps[1..]);
      RunFirst(env, s, FrontStep(OnRequest(i, steps[0])), OnSteps(i, steps[1..]));
      var s1 := Updated(s, i, items, r);
      assert Next(env, s, FrontStep(OnRequest(i, steps[0]))) == s1;
      StepsAreRun(env, s1, i, steps[1..]);
    }
  }

  // ---------------------------------------------------------------- one RPC

  /** One attempt of the client: served and answered, served with the answer lost on the way, or
      not sent. */
  datatype Call =
    | Served(fault: Fault, readFails: bool)
    | ReplyLost(fault: Fault, readFails: bool, code: Code)
    | NeverSent(code: Code)

  predicate Possible(env: Env, call: Call) {
    match call
    case Served(_, _) => true
    case ReplyLost(_, _, code) => MayHideExecution(env, code)
    case NeverSent(code) => TransportCode(code)
  }

  function CallSteps(call: Call): seq<RequestStep> {
    match call
    case Served(fault, readFails) => [Execute(fault), FollowUp(readFails), Receive]
    case ReplyLost(fault, readFails, code) => [Execute(fault), FollowUp(readFails), Lose(code)]
    case NeverSent(code) => [Unsent(code)]
  }

  /** What the gRPC server does and replies. */
  function Serving(items: Items, sku: string, quantity: int, fault: Fault, readFails: bool): (Items, Rpc) {
    if !ValidRequest(sku, quantity) then (items, Rpc(false, Status(InvalidArgument)))
    else
      var (after, r) := ReserveOutcome(items, sku, quantity, fault, [], readFails);
      (after, Rpc(!fault.NotRun? && Update(items, Write.Reserve(sku, quantity)).1.Returned?, ReplyFor(r)))
  }

  /** The table afterwards, and the RPC as the client sees it. */
  function CallOutcome(items: Items, sku: string, quantity: int, call: Call): (Items, Rpc) {
    match call
    case Served(fault, readFails) => Serving(items, sku, quantity, fault, readFails)
    case ReplyLost(fault, readFails, code) =>
      var (after, rpc) := Serving(items, sku, quantity, fault, readFails);
      (after, rpc.(reply := Status(code)))
    case NeverSent(code) => (items, Rpc(false, Status(code)))
  }

  function Counted(r: Request, rpc: Rpc): Request {
    r.(commits := r.commits + if rpc.committed then 1 else 0)
  }

  /** The server's two steps decide the reply. */
  lemma ServingIsAdvance(env: Env, items: Items, r: Request, fault: Fault, readFails: bool)
    requires r.phase.Calling?
    ensures var (after, rpc) := Serving(items, r.sku, r.Narrowed(), fault, readFails);
      AdvanceAll(env, items, r, [Execute(fault), FollowUp(readFails)])
        == (after, Counted(r, rpc).(phase := Answered(rpc.reply.code)))
  {
    var (mid, r1) := Advance(env, items, r, Execute(fault));
    assert [Execute(fault), FollowUp(readFails)] == [Execute(fault)] + [FollowUp(readFails)];
    AdvanceConcat(env, items, r, [Execute(fault)], [FollowUp(readFails)]);
    AdvanceOne(env, items, r, Execute(fault));
    AdvanceOne(env, mid, r1, FollowUp(readFails));
  }

  lemma CallIsAdvance(env: Env, items: Items, r: Request, call: Call)
    requires r.phase.Calling? && Possible(env, call)
    ensures var (after, rpc) := CallOutcome(items, r.sku, r.Narrowed(), call);
      AdvanceAll(env, items, r, CallSteps(call)) == (after, Got(Counted(r, rpc), rpc.reply.code))
  {
    if call.NeverSent? {
      AdvanceOne(env, items, r, Unsent(call.code));
    } else {
      var last := if call.Served? then Receive else Lose(call.code);
      var served := [Execute(call.fault), FollowUp(call.readFails)];
      var (after, rpc) := Serving(items, r.sku, r.Narrowed(), call.fault, call.readFails);
      assert CallSteps(call) == served + [last];
      AdvanceConcat(env, items, r, served, [last]);
      ServingIsAdvance(env, items, r, call.fault, call.readFails);
      AdvanceOne(env, after, Counted(r, rpc).(phase := Answered(rpc.reply.code)), last);
    }
  }

  // ---------------------------------------------------------------- the retry loop

  /** The calls of one Reserve: each meets the table the one before left, and is the RPC the
      client sees. */
  ghost predicate Makes(sku: string, quantity: int, calls: seq<Call>, tables: nat -> Items, rpcs: nat -> Rpc) {
    forall k :: 0 <= k < |calls| ==> CallOutcome(tables(k), sku, quantity, calls[k]) == (tables(k + 1), rpcs(k))
  }

  /** The server tells the truth in all of them, and under the assumption Unavailable means unsent. */
  lemma {:induction false} RpcsAreTruthful(env: Env, sku: string, quantity: int, calls: seq<Call>,
                                           tables: nat -> Items, rpcs: nat -> Rpc, n: nat)
    requires ValidItems(tables(0)) && Makes(sku, quantity, calls, tables, rpcs)
    requires n <= |calls| && forall call <- calls :: Possible(env, call)
    ensures ValidItems(tables(n))
    ensures forall k :: 0 <= k < n ==>
      Truthful(rpcs(k)) && (env.strictUnavailable ==> UnavailableMeansUnsent(rpcs(k)))
  {
    if n > 0 {
      RpcsAreTruthful(env, sku, quantity, calls, tables, rpcs, n - 1);
      CallIsTruthful(env, tables(n - 1), sku, quantity, calls[n - 1]);
    }
  }

  lemma CallIsTruthful(env: Env, items: Items, sku: string, quantity: int, call: Call)
    requires ValidItems(items) && Possible(env, call)
    ensures var (after, rpc) := CallOutcome(items, sku, quantity, call);
      ValidItems(after) && Truthful(rpc) && (env.strictUnavailable ==> UnavailableMeansUnsent(rpc))
  {
    if !call.NeverSent? {
      ServerIsTruthful(items, sku, quantity, call.fault, [], call.readFails);
    }
  }

  /** The request after k calls, about to make the next. */
  function Trying(r: Request, rpcs: nat -> Rpc, k: nat): Request {
    r.(attempts := 1 + k, commits := Commits(rpcs, k))
  }

  ghost predicate ClosedUnder(env: Env, states: iset<(Items, Request)>) {
    forall items, r, step :: (items, r) in states ==> Advance(env, items, r, step) in states
  }

  /** Some steps of the request lead from one table and request to the other: whatever is closed
      under steps and has the one has the other. */
  ghost predicate Leads(env: Env, items: Items, r: Request, after: Items, r': Request) {
    forall states: iset<(Items, Request)> :: ClosedUnder(env, states) && (items, r) in states ==> (after, r') in states
  }

  lemma LeadsOn(env: Env, items: Items, r: Request, mid: Items, r': Request, after: Items, r'': Request)
    requires Leads(env, items, r, mid, r') && Leads(env, mid, r', after, r'')
    ensures Leads(env, items, r, after, r'')
  {
  }

  lemma {:induction false} AdvanceLeads(env: Env, items: Items, r: Request, steps: seq<RequestStep>)
    ensures var (after, r') := AdvanceAll(env, items, r, steps);
      Leads(env, items, r, after, r')
    decreases |steps|
  {
    if steps != [] {
      var (mid, r1) := Advance(env, items, r, steps[0]);
      var (after, r') := AdvanceAll(env, mid, r1, steps[1..]);
      AdvanceLeads(env, mid, r1, steps[1..]);
      assert Leads(env, items, r, mid, r1);
      LeadsOn(env, items, r, mid, r1, after, r');
    }
  }

  ghost predicate BySteps(env: Env, items: Items, r: Request, end: (Items, Request)) {
    exists steps :: AdvanceAll(env, items, r, steps) == end
  }

  lemma ByStepsOn(env: Env, items: Items, r: Request, end: (Items, Request), step: RequestStep)
    requires BySteps(env, items, r, end)
    ensures BySteps(env, items, r, Advance(env, end.0, end.1, step))
  {
    var steps :| AdvanceAll(env, items, r, steps) == end;
    AdvanceConcat(env, items, r, steps, [step]);
    AdvanceOne(env, end.0, end.1, step);
  }

  /** One call that is retried. */
  lemma RetryTurn(env: Env, items: Items, r: Request, call: Call, after: Items, rpc: Rpc)
    requires r.phase.Calling? && r.attempts < RESERVE_RETRY.maxAttempts && Possible(env, call)
    requires CallOutcome(items, r.sku, r.Narrowed(), call) == (after, rpc) && rpc.reply.code == Unavailable
    ensures Leads(env, items, r, after, Counted(r, rpc).(attempts := r.attempts + 1))
  {
    AdvanceConcat(env, items, r, CallSteps(call), [Retry]);
    CallIsAdvance(env, items, r, call);
    AdvanceOne(env, after, Got(Counted(r, rpc), Unavailable), Retry);
    AdvanceLeads(env, items, r, CallSteps(call) + [Retry]);
  }

  /** Where the last call leaves a request; a wait after it ends in cancellation. */
  function Ending(code: Code): Phase {
    if code == OK then Reserved else Done(StatusFor(ErrorFor(code)), None)
  }

  lemma LastTurn(env: Env, items: Items, r: Request, call: Call, after: Items, rpc: Rpc)
    requires r.phase.Calling? && Possible(env, call)
    requires CallOutcome(items, r.sku, r.Narrowed(), call) == (after, rpc)
    ensures Leads(env, items, r, after, Counted(r, rpc).(phase := Ending(rpc.reply.code)))
  {
    AdvanceConcat(env, items, r, CallSteps(call), [Cancel]);
    CallIsAdvance(env, items, r, call);
    AdvanceOne(env, after, Got(Counted(r, rpc), rpc.reply.code), Cancel);
    AdvanceLeads(env, items, r, CallSteps(call) + [Cancel]);
  }

  lemma TryingNext(r: Request, rpcs: nat -> Rpc, k: nat)
    ensures Counted(Trying(r, rpcs, k), rpcs(k)).(attempts := 2 + k) == Trying(r, rpcs, k + 1)
  {
  }

  lemma {:induction false} RetriesLead(env: Env, r: Request, calls: seq<Call>, tables: nat -> Items,
                                       rpcs: nat -> Rpc, k: nat)
    requires r.phase.Calling? && r.attempts == 1 && r.commits == 0
    requires Makes(r.sku, r.Narrowed(), calls, tables, rpcs) && forall call <- calls :: Possible(env, call)
    requires k <= |calls| && k < RESERVE_RETRY.maxAttempts
    requires forall j :: 0 <= j < k ==> rpcs(j).reply.code == Unavailable
    ensures Leads(env, tables(0), r, tables(k), Trying(r, rpcs, k))
  {
    if k == 0 {
      assert Trying(r, rpcs, 0) == r;
    } else {
      RetriesLead(env, r, calls, tables, rpcs, k - 1);
      RetryTurn(env, tables(k - 1), Trying(r, rpcs, k - 1), calls[k - 1], tables(k), rpcs(k - 1));
      TryingNext(r, rpcs, k - 1);
      LeadsOn(env, tables(0), r, tables(k - 1), Trying(r, rpcs, k - 1), tables(k), Trying(r, rpcs, k));
    }
  }

  /** Where Reserve's result leaves a request. */
  function Reserving(r: Result<Item, ReserveError>): Phase {
    match r
    case Ok(_) => Reserved
    case Err(e) => Done(StatusFor(e), None)
  }

  lemma ResultEnds(rpcs: nat -> Rpc, ctxDone: nat -> bool, result: Result<Item, ReserveError>, n: nat)
    requires ReserveTrace(rpcs, ctxDone, result, n + 1)
    ensures Reserving(result) == Ending(rpcs(n).reply.code)
    ensures n < RESERVE_RETRY.maxAttempts && forall j :: 0 <= j < n ==> rpcs(j).reply.code == Unavailable
  {
  }

  /** A Reserve that makes these calls is a sequence of steps of its request. */
  lemma ReserveLeads(env: Env, r: Request, calls: seq<Call>, tables: nat -> Items, rpcs: nat -> Rpc,
                     ctxDone: nat -> bool, result: Result<Item, ReserveError>)
    requires r.phase.Calling? && r.attempts == 1 && r.commits == 0
    requires Makes(r.sku, r.Narrowed(), calls, tables, rpcs) && forall call <- calls :: Possible(env, call)
    requires ReserveTrace(rpcs, ctxDone, result, |calls|)
    ensures Leads(env, tables(0), r, tables(|calls|),
                  Trying(r, rpcs, |calls|).(attempts := |calls|, phase := Reserving(result)))
  {
    var n := |calls| - 1;
    var last := Trying(r, rpcs, n);
    ResultEnds(rpcs, ctxDone, result, n);
    RetriesLead(env, r, calls, tables, rpcs, n);
    LastTurn(env, tables(n), last, calls[n], tables(n + 1), rpcs(n));
    LeadsOn(env, tables(0), r, tables(n), last, tables(n + 1), Counted(last, rpcs(n)).(phase := Reserving(result)));
  }

  // ---------------------------------------------------------------- the whole handler

  /** The request arrives, takes its steps, and persists if it may. */
  function HandlerActions(s: State, sku: string, quantity: int, steps: seq<RequestStep>, orderId: string, rowId: int,
                          fate: TxFate): seq<Action> {
    [FrontStep(Arrive(sku, quantity))]
    + (OnSteps(|s.front.requests|, steps) + [PersistOrder(|s.front.requests|, orderId, rowId, fate)])
  }

  /** What the handler does to the order tables and responds, given Reserve's result. */
  function Responding(t: Tables, o: Order, rowId: int, fate: TxFate, result: Result<Item, ReserveError>)
    : (Tables, Phase)
  {
    match result
    case Err(e) => (t, Done(StatusFor(e), None))
    case Ok(_) =>
      var (after, ok) := Persist(t, o, rowId, fate);
      (after, Done(if ok then 201 else 500, if |after.orders| > |t.orders| then Some(o) else None))
  }

  /** The state in which the handler has responded. */
  function Responded(s: State, sku: string, quantity: int, calls: nat, after: Items, commits: nat,
                     orderId: string, rowId: int, fate: TxFate, result: Result<Item, ReserveError>): State {
    var (tables, phase) := Responding(s.back.tables, Order(orderId, sku, quantity), rowId, fate, result);
    var r := Request(sku, quantity, phase, calls, commits, 0);
    State(s.front.(items := after, requests := s.front.requests + [r]), s.back.(tables := tables))
  }

  /** The handler, with any faults of its RPCs and its transaction, is a run of the system from any
      state: same status, same tables, same stock, and as many commits as its RPCs made. */
  lemma HandlerIsRun(env: Env, s: State, sku: string, quantity: int, calls: seq<Call>,
                     tables: nat -> Items, rpcs: nat -> Rpc, ctxDone: nat -> bool,
                     result: Result<Item, ReserveError>, orderId: string, rowId: int, fate: TxFate)
    requires ValidBody(Some(CreateOrderRequest(sku, quantity)))
    requires tables(0) == s.front.items && Makes(sku, Int32(quantity), calls, tables, rpcs)
    requires forall call <- calls :: Possible(env, call)
    requires ReserveTrace(rpcs, ctxDone, result, |calls|)
    ensures exists steps ::
      Run(env, s, HandlerActions(s, sku, quantity, steps, orderId, rowId, fate))
        == Responded(s, sku, quantity, |calls|, tables(|calls|), Commits(rpcs, |calls|), orderId, rowId, fate, result)
  {
    var r := Request(sku, quantity, Calling, 1, 0, 0);
    var r' := Request(sku, quantity, Reserving(result), |calls|, Commits(rpcs, |calls|), 0);
    ReserveLeads(env, r, calls, tables, rpcs, ctxDone, result);
    var steps := StepsFor(env, s.front.items, r, tables(|calls|), r');
    HandlerRuns(env, s, r, steps, tables(|calls|), r', orderId, rowId, fate, result);
  }

  lemma StepsFor(env: Env, items: Items, r: Request, after: Items, r': Request) returns (steps: seq<RequestStep>)
    requires Leads(env, items, r, after, r')
    ensures AdvanceAll(env, items, r, steps) == (after, r')
  {
    var states := iset end | BySteps(env, items, r, end);
    assert AdvanceAll(env, items, r, []) == (items, r) && (items, r) in states;
    forall x, y, step | (x, y) in states
      ensures Advance(env, x, y, step) in states
    {
      ByStepsOn(env, items, r, (x, y), step);
    }
    assert ClosedUnder(env, states) && (after, r') in states;
    steps :| AdvanceAll(env, items, r, steps) == (after, r');
  }

  lemma HandlerRuns(env: Env, s: State, r: Request, steps: seq<RequestStep>, after: Items, r': Request,
                    orderId: string, rowId: int, fate: TxFate, result: Result<Item, ReserveError>)
    requires ValidBody(Some(CreateOrderRequest(r.sku, r.quantity))) && r == NewRequest(r.sku, r.quantity)
    requires AdvanceAll(env, s.front.items, r, steps) == (after, r')
    requires r'.phase == Reserving(result) && r'.sku == r.sku && r'.quantity == r.quantity
    ensures var (tables, phase) := Responding(s.back.tables, Order(orderId, r.sku, r.quantity), rowId, fate, result);
      Run(env, s, HandlerActions(s, r.sku, r.quantity, steps, orderId, rowId, fate))
        == State(s.front.(items := after, requests := s.front.requests + [r'.(phase := phase)]),
                 s.back.(tables := tables))
  {
    var i, arrive := |s.front.requests|, FrontStep(Arrive(r.sku, r.quantity));
    var persist := PersistOrder(i, orderId, rowId, fate);
    var s1 := s.(front := s.front.(requests := s.front.requests + [r]));
    assert Next(env, s, arrive) == s1;
    RunFirst(env, s, arrive, OnSteps(i, steps) + [persist]);
    RunConcat(env, s1, OnSteps(i, steps), [persist]);
    StepsAreRun(env, s1, i, steps);
    var s2 := Updated(s1, i, after, r');
    assert s2.front.requests == s.front.requests + [r'];
    PersistIsLast(env, s2, i, orderId, rowId, fate, result);
  }

  lemma PersistIsLast(env: Env, s: State, i: nat, orderId: string, rowId: int, fate: TxFate,
                      result: Result<Item, ReserveError>)
    requires i < |s.front.requests| && s.front.requests[i].phase == Reserving(result)
    ensures var r := s.front.requests[i];
      var (tables, phase) := Responding(s.back.tables, Order(orderId, r.sku, r.quantity), rowId, fate, result);
      Run(env, s, [PersistOrder(i, orderId, rowId, fate)])
        == State(s.front.(requests := s.front.requests[i := r.(phase := phase)]), s.back.(tables := tables))
  {
    var persist := PersistOrder(i, orderId, rowId, fate);
    assert [persist][..0] == [];
    assert Run(env, s, [persist]) == Next(env, s, persist);
  }

  /** What a request served without faults comes to, in terms of the tables alone. Its RPC carries
      the quantity as an int32: none left after the conversion is 502, no such item 404, too little
      of it 409; otherwise the stock is lower by what the RPC carried, and 201 means that the order
      with the quantity asked for and its event are committed. */
  ghost predicate OneRequest(s: State, s': State, sku: string, quantity: int, orderId: string, rowId: int,
                             fate: TxFate)
  {
    var (items, t, n, sent) := (s.front.items, s.back.tables, |s.front.requests|, Int32(quantity));
    && |s'.front.requests| == n + 1 && s'.front.requests[..n] == s.front.requests
    && s'.front.requests[n].phase.Done?
    && var status := s'.front.requests[n].phase.status;
       if sent <= 0 then status == 502 && s'.front.items == items && s'.back == s.back
       else if sku !in items then status == 404 && s'.front.items == items && s'.back == s.back
       else if items[sku].quantity < sent then status == 409 && s'.front.items == items && s'.back == s.back
       else
         && s'.front.items == items[sku := Item(sku, items[sku].name, items[sku].quantity - sent)]
         && if (exists o <- t.orders :: o.id == orderId) || (exists row <- t.outbox :: row.id == rowId)
               || quantity > INT32_MAX || !(fate.Committed? || fate.CommitUnknown?)
            then status == 500 && s'.back == s.back
            else
              && status == (if fate.Committed? then 201 else 500)
              && s'.back.tables.orders == t.orders + [Order(orderId, sku, quantity)]
              && s'.back.tables.outbox == t.outbox + [Row(rowId, OrderCreated(orderId, sku, quantity), None)]
  }

  /** From any state of the system such a request is a run with exactly that outcome. */
  lemma OneRequestExactly(env: Env, s: State, sku: string, quantity: int, orderId: string, rowId: int, fate: TxFate)
    returns (actions: seq<Action>)
    requires ValidItems(s.front.items) && sku != "" && 0 < quantity
    ensures OneRequest(s, Run(env, s, actions), sku, quantity, orderId, rowId, fate)
  {
    actions := ServedRun(env, s, sku, quantity, orderId, rowId, fate);
    Told(s, Run(env, s, actions), sku, quantity, orderId, rowId, fate);
  }

  lemma Told(s: State, s': State, sku: string, quantity: int, orderId: string, rowId: int, fate: TxFate)
    requires 0 < quantity
    requires var (after, reply) := ServedReply(s.front.items, sku, Int32(quantity));
      s' == Responded(s, sku, quantity, 1, after, if reply.code == OK then 1 else 0,
                      orderId, rowId, fate, ResultOf(reply))
    ensures OneRequest(s, s', sku, quantity, orderId, rowId, fate)
  {
    PersistExactly(s.back.tables, Order(orderId, sku, quantity), rowId, fate);
  }

  function ResultOf(reply: Reply): Result<Item, ReserveError> {
    if reply.code == OK then Ok(Item(reply.sku, reply.name, reply.quantity)) else Err(ErrorFor(reply.code))
  }

  /** One RPC, served and answered, then the transaction. */
  lemma ServedRun(env: Env, s: State, sku: string, quantity: int, orderId: string, rowId: int, fate: TxFate)
    returns (actions: seq<Action>)
    requires ValidItems(s.front.items) && sku != "" && 0 < quantity
    ensures var (after, reply) := ServedReply(s.front.items, sku, Int32(quantity));
      Run(env, s, actions) == Responded(s, sku, quantity, 1, after, if reply.code == OK then 1 else 0,
                                        orderId, rowId, fate, ResultOf(reply))
  {
    var (after, reply) := ServedReply(s.front.items, sku, Int32(quantity));
    var rpcs := (k: nat) => Rpc(reply.code == OK, reply);
    var tables := (k: nat) => if k == 0 then s.front.items else after;
    OneCallMakes(s.front.items, sku, Int32(quantity), tables, rpcs);
    HandlerIsRun(env, s, sku, quantity, [Served(NoFault, false)], tables, rpcs, k => false, ResultOf(reply),
                 orderId, rowId, fate);
    var steps :| Run(env, s, HandlerActions(s, sku, quantity, steps, orderId, rowId, fate))
      == Responded(s, sku, quantity, 1, after, Commits(rpcs, 1), orderId, rowId, fate, ResultOf(reply));
    actions := HandlerActions(s, sku, quantity, steps, orderId, rowId, fate);
  }

  lemma OneCallMakes(items: Items, sku: string, quantity: int, tables: nat -> Items, rpcs: nat -> Rpc)
    requires ValidItems(items) && sku != "" && quantity <= INT32_MAX
    requires var (after, reply) := ServedReply(items, sku, quantity);
      tables(0) == items && tables(1) == after && rpcs(0) == Rpc(reply.code == OK, reply)
    ensures Makes(sku, quantity, [Served(NoFault, false)], tables, rpcs)
    ensures ReserveTrace(rpcs, k => false, ResultOf(ServedReply(items, sku, quantity).1), 1)
    ensures Commits(rpcs, 1) == if ServedReply(items, sku, quantity).1.code == OK then 1 else 0
  {
    ServedExactly(items, sku, quantity);
    assert Commits(rpcs, 1) == Commits(rpcs, 0) + if rpcs(0).committed then 1 else 0;
  }

  /** The server's answer in terms of the table. */
  function ServedReply(items: Items, sku: string, quantity: int): (Items, Reply) {
    if quantity <= 0 then (items, Reply(InvalidArgument, "", "", 0))
    else if sku !in items then (items, Reply(NotFound, "", "", 0))
    else if items[sku].quantity < quantity then (items, Reply(FailedPrecondition, "", "", 0))
    else
      var left := items[sku].quantity - quantity;
      (items[sku := Item(sku, items[sku].name, left)], Reply(OK, sku, items[sku].name, left))
  }

  lemma ServedExactly(items: Items, sku: string, quantity: int)
    requires ValidItems(items) && sku != "" && quantity <= INT32_MAX
    ensures var (after, reply) := ServedReply(items, sku, quantity);
      CallOutcome(items, sku, quantity, Served(NoFault, false)) == (after, Rpc(reply.code == OK, reply))
  {
    if quantity > 0 {
      ReserveExactly(items, sku, quantity, NoFault, [], false);
      ReplyExactly(items, sku, quantity, NoFault, [], false);
    }
  }

  // ---------------------------------------------------------------- what the handler's RPCs take

  /** A server that does for every RPC what its request says. */
  function ServerFor(calls: seq<Call>, tables: nat -> Items): (ReserveRequest, nat) -> Rpc {
    (request: ReserveRequest, k: nat) =>
      if k < |calls| then CallOutcome(tables(k), request.sku, request.quantity, calls[k]).1
      else Rpc(false, Status(Internal))
  }

  /** One RPC takes the quantity of its request exactly if it took stock. */
  lemma CallTakes(items: Items, sku: string, quantity: int, call: Call)
    requires ValidItems(items) && -INT32_MAX - 1 <= quantity <= INT32_MAX
    ensures var (after, rpc) := CallOutcome(items, sku, quantity, call);
      && ValidItems(after) && after.Keys == items.Keys
      && (if rpc.committed
          then quantity > 0 && sku in items
               && after == items[sku := Item(sku, items[sku].name, items[sku].quantity - quantity)]
          else after == items)
  {
    if !call.NeverSent? && ValidRequest(sku, quantity) {
      ReserveExactly(items, sku, quantity, call.fault, [], call.readFails);
    }
  }

  /** Each of n RPCs takes the quantity from the row exactly if it took stock. */
  ghost predicate Takes(sku: string, quantity: int, tables: nat -> Items, rpcs: nat -> Rpc, n: nat) {
    forall k :: 0 <= k < n ==>
      && (rpcs(k).committed ==> sku in tables(k))
      && (sku in tables(k + 1) <==> sku in tables(k))
      && (sku in tables(k) ==>
            tables(k + 1)[sku].quantity == tables(k)[sku].quantity - if rpcs(k).committed then quantity else 0)
  }

  lemma {:induction false} CallsTake(sku: string, quantity: int, calls: seq<Call>, tables: nat -> Items,
                                     rpcs: nat -> Rpc, n: nat)
    requires ValidItems(tables(0)) && -INT32_MAX - 1 <= quantity <= INT32_MAX
    requires Makes(sku, quantity, calls, tables, rpcs) && n <= |calls|
    ensures ValidItems(tables(n)) && Takes(sku, quantity, tables, rpcs, n)
  {
    if n > 0 {
      CallsTake(sku, quantity, calls, tables, rpcs, n - 1);
      CallTakes(tables(n - 1), sku, quantity, calls[n - 1]);
    }
  }

  lemma {:induction false} AllTaken(sku: string, quantity: int, tables: nat -> Items, rpcs: nat -> Rpc, n: nat)
    requires Takes(sku, quantity, tables, rpcs, n)
    ensures sku in tables(n) <==> sku in tables(0)
    ensures sku in tables(0) ==> tables(n)[sku].quantity == tables(0)[sku].quantity - Commits(rpcs, n) * quantity
  {
    if n > 0 {
      AllTaken(sku, quantity, tables, rpcs, n - 1);
      var k: nat := n - 1;
      assert (sku in tables(k + 1) <==> sku in tables(k));
      OneMore(Commits(rpcs, n - 1), quantity);
    }
  }

  lemma OneMore(n: nat, x: int)
    ensures (n + 1) * x == n * x + x && 0 * x == 0
  {
  }

  /** A handler whose RPCs go to such a server, answered 201: the item's stock is lower by the
      ordered quantity for every RPC that took stock, which is exactly one if Unavailable means
      unsent. */
  lemma CreatedTakesQuantity(env: Env, sku: string, quantity: int, calls: seq<Call>, tables: nat -> Items,
                             ctxDone: nat -> bool, result: Result<Item, ReserveError>,
                             t: Tables, orderId: string, rowId: int, fate: TxFate)
    requires ValidItems(tables(0)) && calls != [] && forall call <- calls :: Possible(env, call)
    requires forall k :: 0 <= k < |calls| ==>
      tables(k + 1) == CallOutcome(tables(k), sku, Int32(quantity), calls[k]).0
    requires ReserveTrace((k: nat) => ServerFor(calls, tables)(ReserveRequest(sku, Int32(quantity)), k),
                          ctxDone, result, |calls|)
    requires result.Ok? && Persist(t, Order(orderId, sku, quantity), rowId, fate).1
    ensures var rpcs := (k: nat) => ServerFor(calls, tables)(ReserveRequest(sku, Int32(quantity)), k);
      && sku in tables(0) && sku in tables(|calls| - 1) && sku in tables(|calls|)
      && tables(|calls|)[sku].quantity == tables(0)[sku].quantity - Commits(rpcs, |calls|) * quantity
      && tables(|calls|)[sku].quantity == tables(|calls| - 1)[sku].quantity - quantity
      && ((forall k :: 0 <= k < |calls| ==> UnavailableMeansUnsent(rpcs(k))) ==> Commits(rpcs, |calls|) == 1)
  {
    var rpcs := (k: nat) => ServerFor(calls, tables)(ReserveRequest(sku, Int32(quantity)), k);
    PersistExactly(t, Order(orderId, sku, quantity), rowId, fate);
    assert Int32(quantity) == quantity;
    ServerMakes(sku, quantity, calls, tables);
    CallsTake(sku, quantity, calls, tables, rpcs, |calls|);
    RpcsAreTruthful(env, sku, quantity, calls, tables, rpcs, |calls|);
    SuccessTakes(sku, quantity, tables, rpcs, |calls|, ctxDone, result);
  }

  lemma ServerMakes(sku: string, quantity: int, calls: seq<Call>, tables: nat -> Items)
    requires forall k :: 0 <= k < |calls| ==> tables(k + 1) == CallOutcome(tables(k), sku, quantity, calls[k]).0
    ensures Makes(sku, quantity, calls, tables, (k: nat) => ServerFor(calls, tables)(ReserveRequest(sku, quantity), k))
  {
    forall k | 0 <= k < |calls|
      ensures CallOutcome(tables(k), sku, quantity, calls[k])
           == (tables(k + 1), ServerFor(calls, tables)(ReserveRequest(sku, quantity), k))
    {
      assert tables(k + 1) == CallOutcome(tables(k), sku, quantity, calls[k]).0;
    }
  }

  lemma SuccessTakes(sku: string, quantity: int, tables: nat -> Items, rpcs: nat -> Rpc, calls: nat,
                     ctxDone: nat -> bool, result: Result<Item, ReserveError>)
    requires ReserveTrace(rpcs, ctxDone, result, calls) && result.Ok?
    requires Takes(sku, quantity, tables, rpcs, calls) && forall k :: 0 <= k < calls ==> Truthful(rpcs(k))
    ensures sku in tables(0) && sku in tables(calls - 1) && sku in tables(calls)
    ensures tables(calls)[sku].quantity == tables(0)[sku].quantity - Commits(rpcs, calls) * quantity
    ensures tables(calls)[sku].quantity == tables(calls - 1)[sku].quantity - quantity
    ensures (forall k :: 0 <= k < calls ==> UnavailableMeansUnsent(rpcs(k))) ==> Commits(rpcs, calls) == 1
  {
    var n: nat := calls - 1;
    assert rpcs(n).reply.code == OK && rpcs(n).committed && sku in tables(n);
    AllTaken(sku, quantity, tables, rpcs, n);
    AllTaken(sku, quantity, tables, rpcs, calls);
    assert tables(n + 1)[sku].quantity == tables(n)[sku].quantity - quantity;
    if forall k :: 0 <= k < calls ==> UnavailableMeansUnsent(rpcs(k)) {
      AtMostOnce(rpcs, ctxDone, result, calls);
    }
  }
}
