/** Stock: conservation, the constraints of the items table, and what each request may have taken. */
module StockSafety {
  import opened Common
  import opened Inventory
  import opened InventoryClient
  import opened Orders
  import opened Protocol

  // ---------------------------------------------------------------- one request

  /** The request's last begun attempt has not been decided by the server yet. */
  function OpenCalls(r: Request): nat {
    if r.phase.Calling? || r.phase.Missed? then 1 else 0
  }

  /** The reservation of the last attempt stands behind this phase. */
  predicate HoldsStock(phase: Phase) {
    || phase == Answered(OK) || phase.Reserved?
    || (phase.Done? && (phase.status == 201 || phase.status == 500 || phase.order.Some?))
  }

  /** The client or server has been told that no stock was taken. */
  predicate Refused(phase: Phase) {
    || (phase.Answered? && phase.code in {NotFound, FailedPrecondition, InvalidArgument})
    || (phase.Done? && phase.status in {400, 404, 409})
  }

  ghost predicate RequestOk(env: Env, r: Request) {
    && r.commits + r.abandoned + OpenCalls(r) <= r.attempts <= RESERVE_RETRY.maxAttempts
    && (r.commits > 0 ==> 0 < r.Narrowed())
    && (r.phase.Answered? ==> r.phase.code in {OK, NotFound, FailedPrecondition, InvalidArgument, Internal})
    && (HoldsStock(r.phase) ==> r.commits >= 1)
    && (r.phase.Done? && r.phase.status == 201 ==> r.phase.order.Some?)
    && (r.phase.Done? && r.phase.order.Some? ==>
          && r.phase.order.value.sku == r.sku
          && r.phase.order.value.quantity == r.quantity == r.Narrowed())
    && (r.phase.Waiting? ==> r.attempts < RESERVE_RETRY.maxAttempts)
    && (env.strictUnavailable ==> AtMostOnceOk(r))
  }

  /** What holds in addition when Unavailable means unsent. */
  ghost predicate AtMostOnceOk(r: Request) {
    && r.commits + r.abandoned <= 1
    && (r.phase.Calling? || r.phase.Missed? || r.phase.Waiting? || Refused(r.phase) ==> r.commits + r.abandoned == 0)
    && (HoldsStock(r.phase) ==> r.commits == 1)
  }

  lemma NewRequestOk(env: Env, sku: string, quantity: int)
    ensures RequestOk(env, NewRequest(sku, quantity))
  {
  }

  /** The server's steps: executing an RPC in time or late, and the follow-up read. */
  lemma ServerKeepsRequest(env: Env, items: Items, r: Request, step: RequestStep)
    requires RequestOk(env, r) && (step.Execute? || step.ExecuteLate? || step.FollowUp?)
    ensures RequestOk(env, Advance(env, items, r, step).1)
  {
  }

  /** The client learns the outcome of an attempt. */
  lemma GotKeepsRequest(env: Env, r: Request, code: Code)
    requires RequestOk(env, r.(phase := Answered(Internal)))
    requires code == OK ==> r.commits >= 1
    requires env.strictUnavailable ==>
      && (code == OK ==> r.commits == 1)
      && (code in {Unavailable, NotFound, FailedPrecondition, InvalidArgument} ==> r.commits + r.abandoned == 0)
    ensures RequestOk(env, Got(r, code))
  {
  }

  /** The client's and the transport's steps. */
  lemma ClientKeepsRequest(env: Env, items: Items, r: Request, step: RequestStep)
    requires RequestOk(env, r) && !(step.Execute? || step.ExecuteLate? || step.FollowUp?)
    ensures RequestOk(env, Advance(env, items, r, step).1)
  {
    match step
    case Receive =>
      if r.phase.Answered? {
        GotKeepsRequest(env, r, r.phase.code);
      }
    case Unsent(code) =>
      if r.phase.Calling? && TransportCode(code) {
        GotKeepsRequest(env, r, code);
      }
    case Abandon(code) =>
      if r.phase.Calling? && MayHideExecution(env, code) {
        GotKeepsRequest(env, r.(abandoned := r.abandoned + 1), code);
      }
    case Lose(code) =>
      if (r.phase.Missed? || r.phase.Answered?) && MayHideExecution(env, code) {
        GotKeepsRequest(env, r, code);
      }
    case _ =>
  }

  lemma AdvanceKeepsRequest(env: Env, items: Items, r: Request, step: RequestStep)
    requires RequestOk(env, r)
    ensures RequestOk(env, Advance(env, items, r, step).1)
  {
    if step.Execute? || step.ExecuteLate? || step.FollowUp? {
      ServerKeepsRequest(env, items, r, step);
    } else {
      ClientKeepsRequest(env, items, r, step);
    }
  }

  /** The stock of an item, zero if there is none. */
  function Stock(items: Items, sku: string): int {
    if sku in items then items[sku].quantity else 0
  }

  /** What a request took from the stock of an item. */
  ghost function TakenOf(sku: string): Request -> int {
    (r: Request) => if r.sku == sku then r.commits * r.Narrowed() else 0
  }

  /** A write that returns a row moves exactly its delta, on its own row. */
  lemma UpdateMoves(items: Items, w: Write, sku: string)
    requires ValidItems(items)
    ensures var (after, r) := Update(items, w);
      && ValidItems(after) && after.Keys == items.Keys
      && Stock(after, sku) == Stock(items, sku) + (if r.Returned? && sku == w.sku then w.Delta() else 0)
  {
  }

  /** Serving an RPC moves from the stock what it adds to the request's account. */
  lemma ServeConserves(items: Items, r: Request, fault: Fault, sku: string)
    requires ValidItems(items)
    ensures var (after, r', _) := Serve(items, r, fault);
      && ValidItems(after) && after.Keys == items.Keys
      && Stock(after, sku) - Stock(items, sku) == TakenOf(sku)(r) - TakenOf(sku)(r')
  {
    UpdateMoves(items, Write.Reserve(r.sku, r.Narrowed()), sku);
    OneMoreCommit(r.commits, r.Narrowed());
  }

  lemma OneMoreCommit(commits: nat, quantity: int)
    ensures (commits + 1) * quantity == commits * quantity + quantity
  {
  }

  lemma AdvanceConserves(env: Env, items: Items, r: Request, step: RequestStep, sku: string)
    requires ValidItems(items)
    ensures var (after, r') := Advance(env, items, r, step);
      && ValidItems(after) && after.Keys == items.Keys
      && r'.sku == r.sku && r'.quantity == r.quantity
      && Stock(after, sku) - Stock(items, sku) == TakenOf(sku)(r) - TakenOf(sku)(r')
  {
    if step.Execute? || step.ExecuteLate? {
      ServeConserves(items, r, step.fault, sku);
    } else {
      assert Advance(env, items, r, step).1.commits == r.commits;
    }
  }

  // ---------------------------------------------------------------- the whole front

  ghost function RestockedOf(sku: string): Write -> int {
    (w: Write) => if w.sku == sku then w.quantity else 0
  }

  /** Stock is the seed plus accepted restocks minus committed reservations. */
  ghost predicate Balanced(seed: Items, f: Front, sku: string) {
    Stock(f.items, sku) == Stock(seed, sku) + SumBy(f.restocks, RestockedOf(sku)) - SumBy(f.requests, TakenOf(sku))
  }

  ghost predicate FrontOk(env: Env, seed: Items, f: Front) {
    && ValidItems(f.items) && f.items.Keys == seed.Keys
    && (forall sku :: Balanced(seed, f, sku))
    && (forall r <- f.requests :: RequestOk(env, r))
    && (forall w <- f.restocks :: w.Restock? && w.quantity > 0)
  }

  lemma FrontKeepsBalance(env: Env, seed: Items, f: Front, a: FrontAction, sku: string)
    requires FrontOk(env, seed, f)
    ensures Balanced(seed, FrontNext(env, f, a), sku)
  {
    assert Balanced(seed, f, sku);
    match a
    case Arrive(s, quantity) =>
      SumAppend(f.requests, NewRequest(s, quantity), TakenOf(sku));
    case RestockItem(s, quantity, fault) =>
      var w := Write.Restock(s, quantity);
      UpdateMoves(f.items, w, sku);
      SumAppend(f.restocks, w, RestockedOf(sku));
    case OnRequest(i, step) =>
      if i < |f.requests| {
        var r := f.requests[i];
        AdvanceConserves(env, f.items, r, step, sku);
        SumUpdate(f.requests, i, Advance(env, f.items, r, step).1, TakenOf(sku));
      }
  }

  lemma FrontKeepsOk(env: Env, seed: Items, f: Front, a: FrontAction)
    requires FrontOk(env, seed, f)
    ensures FrontOk(env, seed, FrontNext(env, f, a))
  {
    forall sku
      ensures Balanced(seed, FrontNext(env, f, a), sku)
    {
      FrontKeepsBalance(env, seed, f, a, sku);
    }
    match a
    case Arrive(s, quantity) => NewRequestOk(env, s, quantity);
    case RestockItem(s, quantity, fault) => UpdateMoves(f.items, Write.Restock(s, quantity), s);
    case OnRequest(i, step) =>
      if i < |f.requests| {
        AdvanceConserves(env, f.items, f.requests[i], step, "");
        AdvanceKeepsRequest(env, f.items, f.requests[i], step);
      }
  }
}
