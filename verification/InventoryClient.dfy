/** order-service/internal/inventoryclient: the retried, non-idempotent reservation call. */
module InventoryClient {
  import opened Common
  import opened Inventory
  import opened Retry

  const RESERVE_RETRY: Config := Config(6, 300_000_000, 2_000_000_000)

  predicate IsRetryableStatus(code: Code) {
    code == Unavailable
  }

  datatype ReserveRequest = ReserveRequest(sku: string, quantity: int)

  /** One RPC as seen from outside: whether it took stock, and what the client received. */
  datatype Rpc = Rpc(committed: bool, reply: Reply)

  datatype ReserveError = ItemNotFound | InsufficientStock | CallFailed

  function ErrorFor(code: Code): ReserveError {
    match code
    case NotFound => ItemNotFound
    case FailedPrecondition => InsufficientStock
    case _ => CallFailed
  }

  /** The verdict codes speak the truth about this RPC; any other code leaves it open. */
  predicate Truthful(rpc: Rpc) {
    && (rpc.reply.code == OK ==> rpc.committed)
    && (rpc.reply.code in {NotFound, FailedPrecondition, InvalidArgument} ==> !rpc.committed)
  }

  /** The assumption the retry relies on. */
  predicate UnavailableMeansUnsent(rpc: Rpc) {
    rpc.reply.code == Unavailable ==> !rpc.committed
  }

  function Commits(rpcs: nat -> Rpc, calls: nat): nat {
    if calls == 0 then 0 else Commits(rpcs, calls - 1) + (if rpcs(calls - 1).committed then 1 else 0)
  }

  /** What Reserve returns after its calls, and why it stopped. */
  ghost predicate ReserveTrace(rpcs: nat -> Rpc, ctxDone: nat -> bool, r: Result<Item, ReserveError>, calls: nat) {
    && 1 <= calls <= RESERVE_RETRY.maxAttempts
    && (forall k :: 0 <= k < calls - 1 ==> rpcs(k).reply.code == Unavailable && !ctxDone(k))
    && var last := rpcs(calls - 1).reply;
       && (last.code == Unavailable ==> calls == RESERVE_RETRY.maxAttempts || ctxDone(calls - 1))
       && r == if last.code == OK then Ok(Item(last.sku, last.name, last.quantity)) else Err(ErrorFor(last.code))
  }

  method Reserve(sku: string, quantity: int, server: (ReserveRequest, nat) -> Rpc, ctxDone: nat -> bool,
                 draws: nat -> nat)
    returns (r: Result<Item, ReserveError>, calls: nat)
    ensures ReserveTrace((k: nat) => server(ReserveRequest(sku, Int32(quantity)), k), ctxDone, r, calls)
    ensures var request := ReserveRequest(sku, Int32(quantity));
      && 1 <= calls <= 6
      && (forall k :: 0 <= k < calls - 1 ==> server(request, k).reply.code == Unavailable && !ctxDone(k))
      && var last := server(request, calls - 1).reply;
         match last.code
         case OK => r == Ok(Item(last.sku, last.name, last.quantity))
         case NotFound => r == Err(ItemNotFound)
         case FailedPrecondition => r == Err(InsufficientStock)
         case Unavailable => r == Err(CallFailed) && (calls == 6 || ctxDone(calls - 1))
         case _ => r == Err(CallFailed)
  {
    var request := ReserveRequest(sku, Int32(quantity));
    var fn := (k: nat) =>
      var code := server(request, k).reply.code;
      if code == OK then Success else Failure(code);
    var result, n, retries := Do(RESERVE_RETRY, IsRetryableStatus, fn, ctxDone, draws);
    calls := n;
    match result {
      case Nil =>
        var resp := server(request, calls - 1).reply;
        r := Ok(Item(resp.sku, resp.name, resp.quantity));
      case Failed(code) =>
        r := Err(ErrorFor(code));
      case ContextDone =>
        assert FailedRetryably(IsRetryableStatus, fn, calls - 1);
        r := Err(CallFailed);
    }
    forall k | 0 <= k < calls - 1
      ensures server(request, k).reply.code == Unavailable && !ctxDone(k)
    {
      assert FailedRetryably(IsRetryableStatus, fn, k);
    }
  }

  // ---------------------------------------------------------------- at most once

  lemma {:induction false} CommitsOfFailures(rpcs: nat -> Rpc, calls: nat)
    ensures Commits(rpcs, calls) <= calls
    ensures Commits(rpcs, calls) == 0 <==> forall k :: 0 <= k < calls ==> !rpcs(k).committed
  {
    if calls > 0 {
      CommitsOfFailures(rpcs, calls - 1);
    }
  }

  /** If Unavailable means the request never reached the server, one Reserve takes stock at most
      once and only in its last RPC: exactly once when it succeeds, never when it reports a
      missing item or too little stock. */
  lemma {:induction false} AtMostOnce(rpcs: nat -> Rpc, ctxDone: nat -> bool, r: Result<Item, ReserveError>, calls: nat)
    requires ReserveTrace(rpcs, ctxDone, r, calls)
    requires forall k :: 0 <= k < calls ==> Truthful(rpcs(k)) && UnavailableMeansUnsent(rpcs(k))
    ensures forall k :: 0 <= k < calls - 1 ==> !rpcs(k).committed
    ensures Commits(rpcs, calls) <= 1
    ensures r.Ok? ==> Commits(rpcs, calls) == 1
    ensures r == Err(ItemNotFound) || r == Err(InsufficientStock) ==> Commits(rpcs, calls) == 0
  {
    CommitsOfFailures(rpcs, calls - 1);
  }

  /** Without the assumption: never more than six reservations, and a successful Reserve took
      stock once exactly if none of its Unavailable replies hid a reservation. */
  lemma {:induction false} CommitsWithoutAssumption(rpcs: nat -> Rpc, ctxDone: nat -> bool,
                                                    r: Result<Item, ReserveError>, calls: nat)
    requires ReserveTrace(rpcs, ctxDone, r, calls)
    requires forall k :: 0 <= k < calls ==> Truthful(rpcs(k))
    ensures Commits(rpcs, calls) <= 6
    ensures r.Ok? ==> Commits(rpcs, calls) >= 1
    ensures r.Ok? ==>
      (Commits(rpcs, calls) == 1 <==> forall k :: 0 <= k < calls - 1 ==> UnavailableMeansUnsent(rpcs(k)))
  {
    CommitsOfFailures(rpcs, calls);
    CommitsOfFailures(rpcs, calls - 1);
  }

  /** The server is truthful whatever its database does, and for a truthful verdict the client's
      error names the store's verdict: the two status mappings are inverse. */
  lemma ServerIsTruthful(items: Items, sku: string, quantity: int, fault: Fault, between: seq<Write>, readFails: bool)
    requires ValidItems(items)
    ensures var (after, r) := ReserveOutcome(items, sku, quantity, fault, between, readFails);
      var committed := !fault.NotRun? && Update(items, Write.Reserve(sku, quantity)).1.Returned?;
      && Truthful(Rpc(committed, ReplyFor(r)))
      && (ReplyFor(r).code == OK <==> r.Ok?)
      && (r.Err? ==> (ErrorFor(ReplyFor(r).code) == ItemNotFound <==> r == Err(ErrNotFound)))
      && (r.Err? ==> (ErrorFor(ReplyFor(r).code) == InsufficientStock <==> r == Err(ErrInsufficientStock)))
  {
    VerdictAtUpdate(items, sku, quantity, fault, between, readFails);
  }

  // ---------------------------------------------------------------- the production budget

  /** The production backoff never aliases, and an exhausted Reserve sleeps 3.05s to 6.1s. */
  lemma ProductionBudget(fn: nat -> Outcome<Code>, ctxDone: nat -> bool, draws: nat -> nat,
                         calls: nat, retries: seq<OnRetry<Code>>)
    requires DoTrace(RESERVE_RETRY, IsRetryableStatus, fn, ctxDone, draws, DoResult.Failed(Unavailable), calls, retries)
    ensures WrapSafe(RESERVE_RETRY.baseDelay, RESERVE_RETRY.maxDelay)
    ensures calls == 6
    ensures 3_050_000_000 <= SumBy(retries, DelayOf()) <= 6_100_000_000
    ensures var cap := (a: nat) => Cap(RESERVE_RETRY, a);
      cap(0) == 300_000_000 && cap(1) == 600_000_000 && cap(2) == 1_200_000_000 && cap(3) == cap(4) == 2_000_000_000
  {
    var cfg := RESERVE_RETRY;
    SmallProductIsWrapSafe(cfg.baseDelay, cfg.maxDelay);
    CapExact(cfg);
    assert Pow2(0) == 1 && Pow2(1) == 2 && Pow2(2) == 4 && Pow2(3) == 8 && Pow2(4) == 16;
    assert CappedFrom(cfg, 5, 3);
    ExhaustedRunBudget(cfg, IsRetryableStatus, fn, ctxDone, draws, Unavailable, calls, retries, 3);
    assert Cap(cfg, 0) == Min(cfg.baseDelay * Pow2(0), cfg.maxDelay) == 300_000_000;
    assert Cap(cfg, 1) == Min(cfg.baseDelay * Pow2(1), cfg.maxDelay) == 600_000_000;
    assert Cap(cfg, 2) == Min(cfg.baseDelay * Pow2(2), cfg.maxDelay) == 1_200_000_000;
    assert Cap(cfg, 3) == Min(cfg.baseDelay * Pow2(3), cfg.maxDelay) == 2_000_000_000;
    assert Cap(cfg, 4) == Min(cfg.baseDelay * Pow2(4), cfg.maxDelay) == 2_000_000_000;
    assert HalfCapSum(cfg, 2) == 450_000_000;
    assert HalfCapSum(cfg, 4) == 2_050_000_000;
    assert HalfCapSum(cfg, 5) == 3_050_000_000;
  }
}
