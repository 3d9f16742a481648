/** inventory-service/internal/inventory/caching_store.go: cache-aside over the store,
    with one operation running at a time. */
module Cache {
  import opened Common
  import opened Inventory

  /** 30 * time.Second, in nanoseconds. */
  const CACHE_TTL: int := 30_000_000_000

  /** A Redis value; no payload means bytes that do not decode. */
  datatype Entry = Entry(payload: Option<Item>, expiresAt: int)

  type Redis = map<string, Entry>

  function CacheKey(sku: string): string {
    "item:" + sku
  }

  lemma CacheKeyInjective()
    ensures forall s, t :: CacheKey(s) == CacheKey(t) ==> s == t
  {
    forall s, t | CacheKey(s) == CacheKey(t)
      ensures s == t
    {
      assert s == CacheKey(s)[|"item:"|..] == CacheKey(t)[|"item:"|..] == t;
    }
  }

  /** What a successful Get that also decodes returns. */
  function Lookup(redis: Redis, sku: string, now: int): Option<Item> {
    var key := CacheKey(sku);
    if key in redis && now < redis[key].expiresAt then redis[key].payload else None
  }

  /** The faults one operation may meet. */
  datatype Env = Env(now: int, getFails: bool, setFails: bool, delFails: bool, fault: Fault, readFails: bool)

  function CachedGet(redis: Redis, items: Items, sku: string, env: Env): (Redis, ItemResult) {
    var hit := if env.getFails then None else Lookup(redis, sku, env.now);
    if hit.Some? then (redis, Ok(hit.value))
    else
      var r := ReadItem(items, sku, env.readFails);
      if r.Err? || env.setFails then (redis, r)
      else (redis[CacheKey(sku) := Entry(Some(r.value), env.now + CACHE_TTL)], r)
  }

  /** A write returned r: a success deletes the entry. */
  function AfterWrite(redis: Redis, sku: string, r: ItemResult, delFails: bool): Redis {
    if r.Err? || delFails then redis else redis - {CacheKey(sku)}
  }

  class CachingStore {
    const next: PostgresStore
    var redis: Redis

    constructor (next: PostgresStore, redis: Redis)
      ensures this.next == next && this.redis == redis
    {
      this.next := next;
      this.redis := redis;
    }

    method GetItem(sku: string, env: Env) returns (r: ItemResult)
      modifies this`redis
      ensures (redis, r) == CachedGet(old(redis), next.items, sku, env)
      ensures forall key <- old(redis) :: key != "item:" + sku ==> key in redis && redis[key] == old(redis)[key]
    {
      var key := CacheKey(sku);
      if !env.getFails && key in redis && env.now < redis[key].expiresAt {
        var cached := redis[key].payload;
        if cached.Some? {
          return Ok(cached.value);
        }
      }
      r := next.GetItem(sku, env.readFails);
      if r.Err? {
        return;
      }
      Set(sku, r.value, env);
    }

    method ReserveStock(sku: string, quantity: int, env: Env) returns (r: ItemResult)
      modifies this`redis, next
      ensures (next.items, r) == ReserveOutcome(old(next.items), sku, quantity, env.fault, [], env.readFails)
      ensures redis == AfterWrite(old(redis), sku, r, env.delFails)
      ensures redis == if r.Ok? && !env.delFails then old(redis) - {"item:" + sku} else old(redis)
    {
      r := next.ReserveStock(sku, quantity, env.fault, [], env.readFails);
      if r.Err? {
        return;
      }
      Del(CacheKey(sku), env.delFails);
    }

    method RestockItem(sku: string, quantity: int, env: Env) returns (r: ItemResult)
      modifies this`redis, next
      ensures (next.items, r) == RestockOutcome(old(next.items), sku, quantity, env.fault)
      ensures redis == AfterWrite(old(redis), sku, r, env.delFails)
      ensures redis == if r.Ok? && !env.delFails then old(redis) - {"item:" + sku} else old(redis)
    {
      r := next.RestockItem(sku, quantity, env.fault);
      if r.Err? {
        return;
      }
      Del(CacheKey(sku), env.delFails);
    }

    method Set(sku: string, item: Item, env: Env)
      modifies this`redis
      ensures redis == if env.setFails then old(redis)
                       else old(redis)[CacheKey(sku) := Entry(Some(item), env.now + CACHE_TTL)]
    {
      if !env.setFails {
        redis := redis[CacheKey(sku) := Entry(Some(item), env.now + CACHE_TTL)];
      }
    }

    method Del(key: string, fails: bool)
      modifies this`redis
      ensures redis == if fails then old(redis) else old(redis) - {key}
    {
      if !fails {
        redis := redis - {key};
      }
    }
  }

  // ---------------------------------------------------------------- one GetItem

  /** The entry is there, decodes, and has time left. */
  predicate Live(redis: Redis, sku: string, now: int) {
    var key := "item:" + sku;
    key in redis && now < redis[key].expiresAt && redis[key].payload.Some?
  }

  /** GetItem in terms of Redis and the table alone: a live entry is served, and otherwise the row
      is, which a working Set leaves in Redis for 30 seconds. */
  lemma GetExactly(redis: Redis, items: Items, sku: string, env: Env)
    ensures var (redis', r) := CachedGet(redis, items, sku, env);
      if !env.getFails && Live(redis, sku, env.now) then redis' == redis && r == Ok(redis["item:" + sku].payload.value)
      else if env.readFails then redis' == redis && r == Err(ErrDatabase)
      else if sku !in items then redis' == redis && r == Err(ErrNotFound)
      else
        && r == Ok(items[sku])
        && redis' == if env.setFails then redis
                     else redis["item:" + sku := Entry(Some(items[sku]), env.now + 30_000_000_000)]
  {
  }

  /** What one GetItem fills in, another serves: for 30 seconds, whatever the database does, and
      no longer. */
  lemma FillIsServed(redis: Redis, items: Items, sku: string, env: Env, items': Items, later: Env)
    requires env.getFails || !Live(redis, sku, env.now)
    requires sku in items && !env.readFails && !env.setFails
    requires later.now >= env.now && !later.getFails
    ensures var r := CachedGet(CachedGet(redis, items, sku, env).0, items', sku, later).1;
      r == if later.now < env.now + 30_000_000_000 then Ok(items[sku]) else ReadItem(items', sku, later.readFails)
  {
  }

  // ---------------------------------------------------------------- runs of operations

  /** What a client, the clock or another Redis user does. */
  datatype Op =
    | Get(sku: string)
    | Change(write: Write)
    | Evict(key: string)
    | Corrupt(key: string)
    | Wait(duration: nat)

  datatype Step = Step(op: Op, getFails: bool, setFails: bool, delFails: bool, fault: Fault, readFails: bool)

  datatype Cached = Cached(redis: Redis, items: Items, now: int)

  function EnvOf(step: Step, now: int): Env {
    Env(now, step.getFails, step.setFails, step.delFails, step.fault, step.readFails)
  }

  /** The bare store's database effect and answer; a step of the cache's alone has no answer. */
  function PlainStep(items: Items, step: Step): (Items, Option<ItemResult>) {
    match step.op
    case Get(sku) => (items, Some(ReadItem(items, sku, step.readFails)))
    case Change(Reserve(sku, q)) =>
      var (after, r) := ReserveOutcome(items, sku, q, step.fault, [], step.readFails);
      (after, Some(r))
    case Change(Restock(sku, q)) =>
      var (after, r) := RestockOutcome(items, sku, q, step.fault);
      (after, Some(r))
    case _ => (items, None)
  }

  function CachedStep(c: Cached, step: Step): (Cached, Option<ItemResult>) {
    match step.op
    case Get(sku) =>
      var (redis, r) := CachedGet(c.redis, c.items, sku, EnvOf(step, c.now));
      (c.(redis := redis), Some(r))
    case Change(Reserve(sku, q)) =>
      var (items, r) := ReserveOutcome(c.items, sku, q, step.fault, [], step.readFails);
      (c.(redis := AfterWrite(c.redis, sku, r, step.delFails), items := items), Some(r))
    case Change(Restock(sku, q)) =>
      var (items, r) := RestockOutcome(c.items, sku, q, step.fault);
      (c.(redis := AfterWrite(c.redis, sku, r, step.delFails), items := items), Some(r))
    case Evict(key) => (c.(redis := c.redis - {key}), None)
    case Corrupt(key) =>
      (if key in c.redis then c.(redis := c.redis[key := c.redis[key].(payload := None)]) else c, None)
    case Wait(duration) => (c.(now := c.now + duration), None)
  }

  /** A step is the operation it stands for, with the cache and without. */
  lemma StepsAreOperations(c: Cached, step: Step)
    ensures var ((c', answer), (items', plain)) := (CachedStep(c, step), PlainStep(c.items, step));
      match step.op
      case Get(sku) =>
        && (c'.redis, answer.value) == CachedGet(c.redis, c.items, sku, EnvOf(step, c.now)) && answer.Some?
        && c'.items == c.items == items' && plain == Some(ReadItem(c.items, sku, step.readFails))
      case Change(w) =>
        && answer == plain && plain.Some? && c'.items == items'
        && (items', plain.value)
           == (if w.Reserve? then ReserveOutcome(c.items, w.sku, w.quantity, step.fault, [], step.readFails)
               else RestockOutcome(c.items, w.sku, w.quantity, step.fault))
        && c'.redis == if answer.value.Ok? && !step.delFails then c.redis - {"item:" + w.sku} else c.redis
      case Evict(key) => key !in c'.redis && c'.items == c.items == items'
      case Corrupt(key) => (key in c.redis ==> c'.redis == c.redis[key := Entry(None, c.redis[key].expiresAt)])
      case Wait(duration) => c' == c.(now := c.now + duration)
  {
  }

  function PlainRun(items: Items, steps: seq<Step>): (Items, seq<Option<ItemResult>>) {
    if steps == [] then (items, [])
    else
      var (after, r) := PlainStep(items, steps[0]);
      var (final, rs) := PlainRun(after, steps[1..]);
      (final, [r] + rs)
  }

  function CachedRun(c: Cached, steps: seq<Step>): (Cached, seq<Option<ItemResult>>)
    decreases |steps|
  {
    if steps == [] then (c, [])
    else
      var (after, r) := CachedStep(c, steps[0]);
      var (final, rs) := CachedRun(after, steps[1..]);
      (final, [r] + rs)
  }

  /** Everything the cache would serve is the row as it is. */
  ghost predicate Coherent(c: Cached) {
    forall sku :: Lookup(c.redis, sku, c.now).Some? ==>
      sku in c.items && Lookup(c.redis, sku, c.now).value == c.items[sku]
  }

  /** A write took effect but its entry was not deleted: either Del failed or the store reported
      an error for a statement that ran, so Del was never sent. */
  predicate SkipsInvalidation(c: Cached, step: Step) {
    && step.op.Change?
    && PlainStep(c.items, step).0 != c.items
    && (step.delFails || step.fault.AnswerLost?)
  }

  /** Writes go to the row and never to the cache, whatever the cache holds or fails to do. */
  lemma {:induction false} WritesIgnoreCache(c: Cached, steps: seq<Step>)
    ensures CachedRun(c, steps).0.items == PlainRun(c.items, steps).0
    ensures |CachedRun(c, steps).1| == |PlainRun(c.items, steps).1| == |steps|
    ensures forall k :: 0 <= k < |steps| && !steps[k].op.Get? ==>
      CachedRun(c, steps).1[k] == PlainRun(c.items, steps).1[k]
    decreases |steps|
  {
    if steps != [] {
      WritesIgnoreCache(CachedStep(c, steps[0]).0, steps[1..]);
      forall k | 0 <= k < |steps| && !steps[k].op.Get?
        ensures CachedRun(c, steps).1[k] == PlainRun(c.items, steps).1[k]
      {
        if k > 0 {
          assert steps[1..][k - 1] == steps[k];
        }
      }
    }
  }

  /** A write touches the row and the entry of its own item only. */
  lemma WriteFrame(c: Cached, step: Step)
    requires step.op.Change?
    ensures var (c', w) := (CachedStep(c, step).0, step.op.write);
      && c'.now == c.now
      && (c'.items == c.items
          || (&& w.sku in c.items && c'.items == c.items[w.sku := c'.items[w.sku]]
              && c'.items[w.sku] != c.items[w.sku]))
      && (c'.items != c.items && !SkipsInvalidation(c, step) ==> Lookup(c'.redis, w.sku, c'.now).None?)
      && (c'.items == c.items || SkipsInvalidation(c, step) ==>
            c'.redis == c.redis || Lookup(c'.redis, w.sku, c'.now).None?)
      && (SkipsInvalidation(c, step) ==> c'.redis == c.redis)
      && (forall sku :: sku != w.sku ==> Lookup(c'.redis, sku, c'.now) == Lookup(c.redis, sku, c.now))
  {
    CacheKeyInjective();
    var (c', w) := (CachedStep(c, step).0, step.op.write);
    assert c'.items == Update(c.items, w).0 || c'.items == c.items;
    if c'.items != c.items {
      assert c'.items == c.items[w.sku := c'.items[w.sku]];
    }
  }

  lemma WriteKeepsCoherence(c: Cached, step: Step)
    requires Coherent(c) && step.op.Change?
    ensures Coherent(CachedStep(c, step).0)
       <==> !(SkipsInvalidation(c, step) && Lookup(c.redis, step.op.write.sku, c.now).Some?)
  {
    WriteFrame(c, step);
    var (c', w) := (CachedStep(c, step).0, step.op.write);
    forall sku | Lookup(c'.redis, sku, c'.now).Some? && sku != w.sku
      ensures sku in c'.items && Lookup(c'.redis, sku, c'.now).value == c'.items[sku]
    {
      assert Lookup(c'.redis, sku, c'.now) == Lookup(c.redis, sku, c.now);
    }
  }

  lemma OtherStepKeepsCoherence(c: Cached, step: Step)
    requires Coherent(c) && !step.op.Change?
    ensures Coherent(CachedStep(c, step).0)
  {
    CacheKeyInjective();
    var c' := CachedStep(c, step).0;
    forall sku | Lookup(c'.redis, sku, c'.now).Some?
      ensures sku in c'.items && Lookup(c'.redis, sku, c'.now).value == c'.items[sku]
    {
      assert c'.items == c.items;
      if Lookup(c.redis, sku, c.now) != Lookup(c'.redis, sku, c'.now) {
        assert step.op == Get(sku);
      }
    }
  }

  /** One step keeps a coherent cache coherent exactly when it is not a write that skips
      invalidation while the cache would still serve its item. */
  lemma StepKeepsCoherence(c: Cached, step: Step)
    requires Coherent(c)
    ensures Coherent(CachedStep(c, step).0)
       <==> !(SkipsInvalidation(c, step) && Lookup(c.redis, step.op.write.sku, c.now).Some?)
  {
    if step.op.Change? {
      WriteKeepsCoherence(c, step);
    } else {
      OtherStepKeepsCoherence(c, step);
    }
  }

  /** The k-th cached answer is the bare store's; where the bare store would fail to read the
      row, it may instead be the row as it is at that point. */
  ghost predicate AnswersAgree(items: Items, steps: seq<Step>, cached: seq<Option<ItemResult>>, k: nat)
    requires k < |steps| == |cached|
  {
    || (k < |PlainRun(items, steps).1| && cached[k] == PlainRun(items, steps).1[k])
    || (&& steps[k].op.Get? && steps[k].readFails
        && cached[k] == Some(ReadItem(PlainRun(items, steps[..k]).0, steps[k].op.sku, false)))
  }

  /** The first answer of a coherent cache. */
  lemma FirstAnswerAgrees(c: Cached, step: Step)
    requires Coherent(c)
    ensures var (cached, plain) := (CachedStep(c, step).1, PlainStep(c.items, step).1);
      || cached == plain
      || (step.op.Get? && step.readFails && cached == Some(ReadItem(c.items, step.op.sku, false)))
  {
  }

  /** Later answers agree if they do from the second step on. */
  lemma LaterAnswerAgrees(items: Items, steps: seq<Step>, cached: seq<Option<ItemResult>>, k: nat)
    requires 0 < k < |steps| == |cached|
    requires AnswersAgree(PlainStep(items, steps[0]).0, steps[1..], cached[1..], k - 1)
    ensures AnswersAgree(items, steps, cached, k)
  {
    assert steps[..k][1..] == steps[1..][..k - 1];
    assert steps[..k][0] == steps[0];
  }

  /** Non-overlapping operations: with any Get and Set failures, expiries, evictions and
      undecodable entries, but no failed Del and no store error that hides an effect,
      the cached store answers as the bare store does. */
  lemma {:induction false} CachedRefinesPlain(c: Cached, steps: seq<Step>)
    requires Coherent(c)
    requires forall step <- steps :: !step.delFails && !step.fault.AnswerLost?
    ensures |CachedRun(c, steps).1| == |steps|
    ensures forall k :: 0 <= k < |steps| ==> AnswersAgree(c.items, steps, CachedRun(c, steps).1, k)
    ensures CachedRun(c, steps).0.items == PlainRun(c.items, steps).0
    ensures Coherent(CachedRun(c, steps).0)
    decreases |steps|
  {
    WritesIgnoreCache(c, steps);
    if steps != [] {
      var (c', first) := CachedStep(c, steps[0]);
      var rest, answers := steps[1..], CachedRun(c, steps).1;
      assert steps[0] in steps && forall step <- rest :: step in steps;
      StepKeepsCoherence(c, steps[0]);
      CachedRefinesPlain(c', rest);
      FirstAnswerAgrees(c, steps[0]);
      assert answers == [first] + CachedRun(c', rest).1;
      assert c'.items == PlainStep(c.items, steps[0]).0;
      forall k | 0 <= k < |steps|
        ensures AnswersAgree(c.items, steps, answers, k)
      {
        if k == 0 {
          assert steps[..0] == [];
        } else {
          assert answers[1..] == CachedRun(c', rest).1;
          LaterAnswerAgrees(c.items, steps, answers, k);
        }
      }
    }
  }
}
