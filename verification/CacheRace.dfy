/** inventory-service/internal/inventory/caching_store.go with overlapping operations: every
    Redis command and every SQL statement is a step of its own, in any order. */
module CacheRace {
  import opened Common
  import opened Inventory
  import opened Cache

  /** The table as one statement left it, and when. */
  datatype Snapshot = Snapshot(items: Items, at: int)

  /** A GetItem that missed and has read the row but not yet called Set. */
  datatype Fill = Fill(sku: string, item: Item, version: nat, readAt: int)

  /** An entry with its provenance: the version and time of the read behind it, and the time
      from that read to the Set. */
  datatype Filled = Filled(payload: Option<Item>, version: nat, readAt: int, latency: int) {
    function ExpiresAt(): int {
      readAt + latency + CACHE_TTL
    }
  }

  /** One GetItem result. */
  datatype Served = Served(sku: string, item: Item, hit: bool, at: int, version: nat, readAt: int, latency: int)

  /** A reservation that matched no row and whose follow-up read is next. */
  datatype Refused = Refused(sku: string, quantity: int, fault: Fault, version: nat)

  /** What a write returned: the version its UPDATE met, and the one its follow-up read met. */
  datatype Answer = Answer(
    write: Write, fault: Fault, readFails: bool, version: nat, readVersion: nat, result: ItemResult)

  /** The database: every version of the table, the UPDATEs that ran (one for each version but the
      first), the reservations that are to read again, the ids of the writes so far, and the answers. */
  datatype Db = Db(
    history: seq<Snapshot>, writes: seq<Write>, refused: map<nat, Refused>, used: set<nat>, answers: seq<Answer>)

  /** `dels` are the invalidations still to be sent. */
  datatype State = State(
    db: Db, redis: map<string, Filled>, fills: map<nat, Fill>, dels: map<nat, string>, served: seq<Served>, now: int)

  datatype Action =
    | Advance(duration: nat)
    | Write(id: nat, write: Write, fault: Fault)
    | FollowUp(id: nat, readFails: bool)
    | Del(id: nat, fails: bool)
    | Hit(sku: string)
    | Read(id: nat, sku: string)
    | FinishFill(id: nat, setFails: bool)
    | Evict(key: string)
    | Corrupt(key: string)

  function Current(db: Db): Items {
    if db.history == [] then map[] else db.history[|db.history| - 1].items
  }

  function Rows(s: State): Items {
    Current(s.db)
  }

  function Init(items: Items): State {
    State(Db([Snapshot(items, 0)], [], map[], {}, []), map[], map[], map[], [], 0)
  }

  /** The UPDATE reaches the table, unless the fault prevents it. */
  function Execute(db: Db, write: Write, fault: Fault, now: int): Db {
    if fault.NotRun? then db
    else db.(history := db.history + [Snapshot(Update(Current(db), write).0, now)], writes := db.writes + [write])
  }

  /** The store acts on the UPDATE's result: it answers, or reads again. */
  function Settle(db: Db, id: nat, write: Write, fault: Fault, version: nat, updated: UpdateResult): Db {
    match updated
    case Returned(item) => db.(answers := db.answers + [Answer(write, fault, false, version, version, Ok(item))])
    case Failed => db.(answers := db.answers + [Answer(write, fault, false, version, version, Err(ErrDatabase))])
    case NoRows =>
      if write.Reserve? then db.(refused := db.refused[id := Refused(write.sku, write.quantity, fault, version)])
      else db.(answers := db.answers + [Answer(write, fault, false, version, version, Err(ErrNotFound))])
  }

  function UpdateSeen(db: Db, write: Write, fault: Fault): UpdateResult {
    FaultyUpdate(Current(db), write, fault).1
  }

  function Begin(db: Db, id: nat, write: Write, fault: Fault, now: int): Db
    requires db.history != []
  {
    Settle(Execute(db, write, fault, now).(used := db.used + {id}), id, write, fault, |db.history| - 1,
           UpdateSeen(db, write, fault))
  }

  function ReadAgain(db: Db, id: nat, readFails: bool): Db
    requires id in db.refused && db.history != []
  {
    var r := db.refused[id];
    var missing := ReadItem(Current(db), r.sku, readFails) == Err(ErrNotFound);
    var verdict := Err(if missing then ErrNotFound else ErrInsufficientStock);
    var write := Reserve(r.sku, r.quantity);
    db.(refused := db.refused - {id},
        answers := db.answers + [Answer(write, r.fault, readFails, r.version, |db.history| - 1, verdict)])
  }

  /** An action that cannot happen in the state leaves it as it is. */
  function Next(s: State, a: Action): State {
    match a
    case Advance(duration) => s.(now := s.now + duration)
    case Write(id, write, fault) =>
      if id in s.db.used || s.db.history == [] then s
      else s.(db := Begin(s.db, id, write, fault, s.now),
              dels := if UpdateSeen(s.db, write, fault).Returned? then s.dels[id := write.sku] else s.dels)
    case FollowUp(id, readFails) =>
      if id !in s.db.refused || s.db.history == [] then s else s.(db := ReadAgain(s.db, id, readFails))
    case Del(id, fails) =>
      if id !in s.dels then s
      else s.(dels := s.dels - {id}, redis := if fails then s.redis else s.redis - {CacheKey(s.dels[id])})
    case Hit(sku) =>
      var key := CacheKey(sku);
      if key !in s.redis || s.redis[key].payload.None? || s.now >= s.redis[key].ExpiresAt() then s
      else
        var e := s.redis[key];
        s.(served := s.served + [Served(sku, e.payload.value, true, s.now, e.version, e.readAt, e.latency)])
    case Read(id, sku) =>
      if sku !in Rows(s) then s
      else s.(fills := s.fills[id := Fill(sku, Rows(s)[sku], |s.db.history| - 1, s.now)])
    case FinishFill(id, setFails) =>
      if id !in s.fills then s
      else
        var f := s.fills[id];
        s.(fills := s.fills - {id},
           redis := if setFails then s.redis
                    else s.redis[CacheKey(f.sku) := Filled(Some(f.item), f.version, f.readAt, s.now - f.readAt)],
           served := s.served + [Served(f.sku, f.item, false, s.now, f.version, f.readAt, s.now - f.readAt)])
    case Evict(key) => s.(redis := s.redis - {key})
    case Corrupt(key) =>
      if key in s.redis then s.(redis := s.redis[key := s.redis[key].(payload := None)]) else s
  }

  function Run(s: State, actions: seq<Action>): State {
    if actions == [] then s else Next(Run(s, actions[..|actions| - 1]), actions[|actions| - 1])
  }

  /** The steps of reads and of Redis, one by one: what a hit serves, what a read keeps, what a
      fill stores and serves, and what a Del, an eviction and a corruption leave. */
  lemma ReadStepsExactly(s: State, id: nat, sku: string, key: string, duration: nat, fails: bool)
    ensures var k := "item:" + sku;
      var live := k in s.redis && s.redis[k].payload.Some? && s.now < s.redis[k].ExpiresAt();
      if !live then Next(s, Hit(sku)) == s
      else
        var e := s.redis[k];
        Next(s, Hit(sku)) == s.(served := s.served
          + [Served(sku, e.payload.value, true, s.now, e.version, e.readAt, e.latency)])
    ensures sku in Rows(s) ==>
      Next(s, Read(id, sku)) == s.(fills := s.fills[id := Fill(sku, Rows(s)[sku], |s.db.history| - 1, s.now)])
    ensures id in s.fills ==>
      var (f, s') := (s.fills[id], Next(s, FinishFill(id, fails)));
      && s'.served == s.served + [Served(f.sku, f.item, false, s.now, f.version, f.readAt, s.now - f.readAt)]
      && id !in s'.fills && s'.db == s.db
      && s'.redis == if fails then s.redis
           else s.redis["item:" + f.sku := Filled(Some(f.item), f.version, f.readAt, s.now - f.readAt)]
    ensures id in s.dels ==>
      Next(s, Del(id, fails)) == s.(dels := s.dels - {id},
                                    redis := if fails then s.redis else s.redis - {"item:" + s.dels[id]})
    ensures Next(s, Action.Evict(key)) == s.(redis := s.redis - {key})
    ensures key in s.redis ==>
      Next(s, Action.Corrupt(key)) == s.(redis := s.redis[key := s.redis[key].(payload := None)])
    ensures Next(s, Advance(duration)) == s.(now := s.now + duration)
  {
  }

  // ---------------------------------------------------------------- truth in time

  /** At time t the table was the given version: the last one not later than t, or one of
      several written at t itself. */
  ghost predicate CurrentAt(history: seq<Snapshot>, version: nat, t: int)
    requires version < |history|
  {
    history[version].at <= t && forall u :: version < u < |history| ==> t <= history[u].at
  }

  /** The item was the row's value at time t. */
  ghost predicate TrueAt(history: seq<Snapshot>, sku: string, item: Item, version: nat, t: int) {
    && version < |history|
    && sku in history[version].items && history[version].items[sku] == item
    && CurrentAt(history, version, t)
  }

  ghost predicate HistoryOk(s: State) {
    && s.db.history != []
    && forall u :: 0 <= u < |s.db.history| ==> s.db.history[u].at <= s.now
  }

  ghost predicate FillsOk(s: State) {
    forall id <- s.fills ::
      var f := s.fills[id];
      f.readAt <= s.now && TrueAt(s.db.history, f.sku, f.item, f.version, f.readAt)
  }

  ghost predicate EntriesOk(s: State) {
    forall sku :: CacheKey(sku) in s.redis ==>
      var e := s.redis[CacheKey(sku)];
      && 0 <= e.latency && e.readAt + e.latency <= s.now
      && (e.payload.Some? ==> TrueAt(s.db.history, sku, e.payload.value, e.version, e.readAt))
  }

  /** A result was the row's true value at some earlier instant, and a hit is younger than the
      time to live plus the read-to-Set time of the fill it came from. */
  ghost predicate ServedOk(s: State, r: Served) {
    && TrueAt(s.db.history, r.sku, r.item, r.version, r.readAt)
    && r.readAt <= r.at <= s.now
    && (r.hit ==> r.at - r.readAt < CACHE_TTL + r.latency)
  }

  ghost predicate Inv(s: State) {
    HistoryOk(s) && FillsOk(s) && EntriesOk(s) && forall r <- s.served :: ServedOk(s, r)
  }

  lemma TrueStaysTrue(history: seq<Snapshot>, next: Snapshot, sku: string, item: Item, version: nat, t: int)
    requires TrueAt(history, sku, item, version, t) && t <= next.at
    ensures TrueAt(history + [next], sku, item, version, t)
  {
  }

  /** A write adds a version at most, and nothing else that reads could see. */
  lemma BeginGrows(db: Db, id: nat, write: Write, fault: Fault, now: int)
    requires db.history != []
    ensures var db' := Begin(db, id, write, fault, now);
      db'.history == db.history || (exists items :: db'.history == db.history + [Snapshot(items, now)])
  {
  }

  lemma LongerHistoryKeepsInv(s: State, s': State, next: Snapshot)
    requires Inv(s) && next.at == s.now
    requires s'.db.history == s.db.history + [next]
    requires s'.redis == s.redis && s'.fills == s.fills && s'.served == s.served && s'.now == s.now
    ensures Inv(s')
  {
    forall id <- s.fills
      ensures TrueAt(s'.db.history, s.fills[id].sku, s.fills[id].item, s.fills[id].version, s.fills[id].readAt)
    {
      TrueStaysTrue(s.db.history, next, s.fills[id].sku, s.fills[id].item, s.fills[id].version, s.fills[id].readAt);
    }
    forall sku | CacheKey(sku) in s.redis && s.redis[CacheKey(sku)].payload.Some?
      ensures var e := s.redis[CacheKey(sku)];
              TrueAt(s'.db.history, sku, e.payload.value, e.version, e.readAt)
    {
      var e := s.redis[CacheKey(sku)];
      TrueStaysTrue(s.db.history, next, sku, e.payload.value, e.version, e.readAt);
    }
    forall r <- s.served
      ensures ServedOk(s', r)
    {
      TrueStaysTrue(s.db.history, next, r.sku, r.item, r.version, r.readAt);
    }
  }

  lemma WriteKeepsInv(s: State, a: Action)
    requires Inv(s) && a.Write?
    ensures Inv(Next(s, a))
  {
    var s' := Next(s, a);
    if a.id !in s.db.used {
      BeginGrows(s.db, a.id, a.write, a.fault, s.now);
      if s'.db.history != s.db.history {
        LongerHistoryKeepsInv(s, s', s'.db.history[|s.db.history|]);
      }
    }
  }

  lemma TimeKeepsServed(s: State, s': State)
    requires s'.db.history == s.db.history && s.now <= s'.now
    ensures forall r <- s.served :: ServedOk(s, r) ==> ServedOk(s', r)
  {
  }

  lemma FinishFillKeepsInv(s: State, a: Action)
    requires Inv(s) && a.FinishFill?
    ensures Inv(Next(s, a))
  {
    CacheKeyInjective();
    var s' := Next(s, a);
    TimeKeepsServed(s, s');
    if a.id in s.fills {
      var f := s.fills[a.id];
      assert forall sku :: CacheKey(sku) in s'.redis ==>
        || (sku == f.sku && s'.redis[CacheKey(sku)] == Filled(Some(f.item), f.version, f.readAt, s.now - f.readAt))
        || (CacheKey(sku) in s.redis && s'.redis[CacheKey(sku)] == s.redis[CacheKey(sku)]);
      assert ServedOk(s', s'.served[|s.served|]);
    }
  }

  lemma HitKeepsInv(s: State, a: Action)
    requires Inv(s) && a.Hit?
    ensures Inv(Next(s, a))
  {
    var s' := Next(s, a);
    TimeKeepsServed(s, s');
    if s' != s {
      assert ServedOk(s', s'.served[|s.served|]);
    }
  }

  /** The cache only loses entries or payloads. */
  lemma ShrinkingKeepsInv(s: State, s': State)
    requires Inv(s) && s'.db.history == s.db.history && s'.fills == s.fills && s'.served == s.served && s.now <= s'.now
    requires forall key <- s'.redis ::
      key in s.redis && (s'.redis[key] == s.redis[key] || s'.redis[key] == s.redis[key].(payload := None))
    ensures Inv(s')
  {
    TimeKeepsServed(s, s');
  }

  lemma OtherKeepsInv(s: State, a: Action)
    requires Inv(s) && (a.Advance? || a.FollowUp? || a.Del? || a.Read? || a.Evict? || a.Corrupt?)
    ensures Inv(Next(s, a))
  {
    if a.Read? {
      TimeKeepsServed(s, Next(s, a));
    } else {
      OnlyShrinks(s, a);
      ShrinkingKeepsInv(s, Next(s, a));
    }
  }

  lemma OnlyShrinks(s: State, a: Action)
    requires a.Advance? || a.FollowUp? || a.Del? || a.Evict? || a.Corrupt?
    ensures var s' := Next(s, a);
      && s'.db.history == s.db.history && s'.fills == s.fills && s'.served == s.served && s.now <= s'.now
      && forall key <- s'.redis ::
           key in s.redis && (s'.redis[key] == s.redis[key] || s'.redis[key] == s.redis[key].(payload := None))
  {
  }

  /** Whatever overlaps and whatever fails, no GetItem result is invented and no hit is older
      than its read by the time to live plus that fill's latency. */
  lemma {:induction false} BoundedStaleness(items: Items, actions: seq<Action>)
    ensures Inv(Run(Init(items), actions))
  {
    if actions != [] {
      var s, a := Run(Init(items), actions[..|actions| - 1]), actions[|actions| - 1];
      BoundedStaleness(items, actions[..|actions| - 1]);
      match a
      case Write(_, _, _) => WriteKeepsInv(s, a);
      case FinishFill(_, _) => FinishFillKeepsInv(s, a);
      case Hit(_) => HitKeepsInv(s, a);
      case _ => OtherKeepsInv(s, a);
    }
  }

  /** The order in which a fill overtakes an invalidation. */
  function Overtaking(sku: string, quantity: int, latency: nat): seq<Action> {
    [Read(0, sku), Write(1, Reserve(sku, quantity), NoFault), Del(1, false), Advance(latency),
     FinishFill(0, false), Advance(CACHE_TTL - 1), Hit(sku)]
  }

  /** The bound is reached for every latency: although every command succeeds, a reservation
      and its Del are followed by a hit that still shows the old stock. */
  lemma StaleHit(items: Items, sku: string, quantity: int, latency: nat)
    requires ValidItems(items) && 0 < quantity && Reserve(sku, quantity).Matches(items)
    ensures var s := Run(Init(items), Overtaking(sku, quantity, latency));
      && |s.served| == 2 && s.served[1].hit
      && sku in Rows(s) && s.served[1].item == items[sku] != Rows(s)[sku]
      && s.served[1].at - s.served[1].readAt == CACHE_TTL + latency - 1
  {
    var actions := Overtaking(sku, quantity, latency);
    var s0 := Init(items);
    var s1, s2 := Next(s0, actions[0]), Next(Next(s0, actions[0]), actions[1]);
    var s3 := Next(s2, actions[2]);
    var s4 := Next(s3, actions[3]);
    var s5 := Next(s4, actions[4]);
    var s6 := Next(s5, actions[5]);
    var s7 := Next(s6, actions[6]);
    RunPrefixes(s0, actions, [s0, s1, s2, s3, s4, s5, s6, s7]);
  }

  /** A list of successive states is the run. */
  lemma {:induction false} RunPrefixes(s: State, actions: seq<Action>, states: seq<State>)
    requires |states| == |actions| + 1 && states[0] == s
    requires forall k :: 0 <= k < |actions| ==> states[k + 1] == Next(states[k], actions[k])
    ensures Run(s, actions) == states[|actions|]
  {
    if actions != [] {
      RunPrefixes(s, actions[..|actions| - 1], states[..|actions|]);
    }
  }

  // ---------------------------------------------------------------- when a hit is never stale

  /** What a hit on the item would serve. */
  function Shown(s: State, sku: string): Option<Item> {
    var key := CacheKey(sku);
    if key in s.redis && s.now < s.redis[key].ExpiresAt() then s.redis[key].payload else None
  }

  function RowOf(s: State, sku: string): Option<Item> {
    if sku in Rows(s) then Some(Rows(s)[sku]) else None
  }

  /** A write to the item has succeeded and its Del is still to be sent. */
  ghost predicate Invalidating(s: State, sku: string) {
    exists id :: id in s.dels && s.dels[id] == sku
  }

  ghost predicate FreshAt(s: State, sku: string) {
    Shown(s, sku).Some? && !Invalidating(s, sku) ==> Shown(s, sku) == RowOf(s, sku)
  }

  /** No hit is stale, except between a write and its Del. */
  ghost predicate Fresh(s: State) {
    forall sku :: FreshAt(s, sku)
  }

  /** The three ways to leave a stale entry that nothing is about to delete: a write that took
      effect but lost its answer, so that no Del follows; the last Del failing; and a fill whose
      Set comes after the row changed and after the Del. */
  ghost predicate Overtakes(s: State, a: Action) {
    match a
    case Write(id, write, fault) =>
      && id !in s.db.used && fault.AnswerLost?
      && Update(Rows(s), write).0 != Rows(s)
      && Shown(s, write.sku).Some? && !Invalidating(s, write.sku)
    case Del(id, fails) =>
      && id in s.dels && fails
      && Shown(s, s.dels[id]).Some? && Shown(s, s.dels[id]) != RowOf(s, s.dels[id])
      && (forall other <- s.dels :: s.dels[other] == s.dels[id] ==> other == id)
    case FinishFill(id, setFails) =>
      && id in s.fills && !setFails
      && RowOf(s, s.fills[id].sku) != Some(s.fills[id].item)
      && !Invalidating(s, s.fills[id].sku)
    case _ => false
  }

  /** The item whose entry, row or pending Dels the action may change. */
  predicate Touches(s: State, a: Action, sku: string) {
    match a
    case Write(_, write, _) => write.sku == sku
    case Del(id, _) => id in s.dels && s.dels[id] == sku
    case FinishFill(id, _) => id in s.fills && s.fills[id].sku == sku
    case _ => false
  }

  /** The row, entry and pending Dels of an item are what its freshness depends on. */
  lemma SameIsFresh(s: State, s': State, sku: string)
    requires FreshAt(s, sku) && RowOf(s', sku) == RowOf(s, sku)
    requires Shown(s', sku) == Shown(s, sku) || Shown(s', sku).None?
    requires forall id :: id in s.dels && s.dels[id] == sku ==> id in s'.dels && s'.dels[id] == sku
    ensures FreshAt(s', sku)
  {
  }

  lemma OtherRowStays(items: Items, w: Write, sku: string)
    requires sku != w.sku
    ensures var after := Update(items, w).0;
      (sku in after <==> sku in items) && (sku in items ==> after[sku] == items[sku])
  {
  }

  lemma BeginRows(db: Db, id: nat, write: Write, fault: Fault, now: int)
    requires db.history != []
    ensures Current(Begin(db, id, write, fault, now))
         == if fault.NotRun? then Current(db) else Update(Current(db), write).0
  {
  }

  lemma OthersStayFresh(s: State, a: Action, sku: string)
    requires FreshAt(s, sku) && !Touches(s, a, sku)
    requires forall id <- s.dels :: id in s.db.used
    ensures FreshAt(Next(s, a), sku)
  {
    var s' := Next(s, a);
    CacheKeyInjective();
    if a.Write? {
      if a.id !in s.db.used && s.db.history != [] {
        BeginRows(s.db, a.id, a.write, a.fault, s.now);
        OtherRowStays(Rows(s), a.write, sku);
        SameIsFresh(s, s', sku);
      }
    } else {
      assert Rows(s') == Rows(s);
      SameIsFresh(s, s', sku);
    }
  }

  /** A write without an answer changes the row exactly if it changes the table. */
  lemma RowMoves(items: Items, w: Write)
    ensures var after := Update(items, w).0;
      (after == items) <==> (w.sku in items ==> w.sku in after && after[w.sku] == items[w.sku])
  {
    var after := Update(items, w).0;
    if after != items {
      assert after == items[w.sku := after[w.sku]];
    }
  }

  lemma WriteFreshness(s: State, a: Action)
    requires a.Write? && FreshAt(s, a.write.sku) && s.db.history != [] && a.id !in s.db.used
    ensures FreshAt(Next(s, a), a.write.sku) <==> !Overtakes(s, a)
  {
    var s', sku, updated := Next(s, a), a.write.sku, UpdateSeen(s.db, a.write, a.fault);
    BeginRows(s.db, a.id, a.write, a.fault, s.now);
    assert Shown(s', sku) == Shown(s, sku);
    if updated.Returned? {
      assert a.id in s'.dels && s'.dels[a.id] == sku;
      assert Invalidating(s', sku);
      assert !a.fault.AnswerLost?;
    } else {
      assert s'.dels == s.dels && (Invalidating(s', sku) <==> Invalidating(s, sku));
      RowMoves(Rows(s), a.write);
      if !a.fault.AnswerLost? {
        UpdateOrNot(Rows(s), a.write, a.fault);
      }
    }
  }

  /** An UPDATE that is answered without a row has changed nothing. */
  lemma UpdateOrNot(items: Items, w: Write, fault: Fault)
    requires !FaultyUpdate(items, w, fault).1.Returned? && !fault.AnswerLost?
    ensures fault.NotRun? || Update(items, w).0 == items
  {
  }

  lemma DelFreshness(s: State, a: Action)
    requires a.Del? && a.id in s.dels && FreshAt(s, s.dels[a.id])
    ensures FreshAt(Next(s, a), s.dels[a.id]) <==> !Overtakes(s, a)
  {
    var s', sku := Next(s, a), s.dels[a.id];
    assert Invalidating(s, sku);
    assert RowOf(s', sku) == RowOf(s, sku);
    if other :| other in s.dels && s.dels[other] == sku && other != a.id {
      assert other in s'.dels && s'.dels[other] == sku;
    }
  }

  lemma FillFreshness(s: State, a: Action)
    requires a.FinishFill? && a.id in s.fills && FreshAt(s, s.fills[a.id].sku)
    ensures FreshAt(Next(s, a), s.fills[a.id].sku) <==> !Overtakes(s, a)
  {
    var s', f := Next(s, a), s.fills[a.id];
    assert RowOf(s', f.sku) == RowOf(s, f.sku) && s'.dels == s.dels;
    assert Invalidating(s', f.sku) <==> Invalidating(s, f.sku);
    assert Shown(s', f.sku) == if a.setFails then Shown(s, f.sku) else Some(f.item);
  }

  /** A step keeps every hit fresh exactly if it is none of the three. */
  lemma OvertakingIsExact(s: State, a: Action)
    requires Fresh(s) && s.db.history != [] && forall id <- s.dels :: id in s.db.used
    ensures Fresh(Next(s, a)) <==> !Overtakes(s, a)
  {
    forall sku | !Touches(s, a, sku)
      ensures FreshAt(Next(s, a), sku)
    {
      OthersStayFresh(s, a, sku);
    }
    match a
    case Write(_, write, _) =>
      if a.id !in s.db.used {
        WriteFreshness(s, a);
        assert Fresh(Next(s, a)) <==> FreshAt(Next(s, a), write.sku);
      }
    case Del(id, _) =>
      if id in s.dels {
        DelFreshness(s, a);
        assert Fresh(Next(s, a)) <==> FreshAt(Next(s, a), s.dels[id]);
      }
    case FinishFill(id, _) =>
      if id in s.fills {
        FillFreshness(s, a);
        assert Fresh(Next(s, a)) <==> FreshAt(Next(s, a), s.fills[id].sku);
      }
    case _ =>
  }

  ghost predicate IdsOk(s: State) {
    s.db.history != [] && forall id <- s.dels :: id in s.db.used
  }

  lemma BeginUses(db: Db, id: nat, write: Write, fault: Fault, now: int)
    requires db.history != []
    ensures var db' := Begin(db, id, write, fault, now);
      db'.history != [] && db'.used == db.used + {id}
  {
  }

  lemma StepKeepsIds(s: State, a: Action)
    requires IdsOk(s)
    ensures IdsOk(Next(s, a))
  {
    if a.Write? && a.id !in s.db.used {
      BeginUses(s.db, a.id, a.write, a.fault, s.now);
    }
  }

  lemma {:induction false} IdsAreUsed(items: Items, actions: seq<Action>)
    ensures IdsOk(Run(Init(items), actions))
  {
    if actions != [] {
      IdsAreUsed(items, actions[..|actions| - 1]);
      StepKeepsIds(Run(Init(items), actions[..|actions| - 1]), actions[|actions| - 1]);
    }
  }

  /** The state after the first k actions. */
  function After(items: Items, actions: seq<Action>, k: nat): State
    requires k <= |actions|
  {
    Run(Init(items), actions[..k])
  }

  lemma NextAfter(items: Items, actions: seq<Action>, k: nat)
    requires k < |actions|
    ensures After(items, actions, k + 1) == Next(After(items, actions, k), actions[k])
  {
    assert actions[..k + 1][..k] == actions[..k];
  }

  /** What holds at first and passes on from each step exactly if the step is sound, holds throughout
      exactly if every step is sound. */
  lemma {:induction false} Throughout(holds: int -> bool, sound: int -> bool, n: nat)
    requires holds(0)
    requires forall k :: 0 <= k < n && holds(k) ==> (holds(k + 1) <==> sound(k))
    ensures (forall k :: 0 <= k <= n ==> holds(k)) <==> (forall k :: 0 <= k < n ==> sound(k))
  {
    if n > 0 {
      Throughout(holds, sound, n - 1);
      var k := n - 1;
      assert holds(k) ==> (holds(k + 1) <==> sound(k));
      assert (forall j :: 0 <= j <= n ==> holds(j)) <==> (forall j :: 0 <= j <= k ==> holds(j)) && holds(k + 1);
      assert (forall j :: 0 <= j < n ==> sound(j)) <==> (forall j :: 0 <= j < k ==> sound(j)) && sound(k);
    }
  }

  lemma FreshOneMore(items: Items, actions: seq<Action>, k: nat)
    requires k < |actions| && Fresh(After(items, actions, k))
    ensures Fresh(After(items, actions, k + 1)) <==> !Overtakes(After(items, actions, k), actions[k])
  {
    IdsAreUsed(items, actions[..k]);
    NextAfter(items, actions, k);
    OvertakingIsExact(After(items, actions, k), actions[k]);
  }

  /** Over a whole run: hits are fresh throughout exactly if no step overtakes. */
  lemma FreshThroughout(items: Items, actions: seq<Action>)
    ensures (forall k :: 0 <= k <= |actions| ==> Fresh(After(items, actions, k)))
       <==> (forall k :: 0 <= k < |actions| ==> !Overtakes(After(items, actions, k), actions[k]))
  {
    var holds := k => 0 <= k <= |actions| && Fresh(After(items, actions, k));
    var sound := k => 0 <= k < |actions| && !Overtakes(After(items, actions, k), actions[k]);
    assert Fresh(Init(items)) && After(items, actions, 0) == Init(items);
    forall k | 0 <= k < |actions| && holds(k)
      ensures holds(k + 1) <==> sound(k)
    {
      FreshOneMore(items, actions, k);
    }
    Throughout(holds, sound, |actions|);
    assert forall k :: 0 <= k <= |actions| ==> (holds(k) <==> Fresh(After(items, actions, k)));
    assert forall k :: 0 <= k < |actions| ==> (sound(k) <==> !Overtakes(After(items, actions, k), actions[k]));
  }

  /** Then every hit outside a pending invalidation shows the row as it is. */
  lemma FreshHitShowsRow(items: Items, actions: seq<Action>, n: nat, sku: string)
    requires n <= |actions|
    requires forall k :: 0 <= k < |actions| ==> !Overtakes(After(items, actions, k), actions[k])
    ensures var (s, s') := (After(items, actions, n), Next(After(items, actions, n), Hit(sku)));
      s' != s && !Invalidating(s, sku) ==>
        && sku in Rows(s)
        && |s'.served| == |s.served| + 1
        && s'.served[|s.served|].item == Rows(s)[sku]
  {
    FreshThroughout(items, actions);
    assert FreshAt(After(items, actions, n), sku);
  }

  // ---------------------------------------------------------------- when no hit at all is stale

  ghost predicate TrueHit(s: State, sku: string) {
    Shown(s, sku).Some? ==> Shown(s, sku) == RowOf(s, sku)
  }

  /** No hit is stale, not even between a write and its Del. */
  ghost predicate AllTrue(s: State) {
    forall sku :: TrueHit(s, sku)
  }

  /** An UPDATE that changes the row under an entry, answered or not, or a Set of a row that has
      changed. */
  predicate Outdates(s: State, a: Action) {
    match a
    case Write(id, write, fault) =>
      && id !in s.db.used && !fault.NotRun?
      && Update(Rows(s), write).0 != Rows(s)
      && Shown(s, write.sku).Some?
    case FinishFill(id, setFails) =>
      id in s.fills && !setFails && RowOf(s, s.fills[id].sku) != Some(s.fills[id].item)
    case _ => false
  }

  lemma OthersStayTrue(s: State, a: Action, sku: string)
    requires TrueHit(s, sku) && (a.Del? || !Touches(s, a, sku))
    ensures TrueHit(Next(s, a), sku)
  {
    var s' := Next(s, a);
    CacheKeyInjective();
    if a.Write? {
      if a.id !in s.db.used && s.db.history != [] {
        BeginRows(s.db, a.id, a.write, a.fault, s.now);
        OtherRowStays(Rows(s), a.write, sku);
      }
    } else {
      assert Rows(s') == Rows(s);
      assert Shown(s', sku) == Shown(s, sku) || Shown(s', sku).None?;
    }
  }

  lemma WriteTruth(s: State, a: Action)
    requires a.Write? && TrueHit(s, a.write.sku) && s.db.history != [] && a.id !in s.db.used
    ensures TrueHit(Next(s, a), a.write.sku) <==> !Outdates(s, a)
  {
    BeginRows(s.db, a.id, a.write, a.fault, s.now);
    RowMoves(Rows(s), a.write);
    assert Shown(Next(s, a), a.write.sku) == Shown(s, a.write.sku);
  }

  lemma FillTruth(s: State, a: Action)
    requires a.FinishFill? && a.id in s.fills && TrueHit(s, s.fills[a.id].sku)
    ensures TrueHit(Next(s, a), s.fills[a.id].sku) <==> !Outdates(s, a)
  {
    var s', f := Next(s, a), s.fills[a.id];
    assert RowOf(s', f.sku) == RowOf(s, f.sku);
    assert Shown(s', f.sku) == if a.setFails then Shown(s, f.sku) else Some(f.item);
  }

  /** A step keeps every hit true exactly if it is neither of the two. */
  lemma OutdatingIsExact(s: State, a: Action)
    requires AllTrue(s) && s.db.history != []
    ensures AllTrue(Next(s, a)) <==> !Outdates(s, a)
  {
    forall sku | a.Del? || !Touches(s, a, sku)
      ensures TrueHit(Next(s, a), sku)
    {
      OthersStayTrue(s, a, sku);
    }
    match a
    case Write(id, write, _) =>
      if id !in s.db.used {
        WriteTruth(s, a);
        assert AllTrue(Next(s, a)) <==> TrueHit(Next(s, a), write.sku);
      }
    case FinishFill(id, _) =>
      if id in s.fills {
        FillTruth(s, a);
        assert AllTrue(Next(s, a)) <==> TrueHit(Next(s, a), s.fills[id].sku);
      }
    case _ =>
  }

  lemma TrueOneMore(items: Items, actions: seq<Action>, k: nat)
    requires k < |actions| && AllTrue(After(items, actions, k))
    ensures AllTrue(After(items, actions, k + 1)) <==> !Outdates(After(items, actions, k), actions[k])
  {
    IdsAreUsed(items, actions[..k]);
    NextAfter(items, actions, k);
    OutdatingIsExact(After(items, actions, k), actions[k]);
  }

  /** Over a whole run: never, at any step, could a hit be stale, exactly if no step outdates an entry. */
  lemma NeverStaleExactly(items: Items, actions: seq<Action>)
    ensures (forall k :: 0 <= k <= |actions| ==> AllTrue(After(items, actions, k)))
       <==> (forall k :: 0 <= k < |actions| ==> !Outdates(After(items, actions, k), actions[k]))
  {
    var holds := k => 0 <= k <= |actions| && AllTrue(After(items, actions, k));
    var sound := k => 0 <= k < |actions| && !Outdates(After(items, actions, k), actions[k]);
    assert AllTrue(Init(items)) && After(items, actions, 0) == Init(items);
    forall k | 0 <= k < |actions| && holds(k)
      ensures holds(k + 1) <==> sound(k)
    {
      TrueOneMore(items, actions, k);
    }
    Throughout(holds, sound, |actions|);
    assert forall k :: 0 <= k <= |actions| ==> (holds(k) <==> AllTrue(After(items, actions, k)));
    assert forall k :: 0 <= k < |actions| ==> (sound(k) <==> !Outdates(After(items, actions, k), actions[k]));
  }

  // ---------------------------------------------------------------- writes and the cache

  /** What is left of a run without Redis: writes, their follow-up reads, and time. */
  function WithoutCache(actions: seq<Action>): seq<Action> {
    if actions == [] then []
    else
      var (before, a) := (WithoutCache(actions[..|actions| - 1]), actions[|actions| - 1]);
      if a.Write? || a.FollowUp? || a.Advance? then before + [a] else before
  }

  /** The table in all its versions and the answer of every write are what they would be without
      a cache: no cache content, cache fault or overlap with reads has any influence on them. */
  lemma {:induction false} TableIgnoresCache(items: Items, actions: seq<Action>)
    ensures var (s, bare) := (Run(Init(items), actions), Run(Init(items), WithoutCache(actions)));
      s.db == bare.db && s.now == bare.now
  {
    if actions != [] {
      var before, a := actions[..|actions| - 1], actions[|actions| - 1];
      TableIgnoresCache(items, before);
      var bare := WithoutCache(before);
      assert (bare + [a])[..|bare|] == bare;
      StepIgnoresCache(Run(Init(items), before), Run(Init(items), bare), a);
    }
  }

  lemma StepIgnoresCache(s: State, t: State, a: Action)
    requires s.db == t.db && s.now == t.now
    ensures var t' := if a.Write? || a.FollowUp? || a.Advance? then Next(t, a) else t;
      Next(s, a).db == t'.db && Next(s, a).now == t'.now
  {
  }

  /** Each version of the table is the one before under the UPDATE between them. */
  ghost predicate Versioned(db: Db) {
    && |db.history| == |db.writes| + 1
    && forall k :: 0 <= k < |db.writes| ==> db.history[k + 1].items == Update(db.history[k].items, db.writes[k]).0
  }

  lemma {:induction false} UpdateAllAppend(items: Items, ws: seq<Write>, w: Write)
    ensures UpdateAll(items, ws + [w]) == Update(UpdateAll(items, ws), w).0
  {
    if ws == [] {
      assert ([] + [w])[1..] == [];
    } else {
      assert (ws + [w])[1..] == ws[1..] + [w];
      UpdateAllAppend(Update(items, ws[0]).0, ws[1..], w);
    }
  }

  lemma {:induction false} VersionsBetween(db: Db, v: nat, u: nat)
    requires Versioned(db) && v <= u < |db.history|
    ensures UpdateAll(db.history[v].items, db.writes[v..u]) == db.history[u].items
  {
    if v < u {
      VersionsBetween(db, v, u - 1);
      assert db.writes[v..u] == db.writes[v..u - 1] + [db.writes[u - 1]];
      UpdateAllAppend(db.history[v].items, db.writes[v..u - 1], db.writes[u - 1]);
    } else {
      assert db.writes[v..u] == [];
    }
  }

  /** The UPDATEs that ran between a refused reservation and its follow-up read. */
  function Between(db: Db, a: Answer): seq<Write> {
    if a.version < a.readVersion <= |db.writes| then db.writes[a.version + 1..a.readVersion] else []
  }

  /** A write answered as the bare store answers: one UPDATE on the version it met and, for a
      refusal, a read after the UPDATEs that came between. */
  ghost predicate AnswerOk(db: Db, a: Answer) {
    && a.version <= a.readVersion < |db.history| == |db.writes| + 1
    && var items := db.history[a.version].items;
       match a.write
       case Reserve(sku, quantity) =>
         a.result == ReserveOutcome(items, sku, quantity, a.fault, Between(db, a), a.readFails).1
       case Restock(sku, quantity) =>
         a.result == RestockOutcome(items, sku, quantity, a.fault).1
  }

  ghost predicate RefusedOk(db: Db, r: Refused) {
    && r.version + 1 < |db.history| == |db.writes| + 1
    && FaultyUpdate(db.history[r.version].items, Reserve(r.sku, r.quantity), r.fault)
       == (db.history[r.version + 1].items, NoRows)
  }

  ghost predicate AnswersOk(db: Db) {
    && Versioned(db)
    && (forall a <- db.answers :: AnswerOk(db, a))
    && (forall id <- db.refused :: RefusedOk(db, db.refused[id]))
  }

  lemma AnswerStays(db: Db, db': Db, a: Answer)
    requires AnswerOk(db, a) && db.history <= db'.history && db.writes <= db'.writes
    requires |db'.history| == |db'.writes| + 1
    ensures AnswerOk(db', a)
  {
    assert Between(db', a) == Between(db, a);
  }

  lemma AnswersStay(db: Db, db': Db)
    requires AnswersOk(db) && db.history <= db'.history && db.writes <= db'.writes
    requires |db'.history| == |db'.writes| + 1
    ensures forall a <- db.answers :: AnswerOk(db', a)
    ensures forall id <- db.refused :: RefusedOk(db', db.refused[id])
  {
    forall a <- db.answers
      ensures AnswerOk(db', a)
    {
      AnswerStays(db, db', a);
    }
  }

  lemma ExecuteKeepsAnswers(db: Db, write: Write, fault: Fault, now: int)
    requires AnswersOk(db)
    ensures AnswersOk(Execute(db, write, fault, now))
  {
    AnswersStay(db, Execute(db, write, fault, now));
  }

  /** An answer right away is right for the version the UPDATE met. */
  lemma AnswerAtOnce(db: Db, write: Write, fault: Fault, v: nat, result: ItemResult)
    requires v < |db.history| == |db.writes| + 1
    requires var updated := FaultyUpdate(db.history[v].items, write, fault).1;
      match updated
      case Returned(item) => result == Ok(item)
      case Failed => result == Err(ErrDatabase)
      case NoRows => write.Restock? && result == Err(ErrNotFound)
    ensures AnswerOk(db, Answer(write, fault, false, v, v, result))
  {
  }

  /** A refused reservation ran, and left the table as it was. */
  lemma RefusedRan(items: Items, w: Write, fault: Fault)
    requires FaultyUpdate(items, w, fault).1.NoRows?
    ensures fault.NoFault? && FaultyUpdate(items, w, fault).0 == Update(items, w).0
  {
  }

  /** What the store returns or remembers after the UPDATE is right for the version it met. */
  lemma SettleKeepsAnswers(db: Db, ran: Db, id: nat, write: Write, fault: Fault)
    requires AnswersOk(ran) && db.history != [] && |db.history| == |db.writes| + 1
    requires db.history <= ran.history
    requires !fault.NotRun? ==>
      |ran.history| == |db.history| + 1 && ran.history[|db.history|].items == Update(Current(db), write).0
    ensures AnswersOk(Settle(ran, id, write, fault, |db.history| - 1, UpdateSeen(db, write, fault)))
  {
    var v, updated := |db.history| - 1, UpdateSeen(db, write, fault);
    var db' := Settle(ran, id, write, fault, v, updated);
    assert ran.history[v] == db.history[v];
    AnswersStay(ran, db');
    if updated.NoRows? && write.Reserve? {
      RefusedRan(Current(db), write, fault);
      assert RefusedOk(db', db'.refused[id]);
    } else {
      var answer := db'.answers[|ran.answers|];
      AnswerAtOnce(db', write, fault, v, answer.result);
      assert forall x <- db'.answers :: x in ran.answers || x == answer;
    }
  }

  lemma BeginKeepsAnswers(db: Db, id: nat, write: Write, fault: Fault, now: int)
    requires AnswersOk(db)
    ensures AnswersOk(Begin(db, id, write, fault, now))
  {
    var ran := Execute(db, write, fault, now).(used := db.used + {id});
    ExecuteKeepsAnswers(db, write, fault, now);
    AnswersStay(Execute(db, write, fault, now), ran);
    SettleKeepsAnswers(db, ran, id, write, fault);
  }

  lemma ReadAgainKeepsAnswers(db: Db, id: nat, readFails: bool)
    requires AnswersOk(db) && id in db.refused
    ensures AnswersOk(ReadAgain(db, id, readFails))
  {
    var r, db' := db.refused[id], ReadAgain(db, id, readFails);
    var answer := db'.answers[|db.answers|];
    assert RefusedOk(db, r);
    VersionsBetween(db, r.version + 1, |db.history| - 1);
    AnswersStay(db, db');
    assert AnswerOk(db', answer);
    assert forall x <- db'.answers :: x in db.answers || x == answer;
  }

  lemma StepKeepsAnswers(s: State, a: Action)
    requires AnswersOk(s.db)
    ensures AnswersOk(Next(s, a).db) && Next(s, a).db.history[0] == s.db.history[0]
  {
    if a.Write? && a.id !in s.db.used {
      BeginKeepsAnswers(s.db, a.id, a.write, a.fault, s.now);
      BeginKeepsFirst(s.db, a.id, a.write, a.fault, s.now);
    } else if a.FollowUp? && a.id in s.db.refused {
      ReadAgainKeepsAnswers(s.db, a.id, a.readFails);
    } else {
      assert Next(s, a).db == s.db;
    }
  }

  lemma BeginKeepsFirst(db: Db, id: nat, write: Write, fault: Fault, now: int)
    requires db.history != []
    ensures var db' := Begin(db, id, write, fault, now);
      db'.history != [] && db'.history[0] == db.history[0]
  {
  }

  lemma {:induction false} EveryDbIsOk(items: Items, actions: seq<Action>)
    ensures var db := Run(Init(items), actions).db;
      AnswersOk(db) && db.history[0].items == items
  {
    if actions != [] {
      EveryDbIsOk(items, actions[..|actions| - 1]);
      StepKeepsAnswers(Run(Init(items), actions[..|actions| - 1]), actions[|actions| - 1]);
    }
  }

  /** Under every interleaving each write through the cache returned what the bare store returns,
      and the table is what the UPDATEs that ran make of it. */
  lemma AnswersAreTheStores(items: Items, actions: seq<Action>)
    ensures var db := Run(Init(items), actions).db;
      && (forall a <- db.answers :: AnswerOk(db, a))
      && Current(db) == UpdateAll(items, db.writes)
  {
    var db := Run(Init(items), actions).db;
    EveryDbIsOk(items, actions);
    VersionsBetween(db, 0, |db.writes|);
    assert db.writes[0..|db.writes|] == db.writes;
  }
}
