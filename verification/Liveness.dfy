/** Progress in the whole system: one relay's polls, with any steps of requests, other relays, the
    broker and the consumer between any two of its own. */
module Liveness {
  import opened Common
  import opened MessageId
  import opened Inventory
  import opened Outbox
  import opened Broker
  import opened Orders
  import opened Protocol
  import opened EventSafety
  import opened Pipeline
  import opened Progress
  import Relay

  // ---------------------------------------------------------------- the polls of one relay

  /** The polls a relay has finished, and whether it is in one that began in this run. */
  datatype Polls = Polls(done: nat, open: bool)

  predicate Idle(b: Back, relay: nat) {
    relay in b.relays ==> b.relays[relay] == Publishing([])
  }

  /** A poll begins with a fetch, ends when the batch is used up, and is lost in a crash. */
  function AfterStep(p: Polls, b: Back, b': Back, relay: nat, a: Action): Polls {
    if a == BackStep(FetchBatch(relay)) && Idle(b, relay)
    then if Idle(b', relay) then Polls(p.done + 1, false) else Polls(p.done, true)
    else if a == BackStep(CrashRelay(relay)) then Polls(p.done, false)
    else if p.open && Idle(b', relay) then Polls(p.done + 1, false)
    else p
  }

  function PollsIn(env: Env, s: State, actions: seq<Action>, relay: nat): Polls {
    if actions == [] then Polls(0, false)
    else
      var (before, a) := (actions[..|actions| - 1], actions[|actions| - 1]);
      AfterStep(PollsIn(env, s, before, relay), Run(env, s, before).back, Run(env, s, actions).back, relay, a)
  }

  /** The state after the first k actions. */
  function StateAt(env: Env, s: State, actions: seq<Action>, k: nat): State
    requires k <= |actions|
  {
    Run(env, s, actions[..k])
  }

  lemma PollsNext(env: Env, s: State, actions: seq<Action>, relay: nat, k: nat)
    requires k < |actions|
    ensures PollsIn(env, s, actions[..k + 1], relay)
         == AfterStep(PollsIn(env, s, actions[..k], relay), StateAt(env, s, actions, k).back,
                      StateAt(env, s, actions, k + 1).back, relay, actions[k])
  {
    assert actions[..k + 1][..k] == actions[..k];
  }

  /** What counts as a finished poll: a fetch while the relay is idle, then no crash of it, until it
      is idle again, at once if there was nothing to fetch. */
  lemma {:induction false} PollCounts(env: Env, s: State, actions: seq<Action>, relay: nat, i: nat, j: nat)
    requires i <= j < |actions|
    requires actions[i] == BackStep(FetchBatch(relay)) && Idle(StateAt(env, s, actions, i).back, relay)
    requires forall k :: i < k <= j ==>
      actions[k] != BackStep(CrashRelay(relay)) && !Idle(StateAt(env, s, actions, k).back, relay)
    ensures var before := PollsIn(env, s, actions[..i], relay);
      PollsIn(env, s, actions[..j + 1], relay)
        == if Idle(StateAt(env, s, actions, j + 1).back, relay) then Polls(before.done + 1, false)
           else Polls(before.done, true)
  {
    PollsNext(env, s, actions, relay, j);
    if i < j {
      PollCounts(env, s, actions, relay, i, j - 1);
    }
  }

  // ---------------------------------------------------------------- steps that may be taken

  /** The relay is at this row. */
  predicate At(b: Back, relay: nat, marking: bool, id: int) {
    && relay in b.relays && b.relays[relay].batch != []
    && b.relays[relay].Marking? == marking && b.relays[relay].batch[0].id == id
  }

  /** The one relay publishes and marks the rows up to t that are not bad whenever it comes to them,
      and new rows are younger than t; every other step is free. */
  ghost predicate Allowed(b: Back, a: Action, relay: nat, bad: iset<int>, t: int) {
    match a
    case BackStep(PublishHead(r, fate)) =>
      forall id :: r == relay && At(b, r, false, id) && id <= t && id !in bad ==> fate.Acked?
    case BackStep(MarkHead(r, fault)) =>
      forall id :: r == relay && At(b, r, true, id) && id <= t && id !in bad ==> !fault.NotRun?
    case PersistOrder(_, _, rowId, _) => rowId > t
    case _ => true
  }

  ghost predicate AllAllowed(env: Env, s: State, actions: seq<Action>, relay: nat, bad: iset<int>, t: int) {
    forall k :: 0 <= k < |actions| ==> Allowed(Run(env, s, actions[..k]).back, actions[k], relay, bad, t)
  }

  // ---------------------------------------------------------------- rows only leave

  lemma MarkLeaves(rows: seq<Row>, id: int, now: int)
    ensures Pending(MarkRow(rows, id, now)) == Pending(rows) - {id}
  {
    var after := MarkRow(rows, id, now);
    forall x | x in Pending(after)
      ensures x in Pending(rows) && x != id
    {
      var row :| row in after && row.publishedAt.None? && row.id == x;
      var k :| 0 <= k < |after| && after[k] == row;
      assert rows[k] in rows;
    }
    forall x | x in Pending(rows) && x != id
      ensures x in Pending(after)
    {
      var row :| row in rows && row.publishedAt.None? && row.id == x;
      var k :| 0 <= k < |rows| && rows[k] == row;
      assert after[k] in after;
    }
  }

  /** What a step does to the outbox: nothing, one more row, or one row marked. */
  lemma OutboxSteps(env: Env, s: State, a: Action)
    ensures var (rows, rows') := (s.back.tables.outbox, Next(env, s, a).back.tables.outbox);
      || rows' == rows
      || (a.PersistOrder? && exists row :: rows' == rows + [row] && row.id == a.rowId)
      || (a.BackStep? && a.back.MarkHead? && !a.back.fault.NotRun?
          && exists id :: At(s.back, a.back.relay, true, id) && rows' == MarkRow(rows, id, s.back.now))
  {
    if a.BackStep? && a.back.MarkHead? && a.back.relay in s.back.relays && s.back.relays[a.back.relay].batch != [] {
      assert At(s.back, a.back.relay, true, s.back.relays[a.back.relay].batch[0].id)
          || s.back.relays[a.back.relay].Publishing?;
    }
  }

  /** No step adds an unpublished row up to t. */
  lemma PendingShrinks(env: Env, s: State, a: Action, relay: nat, bad: iset<int>, t: int, id: int)
    requires Allowed(s.back, a, relay, bad, t)
    requires id <= t && id in Pending(Next(env, s, a).back.tables.outbox)
    ensures id in Pending(s.back.tables.outbox)
  {
    var rows, rows' := s.back.tables.outbox, Next(env, s, a).back.tables.outbox;
    OutboxSteps(env, s, a);
    if rows' != rows {
      if a.PersistOrder? {
        var row :| rows' == rows + [row] && row.id == a.rowId;
      } else {
        var x :| At(s.back, a.back.relay, true, x) && rows' == MarkRow(rows, x, s.back.now);
        MarkLeaves(rows, x, s.back.now);
      }
    }
  }

  ghost function Healthy(b: Back, bad: iset<int>, t: int): set<int> {
    HealthyUpTo(b.tables.outbox, bad, t)
  }

  ghost function Bad(b: Back, bad: iset<int>, t: int): set<int> {
    BadUpTo(b.tables.outbox, bad, t)
  }

  lemma RowsOnlyLeave(env: Env, s: State, a: Action, relay: nat, bad: iset<int>, t: int)
    requires Allowed(s.back, a, relay, bad, t)
    ensures Healthy(Next(env, s, a).back, bad, t) <= Healthy(s.back, bad, t)
    ensures Bad(Next(env, s, a).back, bad, t) <= Bad(s.back, bad, t)
  {
    forall id | id in Pending(Next(env, s, a).back.tables.outbox) && id <= t
      ensures id in Pending(s.back.tables.outbox)
    {
      PendingShrinks(env, s, a, relay, bad, t, id);
    }
  }

  // ---------------------------------------------------------------- one poll

  /** The ids the relay still has before it. */
  ghost function Ahead(b: Back, relay: nat): set<int> {
    if relay in b.relays then IdSet(b.relays[relay].batch) else {}
  }

  lemma HeadAndRest(batch: seq<Row>)
    requires batch != []
    ensures IdSet(batch) == {batch[0].id} + IdSet(batch[1..])
  {
    assert forall row :: row in batch <==> row == batch[0] || row in batch[1..];
  }

  /** What a step does to the relay's batch: nothing, a fetch, a crash, or the head is done with. */
  lemma BatchSteps(env: Env, s: State, a: Action, relay: nat)
    requires relay in s.back.relays && s.back.relays[relay].batch != []
    ensures var (b, b') := (s.back, Next(env, s, a).back);
      || a == BackStep(CrashRelay(relay))
      || (relay in b'.relays && b'.relays[relay].batch == b.relays[relay].batch)
      || (&& relay in b'.relays && b'.relays[relay].batch == b.relays[relay].batch[1..]
          && a.BackStep?
          && ((&& a.back.PublishHead? && a.back.relay == relay && !a.back.fate.Acked?
               && At(b, relay, false, b.relays[relay].batch[0].id))
              || (a.back.MarkHead? && a.back.relay == relay && At(b, relay, true, b.relays[relay].batch[0].id))))
  {
  }

  lemma EmptyIsIdle(env: Env, s: State, a: Action, relay: nat)
    requires relay in s.back.relays && s.back.relays[relay].batch != []
    ensures var b' := Next(env, s, a).back;
      relay in b'.relays && b'.relays[relay].batch == [] ==> b'.relays[relay].Publishing?
  {
  }

  /** A relay without a batch can only fetch one. */
  lemma IdleSteps(env: Env, s: State, a: Action, relay: nat)
    requires relay in s.back.relays ==> s.back.relays[relay].batch == []
    ensures Ahead(Next(env, s, a).back, relay) == {}
         || (a == BackStep(FetchBatch(relay)) && Next(env, s, a).back == Fetching(s.back, relay))
  {
    if a.BackStep? && a != BackStep(FetchBatch(relay)) {
      IdleStays(env, s.back, a.back, relay);
    } else {
      assert IdSet([]) == {};
    }
  }

  function Fetching(b: Back, relay: nat): Back {
    b.(relays := b.relays[relay := Publishing(Fetch(b.tables.outbox, Relay.BATCH_SIZE))])
  }

  lemma IdleStays(env: Env, b: Back, a: BackAction, relay: nat)
    requires relay in b.relays ==> b.relays[relay].batch == []
    requires a != FetchBatch(relay)
    ensures var b' := BackNext(env, b, a);
      relay in b'.relays ==> b'.relays[relay].batch == []
  {
  }

  /** A row the relay has dealt with is no healthy unpublished row any more. */
  lemma HeadIsDone(env: Env, s: State, a: Action, relay: nat, bad: iset<int>, t: int)
    requires Allowed(s.back, a, relay, bad, t)
    requires relay in s.back.relays && s.back.relays[relay].batch != []
    requires var b' := Next(env, s, a).back;
      relay in b'.relays && b'.relays[relay].batch != s.back.relays[relay].batch
    ensures var id := s.back.relays[relay].batch[0].id;
      id !in Healthy(Next(env, s, a).back, bad, t)
  {
    var id := s.back.relays[relay].batch[0].id;
    BatchSteps(env, s, a, relay);
    if id <= t && id !in bad && a.back.MarkHead? {
      assert At(s.back, relay, true, id);
      MarkLeaves(s.back.tables.outbox, id, s.back.now);
    }
  }

  /** Within a poll, a healthy unpublished row is one the poll never aimed at, or still ahead. */
  lemma PollGoesOn(env: Env, s: State, a: Action, relay: nat, bad: iset<int>, t: int, goal: set<int>)
    requires Allowed(s.back, a, relay, bad, t)
    requires relay in s.back.relays && s.back.relays[relay].batch != [] && a != BackStep(CrashRelay(relay))
    requires Healthy(s.back, bad, t) <= goal + Ahead(s.back, relay)
    ensures Healthy(Next(env, s, a).back, bad, t) <= goal + Ahead(Next(env, s, a).back, relay)
    ensures relay in Next(env, s, a).back.relays
  {
    var b, b' := s.back, Next(env, s, a).back;
    RowsOnlyLeave(env, s, a, relay, bad, t);
    BatchSteps(env, s, a, relay);
    if b'.relays[relay].batch != b.relays[relay].batch {
      HeadIsDone(env, s, a, relay, bad, t);
      HeadAndRest(b.relays[relay].batch);
    }
  }

  /** A fetch aims at all healthy rows up to t, or at 20 - k of them. */
  lemma FetchAims(env: Env, s: State, relay: nat, bad: iset<int>, t: int)
    requires TablesOk(s.back.tables) && Idle(s.back, relay)
    ensures var b' := Next(env, s, BackStep(FetchBatch(relay))).back;
      var (before, left) := (Healthy(s.back, bad, t), Healthy(s.back, bad, t) - Ahead(b', relay));
      && b'.tables == s.back.tables && relay in b'.relays
      && (left == {} || |left| <= |before| - (20 - |Bad(s.back, bad, t)|))
  {
    var rows := s.back.tables.outbox;
    BatchCovers(rows, bad, t);
    TakenFromFullBatch(IdSet(Fetch(rows, Relay.BATCH_SIZE)), HealthyUpTo(rows, bad, t), BadUpTo(rows, bad, t));
  }

  // ---------------------------------------------------------------- the invariant of progress

  /** So few rows are left after that many polls. */
  ghost predicate Within(left: set<int>, polls: nat, start: nat, k: nat)
    requires k < Relay.BATCH_SIZE
  {
    left == {} || |left| + Quota(polls, k) <= start
  }

  /** How far the polls have come, in terms of the rows that are left; an open poll will leave a
      goal that is good enough for one poll more. */
  ghost predicate Left(failing: set<int>, healthy: set<int>, ahead: set<int>, p: Polls, start: nat, k: nat)
    requires k < Relay.BATCH_SIZE
  {
    && |failing| <= k
    && Within(healthy, p.done, start, k)
    && (p.open ==> exists goal :: Within(goal, p.done + 1, start, k) && healthy <= goal + ahead)
  }

  ghost predicate OnCourse(b: Back, p: Polls, relay: nat, bad: iset<int>, t: int, start: nat, k: nat)
    requires k < Relay.BATCH_SIZE
  {
    && Left(Bad(b, bad, t), Healthy(b, bad, t), Ahead(b, relay), p, start, k)
    && (p.open ==> relay in b.relays && b.relays[relay].batch != [])
  }

  /** Rows leave while an open poll goes on; it ends when nothing is ahead. */
  lemma LeftLater(failing: set<int>, healthy: set<int>, ahead: set<int>, p: Polls, start: nat, k: nat,
                  failing': set<int>, healthy': set<int>, ahead': set<int>, goal: set<int>, ends: bool)
    requires k < Relay.BATCH_SIZE && Left(failing, healthy, ahead, p, start, k)
    requires failing' <= failing && healthy' <= healthy
    requires Within(goal, p.done + 1, start, k) && healthy' <= goal + ahead'
    requires ends ==> ahead' == {}
    ensures Left(failing', healthy', ahead', if ends then Polls(p.done + 1, false) else p, start, k)
  {
    SubsetSize(failing', failing);
    WithinSubset(healthy, healthy', p.done, start, k);
    if ends {
      WithinSubset(goal, healthy', p.done + 1, start, k);
    }
  }

  lemma WithinSubset(left: set<int>, left': set<int>, polls: nat, start: nat, k: nat)
    requires k < Relay.BATCH_SIZE && left' <= left && Within(left, polls, start, k)
    ensures Within(left', polls, start, k)
  {
    SubsetSize(left', left);
  }

  /** One more poll that leaves so few has used its share of the quota. */
  lemma OneMorePoll(before: set<int>, left: set<int>, polls: nat, start: nat, k: nat, bad: nat)
    requires bad <= k < Relay.BATCH_SIZE && Within(before, polls, start, k)
    requires left <= before
    requires left == {} || |left| <= |before| - (Relay.BATCH_SIZE - bad)
    ensures Within(left, polls + 1, start, k)
  {
    if before == {} {
      assert left == {};
    }
  }

  lemma FetchOnCourse(env: Env, s: State, p: Polls, relay: nat, bad: iset<int>, t: int, start: nat, k: nat)
    requires k < Relay.BATCH_SIZE && OnCourse(s.back, p, relay, bad, t, start, k)
    requires TablesOk(s.back.tables) && Idle(s.back, relay)
    ensures var (a, b') := (BackStep(FetchBatch(relay)), Next(env, s, BackStep(FetchBatch(relay))).back);
      OnCourse(b', AfterStep(p, s.back, b', relay, a), relay, bad, t, start, k)
  {
    FetchAims(env, s, relay, bad, t);
    FetchedOnCourse(s.back, Next(env, s, BackStep(FetchBatch(relay))).back, p, relay, bad, t, start, k);
  }

  lemma FetchedOnCourse(b: Back, b': Back, p: Polls, relay: nat, bad: iset<int>, t: int, start: nat, k: nat)
    requires k < Relay.BATCH_SIZE && OnCourse(b, p, relay, bad, t, start, k) && Idle(b, relay)
    requires b'.tables == b.tables && relay in b'.relays && b'.relays[relay].Publishing?
    requires var left := Healthy(b, bad, t) - Ahead(b', relay);
      left == {} || |left| <= |Healthy(b, bad, t)| - (Relay.BATCH_SIZE - |Bad(b, bad, t)|)
    ensures OnCourse(b', AfterStep(p, b, b', relay, BackStep(FetchBatch(relay))), relay, bad, t, start, k)
  {
    var healthy, goal := Healthy(b, bad, t), Healthy(b, bad, t) - Ahead(b', relay);
    OneMorePoll(healthy, goal, p.done, start, k, |Bad(b, bad, t)|);
    assert healthy <= goal + Ahead(b', relay);
    if Idle(b', relay) {
      assert goal == healthy;
    }
  }

  lemma PollOnCourse(env: Env, s: State, p: Polls, a: Action, relay: nat, bad: iset<int>, t: int, start: nat, k: nat)
    requires k < Relay.BATCH_SIZE && OnCourse(s.back, p, relay, bad, t, start, k) && p.open
    requires Allowed(s.back, a, relay, bad, t) && a != BackStep(CrashRelay(relay))
    ensures var b' := Next(env, s, a).back;
      OnCourse(b', AfterStep(p, s.back, b', relay, a), relay, bad, t, start, k)
  {
    var b' := Next(env, s, a).back;
    var goal :| Within(goal, p.done + 1, start, k) && Healthy(s.back, bad, t) <= goal + Ahead(s.back, relay);
    PollGoesOn(env, s, a, relay, bad, t, goal);
    RowsOnlyLeave(env, s, a, relay, bad, t);
    EmptyIsIdle(env, s, a, relay);
    OpenIsNoFetch(env, s, a, relay);
    LeftLater(Bad(s.back, bad, t), Healthy(s.back, bad, t), Ahead(s.back, relay), p, start, k,
              Bad(b', bad, t), Healthy(b', bad, t), Ahead(b', relay), goal, Idle(b', relay));
  }

  /** A fetch does nothing to a relay with a batch. */
  lemma OpenIsNoFetch(env: Env, s: State, a: Action, relay: nat)
    requires relay in s.back.relays && s.back.relays[relay].batch != []
    ensures a == BackStep(FetchBatch(relay)) ==> Next(env, s, a) == s
  {
  }

  lemma StepOnCourse(env: Env, s: State, p: Polls, a: Action, relay: nat, bad: iset<int>, t: int, start: nat, k: nat)
    requires k < Relay.BATCH_SIZE && OnCourse(s.back, p, relay, bad, t, start, k)
    requires TablesOk(s.back.tables) && Allowed(s.back, a, relay, bad, t)
    ensures var b' := Next(env, s, a).back;
      OnCourse(b', AfterStep(p, s.back, b', relay, a), relay, bad, t, start, k)
  {
    if a == BackStep(FetchBatch(relay)) && Idle(s.back, relay) {
      FetchOnCourse(env, s, p, relay, bad, t, start, k);
    } else if p.open && a != BackStep(CrashRelay(relay)) {
      PollOnCourse(env, s, p, a, relay, bad, t, start, k);
    } else {
      var b' := Next(env, s, a).back;
      RowsOnlyLeave(env, s, a, relay, bad, t);
      SubsetSize(Bad(b', bad, t), Bad(s.back, bad, t));
      WithinSubset(Healthy(s.back, bad, t), Healthy(b', bad, t), p.done, start, k);
    }
  }

  ghost predicate TablesStayOk(env: Env, s: State, actions: seq<Action>) {
    forall k :: 0 <= k <= |actions| ==> TablesOk(Run(env, s, actions[..k]).back.tables)
  }

  lemma ReachableTables(env: Env, seed: Items, before: seq<Action>, actions: seq<Action>)
    requires ValidItems(seed)
    ensures TablesStayOk(env, Run(env, Init(seed), before), actions)
  {
    forall k | 0 <= k <= |actions|
      ensures TablesOk(Run(env, Run(env, Init(seed), before), actions[..k]).back.tables)
    {
      RunConcat(env, Init(seed), before, actions[..k]);
      EveryRunIsOk(env, seed, before + actions[..k]);
    }
  }

  /** What holds at every step of a run holds at every step of its beginning. */
  lemma Beginning(env: Env, s: State, actions: seq<Action>, relay: nat, bad: iset<int>, t: int)
    requires actions != []
    ensures var (before, n) := (actions[..|actions| - 1], |actions| - 1);
      && (AllAllowed(env, s, actions, relay, bad, t) ==>
            AllAllowed(env, s, before, relay, bad, t) && Allowed(Run(env, s, before).back, actions[n], relay, bad, t))
      && (AllFail(env, s, actions, bad, t) ==>
            AllFail(env, s, before, bad, t) && Fails(Run(env, s, before).back, actions[n], bad, t))
      && (TablesStayOk(env, s, actions) ==>
            TablesStayOk(env, s, before) && TablesOk(Run(env, s, before).back.tables))
  {
    var n := |actions| - 1;
    assert forall k :: 0 <= k <= n ==> actions[..n][..k] == actions[..k];
  }

  lemma {:induction false} RunOnCourse(env: Env, s: State, actions: seq<Action>, relay: nat, bad: iset<int>, t: int)
    requires AllAllowed(env, s, actions, relay, bad, t) && TablesStayOk(env, s, actions)
    requires |Bad(s.back, bad, t)| < Relay.BATCH_SIZE
    ensures OnCourse(Run(env, s, actions).back, PollsIn(env, s, actions, relay), relay, bad, t,
                     |Healthy(s.back, bad, t)|, |Bad(s.back, bad, t)|)
  {
    if actions != [] {
      var before := actions[..|actions| - 1];
      Beginning(env, s, actions, relay, bad, t);
      RunOnCourse(env, s, before, relay, bad, t);
      StepOnCourse(env, Run(env, s, before), PollsIn(env, s, before, relay), actions[|actions| - 1], relay, bad, t,
                   |Healthy(s.back, bad, t)|, |Bad(s.back, bad, t)|);
    }
  }

  /** From any reachable state: with k < 20 bad rows among the unpublished rows up to t, all healthy
      ones are published once one relay has finished ceil(count / (20 - k)) polls, whatever
      requests, other relays, the broker, the consumer and crashes do in between. */
  lemma InterleavedProgress(env: Env, seed: Items, before: seq<Action>, actions: seq<Action>, relay: nat,
                            bad: iset<int>, t: int)
    requires ValidItems(seed)
    requires var s := Run(env, Init(seed), before);
      && AllAllowed(env, s, actions, relay, bad, t)
      && |Bad(s.back, bad, t)| < 20
      && |Healthy(s.back, bad, t)| <= PollsIn(env, s, actions, relay).done * (20 - |Bad(s.back, bad, t)|)
    ensures Healthy(Run(env, Run(env, Init(seed), before), actions).back, bad, t) == {}
  {
    var s := Run(env, Init(seed), before);
    ReachableTables(env, seed, before, actions);
    RunOnCourse(env, s, actions, relay, bad, t);
    QuotaIsProduct(PollsIn(env, s, actions, relay).done, |Bad(s.back, bad, t)|);
  }

  // ---------------------------------------------------------------- starvation

  /** No relay marks a row of bad below t. */
  ghost predicate Fails(b: Back, a: Action, bad: iset<int>, t: int) {
    a.BackStep? && a.back.MarkHead? && !a.back.fault.NotRun? ==>
      forall id :: At(b, a.back.relay, true, id) && id in bad ==> id >= t
  }

  ghost predicate AllFail(env: Env, s: State, actions: seq<Action>, bad: iset<int>, t: int) {
    forall k :: 0 <= k < |actions| ==> Fails(Run(env, s, actions[..k]).back, actions[k], bad, t)
  }

  /** The row is unpublished, 20 bad ones are older, and no relay has it. */
  ghost predicate Starved(b: Back, bad: iset<int>, t: int) {
    && t in Pending(b.tables.outbox)
    && |Bad(b, bad, t - 1)| >= 20
    && forall relay :: t !in Ahead(b, relay)
  }

  lemma BadStay(env: Env, s: State, a: Action, bad: iset<int>, t: int)
    requires Starved(s.back, bad, t) && Fails(s.back, a, bad, t)
    ensures Bad(s.back, bad, t - 1) <= Bad(Next(env, s, a).back, bad, t - 1)
    ensures t in Pending(Next(env, s, a).back.tables.outbox)
  {
    var rows, rows' := s.back.tables.outbox, Next(env, s, a).back.tables.outbox;
    OutboxSteps(env, s, a);
    if rows' != rows {
      if a.PersistOrder? {
        var row :| rows' == rows + [row] && row.id == a.rowId;
        assert forall x <- rows :: x in rows';
      } else {
        var id :| At(s.back, a.back.relay, true, id) && rows' == MarkRow(rows, id, s.back.now);
        MarkLeaves(rows, id, s.back.now);
        assert s.back.relays[a.back.relay].batch[0] in s.back.relays[a.back.relay].batch;
        assert id in Ahead(s.back, a.back.relay);
      }
    }
  }

  /** What a relay has before it after a step is a fetched batch or part of what it had. */
  lemma AheadSteps(env: Env, s: State, a: Action, relay: nat)
    ensures Ahead(Next(env, s, a).back, relay) <= Ahead(s.back, relay)
         || Ahead(Next(env, s, a).back, relay) == IdSet(Fetch(s.back.tables.outbox, Relay.BATCH_SIZE))
  {
    if relay in s.back.relays && s.back.relays[relay].batch != [] {
      BatchSteps(env, s, a, relay);
      HeadAndRest(s.back.relays[relay].batch);
    } else {
      IdleSteps(env, s, a, relay);
    }
  }

  lemma StarvedStep(env: Env, s: State, a: Action, bad: iset<int>, t: int)
    requires TablesOk(s.back.tables) && Starved(s.back, bad, t) && Fails(s.back, a, bad, t)
    ensures Starved(Next(env, s, a).back, bad, t)
  {
    var b' := Next(env, s, a).back;
    BadStay(env, s, a, bad, t);
    SubsetSize(Bad(s.back, bad, t - 1), Bad(b', bad, t - 1));
    NotInBatch(s.back.tables.outbox, bad, t);
    forall relay
      ensures t !in Ahead(b', relay)
    {
      AheadSteps(env, s, a, relay);
    }
  }

  lemma {:induction false} StarvedOn(env: Env, s: State, actions: seq<Action>, bad: iset<int>, t: int)
    requires Starved(s.back, bad, t) && AllFail(env, s, actions, bad, t) && TablesStayOk(env, s, actions)
    ensures Starved(Run(env, s, actions).back, bad, t)
  {
    if actions != [] {
      var before := actions[..|actions| - 1];
      Beginning(env, s, actions, 0, bad, t);
      StarvedOn(env, s, before, bad, t);
      StarvedStep(env, Run(env, s, before), actions[|actions| - 1], bad, t);
    }
  }

  /** From any reachable state in which an unpublished row has 20 older rows that no relay ever
      marks, and no relay has it in its batch: none ever will, in any interleaving. */
  lemma InterleavedStarvation(env: Env, seed: Items, before: seq<Action>, actions: seq<Action>, bad: iset<int>, t: int)
    requires ValidItems(seed)
    requires var s := Run(env, Init(seed), before);
      Starved(s.back, bad, t) && AllFail(env, s, actions, bad, t)
    ensures Starved(Run(env, Run(env, Init(seed), before), actions).back, bad, t)
  {
    ReachableTables(env, seed, before, actions);
    StarvedOn(env, Run(env, Init(seed), before), actions, bad, t);
  }
}
