/** What polling achieves: the effect of one batch, and progress past rows that never publish. */
module Progress {
  import opened Common
  import opened MessageId
  import opened Outbox
  import opened Broker
  import opened Relay

  /** The publish is acknowledged and the mark takes effect. */
  predicate Succeeds(course: Course, id: int) {
    course.publish(id).Acked? && !course.mark(id).NotRun?
  }

  // ---------------------------------------------------------------- one batch

  /** A row after a batch: marked exactly if it was attempted and publish and mark succeeded. */
  function AfterBatch(row: Row, batch: seq<Row>, course: Course): Row {
    if row.id in Ids(batch) && Succeeds(course, row.id) then row.(publishedAt := Some(course.markAt(row.id))) else row
  }

  /** One row's share of the first turn, then of the rest. */
  lemma AfterFirst(row: Row, batch: seq<Row>, course: Course)
    requires batch != []
    ensures AfterBatch(row, batch, course) == AfterBatch(AfterBatch(row, batch[..1], course), batch[1..], course)
  {
    assert Ids(batch) == [batch[0].id] + Ids(batch[1..]) && Ids(batch[..1]) == [batch[0].id];
  }

  lemma AttemptRow(w: World, batch: seq<Row>, course: Course, i: nat)
    requires batch != [] && i < |w.rows|
    ensures |Attempt(w, batch[0], course).rows| == |w.rows|
    ensures Attempt(w, batch[0], course).rows[i] == AfterBatch(w.rows[i], batch[..1], course)
  {
    assert Ids(batch[..1]) == [batch[0].id];
  }

  lemma {:induction false} AttemptAllRows(w: World, batch: seq<Row>, course: Course)
    ensures |AttemptAll(w, batch, course).rows| == |w.rows|
    ensures forall i :: 0 <= i < |w.rows| ==>
      AttemptAll(w, batch, course).rows[i] == AfterBatch(w.rows[i], batch, course)
    decreases |batch|
  {
    if batch != [] {
      var next, rest := Attempt(w, batch[0], course), batch[1..];
      assert |next.rows| == |w.rows|;
      AttemptAllRows(next, rest, course);
      forall i | 0 <= i < |w.rows|
        ensures AttemptAll(w, batch, course).rows[i] == AfterBatch(w.rows[i], batch, course)
      {
        AttemptRow(w, batch, course, i);
        AfterFirst(w.rows[i], batch, course);
      }
    }
  }

  /** Where a publish with this fate ends up, if anywhere: stored, or still under way. */
  ghost predicate Placed(stream: Stream, row: Row, course: Course) {
    match course.publish(row.id)
    case NotSent => true
    case Delayed => Sent(MsgId(row.id), row.event, course.publishAt(row.id)) in stream.inFlight
    case _ => Stored(stream.msgs, MsgId(row.id))
  }

  /** Nothing stored or under way disappears. */
  ghost predicate Extends(stream: Stream, stream': Stream) {
    stream.msgs <= stream'.msgs && stream.inFlight <= stream'.inFlight
  }

  lemma PlacedStays(stream: Stream, stream': Stream, row: Row, course: Course)
    requires Extends(stream, stream') && Placed(stream, row, course)
    ensures Placed(stream', row, course)
  {
    assert forall sent <- stream.inFlight :: sent in stream'.inFlight;
    if m :| m in stream.msgs && m.id == MsgId(row.id) {
      assert m in stream'.msgs;
    }
  }

  lemma AttemptPlaces(w: World, row: Row, course: Course)
    requires forall id <- w.stream.dedup :: Stored(w.stream.msgs, id)
    ensures var next := Attempt(w, row, course).stream;
      && Extends(w.stream, next) && Placed(next, row, course)
      && (forall id <- next.dedup :: Stored(next.msgs, id))
  {
    var next := Attempt(w, row, course).stream;
    forall id <- next.dedup
      ensures Stored(next.msgs, id)
    {
      if id in w.stream.dedup {
        var m :| m in w.stream.msgs && m.id == id;
        assert m in next.msgs;
      } else {
        assert next.msgs[|w.stream.msgs|].id == id;
      }
    }
    if course.publish(row.id).Delayed? {
      assert next.inFlight[|w.stream.inFlight|] == Sent(MsgId(row.id), row.event, course.publishAt(row.id));
    }
  }

  lemma {:induction false} AttemptAllStores(w: World, batch: seq<Row>, course: Course)
    requires forall id <- w.stream.dedup :: Stored(w.stream.msgs, id)
    ensures Extends(w.stream, AttemptAll(w, batch, course).stream)
    ensures forall row <- batch :: Placed(AttemptAll(w, batch, course).stream, row, course)
    decreases |batch|
  {
    if batch != [] {
      var next, rest := Attempt(w, batch[0], course), batch[1..];
      AttemptPlaces(w, batch[0], course);
      AttemptAllStores(next, rest, course);
      PlacedStays(next.stream, AttemptAll(w, batch, course).stream, batch[0], course);
      assert forall row <- batch :: row == batch[0] || row in rest;
    }
  }

  /** One poll, whatever fails: the batch is the oldest unpublished rows, attempted once each in
      increasing id order; exactly those whose publish and mark both succeed are newly marked,
      every other row is untouched; and no attempt that was sent is lost. */
  lemma BatchContract(w: World, course: Course)
    requires DistinctIds(w.rows) && !course.fetchFails
    requires forall id <- w.stream.dedup :: Stored(w.stream.msgs, id)
    ensures var (batch, w') := (Fetched(w, course), Poll(w, course));
      && OldestFirst(w.rows, 20, batch)
      && |w'.rows| == |w.rows|
      && (forall i :: 0 <= i < |w.rows| ==>
            w'.rows[i] == if w.rows[i] in batch && Succeeds(course, w.rows[i].id)
                          then w.rows[i].(publishedAt := Some(course.markAt(w.rows[i].id))) else w.rows[i])
      && Extends(w.stream, w'.stream)
      && (forall row <- batch :: Placed(w'.stream, row, course))
  {
    var batch := Fetch(w.rows, BATCH_SIZE);
    FetchIsOldestFirst(w.rows, BATCH_SIZE);
    AttemptAllRows(w, batch, course);
    AttemptAllStores(w, batch, course);
    forall i | 0 <= i < |w.rows|
      ensures w.rows[i].id in Ids(batch) <==> w.rows[i] in batch
    {
      RowInBatch(w.rows, batch, w.rows[i]);
    }
  }

  lemma RowInBatch(rows: seq<Row>, batch: seq<Row>, row: Row)
    requires DistinctIds(rows) && row in rows && forall x <- batch :: x in rows
    ensures row.id in Ids(batch) <==> row in batch
  {
    if row.id in Ids(batch) {
      var k :| 0 <= k < |batch| && Ids(batch)[k] == row.id;
      assert batch[k] in batch && batch[k].id == row.id;
    }
    if row in batch {
      var k :| 0 <= k < |batch| && batch[k] == row;
      assert Ids(batch)[k] == row.id;
    }
  }

  // ---------------------------------------------------------------- progress

  /** Ids of the rows still unpublished. */
  ghost function Pending(rows: seq<Row>): set<int> {
    set row <- rows | row.publishedAt.None? :: row.id
  }

  /** Unpublished rows up to t that can, or can never, be published. */
  ghost function HealthyUpTo(rows: seq<Row>, bad: iset<int>, t: int): set<int> {
    set id <- Pending(rows) | id <= t && id !in bad
  }

  ghost function BadUpTo(rows: seq<Row>, bad: iset<int>, t: int): set<int> {
    set id <- Pending(rows) | id <= t && id in bad
  }

  /** Among the rows up to t, those not in bad are published and marked whenever attempted; new
      rows are younger than t. The fetch may fail, and bad and younger rows may do anything. */
  ghost predicate Steady(round: Round, bad: iset<int>, t: int) {
    && (forall id :: id <= t && id !in bad ==> Succeeds(round.course, id))
    && (forall row <- round.arrivals :: row.id > t)
  }

  /** The ids of a batch. */
  ghost function IdSet(batch: seq<Row>): set<int> {
    set row <- batch :: row.id
  }

  lemma {:induction false} IdSetSize(batch: seq<Row>)
    requires Ascending(batch)
    ensures |IdSet(batch)| == |batch|
  {
    if batch != [] {
      var rest, last := batch[..|batch| - 1], batch[|batch| - 1];
      IdSetSize(rest);
      assert forall row :: row in batch <==> row in rest || row == last;
      assert IdSet(batch) == IdSet(rest) + {last.id};
      assert last.id !in IdSet(rest);
    }
  }

  lemma IdSetIsIds(batch: seq<Row>, id: int)
    ensures id in IdSet(batch) <==> id in Ids(batch)
  {
    if id in Ids(batch) {
      var k :| 0 <= k < |batch| && Ids(batch)[k] == id;
      assert batch[k] in batch;
    }
    if id in IdSet(batch) {
      var row :| row in batch && row.id == id;
      var k :| 0 <= k < |batch| && batch[k] == row;
      assert Ids(batch)[k] == id;
    }
  }

  lemma AfterRoundAt(w: World, round: Round, k: nat)
    ensures |AfterRound(w, round).rows| == |w.rows| + |round.arrivals|
    ensures k < |w.rows| ==>
      AfterRound(w, round).rows[k] == AfterBatch(w.rows[k], Fetched(w, round.course), round.course)
    ensures |w.rows| <= k < |w.rows| + |round.arrivals| ==> AfterRound(w, round).rows[k] in round.arrivals
  {
    AttemptAllRows(w, Fetched(w, round.course), round.course);
  }

  lemma StillPending(w: World, round: Round, id: int)
    requires id in Pending(AfterRound(w, round).rows) && forall row <- round.arrivals :: row.id != id
    ensures id in Pending(w.rows) && (id in IdSet(Fetched(w, round.course)) ==> !Succeeds(round.course, id))
  {
    var after := AfterRound(w, round).rows;
    var row :| row in after && row.publishedAt.None? && row.id == id;
    var k :| 0 <= k < |after| && after[k] == row;
    AfterRoundAt(w, round, k);
    assert w.rows[k] in w.rows;
    IdSetIsIds(Fetched(w, round.course), id);
  }

  lemma StaysPending(w: World, round: Round, id: int)
    requires id in Pending(w.rows) && (id in IdSet(Fetched(w, round.course)) ==> !Succeeds(round.course, id))
    ensures id in Pending(AfterRound(w, round).rows)
  {
    var row :| row in w.rows && row.publishedAt.None? && row.id == id;
    var k :| 0 <= k < |w.rows| && w.rows[k] == row;
    AfterRoundAt(w, round, k);
    IdSetIsIds(Fetched(w, round.course), id);
    assert AfterRound(w, round).rows[k] == row;
  }

  /** After a steady round the healthy unpublished rows up to t are those before, without the
      rows of the batch; and no bad one is new. */
  lemma SteadyRound(w: World, round: Round, bad: iset<int>, t: int)
    requires Steady(round, bad, t)
    ensures HealthyUpTo(AfterRound(w, round).rows, bad, t)
         == HealthyUpTo(w.rows, bad, t) - IdSet(Fetched(w, round.course))
    ensures BadUpTo(AfterRound(w, round).rows, bad, t) <= BadUpTo(w.rows, bad, t)
  {
    var after := AfterRound(w, round).rows;
    forall id <- Pending(after) | id <= t
      ensures id in Pending(w.rows) && (id in IdSet(Fetched(w, round.course)) ==> !Succeeds(round.course, id))
    {
      StillPending(w, round, id);
    }
    forall id <- HealthyUpTo(w.rows, bad, t) - IdSet(Fetched(w, round.course))
      ensures id in Pending(after)
    {
      StaysPending(w, round, id);
    }
  }

  /** Either the batch holds every unpublished row up to t, or it is full of such rows. */
  lemma BatchCovers(rows: seq<Row>, bad: iset<int>, t: int)
    requires DistinctIds(rows)
    ensures var (batch, due) := (IdSet(Fetch(rows, 20)), HealthyUpTo(rows, bad, t) + BadUpTo(rows, bad, t));
      due <= batch || (batch <= due && |batch| == 20)
  {
    FetchIsOldestFirst(rows, BATCH_SIZE);
    var batch := Fetch(rows, BATCH_SIZE);
    IdSetSize(batch);
    var due := HealthyUpTo(rows, bad, t) + BadUpTo(rows, bad, t);
    if id :| id in due && id !in IdSet(batch) {
      var row :| row in rows && row.publishedAt.None? && row.id == id;
      assert row !in batch;
      forall x <- IdSet(batch)
        ensures x in due
      {
        var r :| r in batch && r.id == x;
      }
    }
  }

  /** One steady round that fetches publishes all healthy rows up to t, or at least 20 - k of them. */
  lemma RoundProgress(w: World, round: Round, bad: iset<int>, t: int)
    requires DistinctIds(w.rows) && Steady(round, bad, t) && !round.course.fetchFails
    ensures var (before, after) := (HealthyUpTo(w.rows, bad, t), HealthyUpTo(AfterRound(w, round).rows, bad, t));
      |after| == 0 || |after| <= |before| - (20 - |BadUpTo(w.rows, bad, t)|)
  {
    SteadyRound(w, round, bad, t);
    BatchCovers(w.rows, bad, t);
    TakenFromFullBatch(IdSet(Fetch(w.rows, BATCH_SIZE)), HealthyUpTo(w.rows, bad, t), BadUpTo(w.rows, bad, t));
  }

  lemma TakenFromFullBatch(batch: set<int>, healthy: set<int>, failing: set<int>)
    requires healthy !! failing
    requires healthy + failing <= batch || (batch <= healthy + failing && |batch| == BATCH_SIZE)
    ensures healthy - batch == {} || |healthy - batch| <= |healthy| - (BATCH_SIZE - |failing|)
  {
    if !(healthy + failing <= batch) {
      var taken, wasted := batch * healthy, batch * failing;
      assert batch == taken + wasted && taken !! wasted;
      SubsetSize(wasted, failing);
      assert healthy - batch == healthy - taken;
      SubsetSize(taken, healthy);
    }
  }

  lemma {:induction false} SubsetSize<T>(s: set<T>, t: set<T>)
    requires s <= t
    ensures |s| <= |t| && |t - s| == |t| - |s|
  {
    assert t == s + (t - s);
  }

  /** The first of several steady rounds, and what is left for the rest. */
  lemma FirstRound(w: World, rounds: seq<Round>, bad: iset<int>, t: int)
    requires rounds != [] && RoundsFit(Ids(w.rows), rounds)
    requires forall round <- rounds :: Steady(round, bad, t)
    ensures DistinctIds(w.rows) && Steady(rounds[0], bad, t)
    ensures RoundsFit(Ids(AfterRound(w, rounds[0]).rows), rounds[1..])
    ensures forall round <- rounds[1..] :: Steady(round, bad, t)
  {
    RoundKeepsFit(w, rounds);
    assert forall round <- rounds[1..] :: round in rounds;
  }

  /** The polls whose fetch works. */
  function Fetches(rounds: seq<Round>): nat {
    if rounds == [] then 0 else (if rounds[0].course.fetchFails then 0 else 1) + Fetches(rounds[1..])
  }

  /** How many healthy rows a number of polls is sure to publish. */
  ghost function Quota(polls: nat, k: nat): nat
    requires k < BATCH_SIZE
  {
    if polls == 0 then 0 else Quota(polls - 1, k) + (BATCH_SIZE - k)
  }

  lemma {:induction false} QuotaIsProduct(polls: nat, k: nat)
    requires k < BATCH_SIZE
    ensures Quota(polls, k) == polls * (BATCH_SIZE - k)
  {
    if polls > 0 {
      QuotaIsProduct(polls - 1, k);
    }
  }

  lemma {:induction false} FewerBadMore(polls: nat, k: nat, k': nat)
    requires k' <= k < BATCH_SIZE
    ensures Quota(polls, k) <= Quota(polls, k')
  {
    if polls > 0 {
      FewerBadMore(polls - 1, k, k');
    }
  }

  /** After one round the rest fits the quota of the polls that remain. */
  lemma QuotaLeft(w: World, round: Round, bad: iset<int>, t: int, polls: nat)
    requires DistinctIds(w.rows) && Steady(round, bad, t)
    requires |BadUpTo(w.rows, bad, t)| < BATCH_SIZE
    requires |HealthyUpTo(w.rows, bad, t)| <= Quota(polls, |BadUpTo(w.rows, bad, t)|)
    requires !round.course.fetchFails ==> polls > 0
    ensures |BadUpTo(AfterRound(w, round).rows, bad, t)| <= |BadUpTo(w.rows, bad, t)|
    ensures |HealthyUpTo(AfterRound(w, round).rows, bad, t)|
         <= Quota(if round.course.fetchFails then polls else polls - 1, |BadUpTo(AfterRound(w, round).rows, bad, t)|)
  {
    var k, k' := |BadUpTo(w.rows, bad, t)|, |BadUpTo(AfterRound(w, round).rows, bad, t)|;
    FewerLeft(w, round, bad, t, polls);
    FewerBadMore(if round.course.fetchFails then polls else polls - 1, k, k');
  }

  lemma FewerLeft(w: World, round: Round, bad: iset<int>, t: int, polls: nat)
    requires DistinctIds(w.rows) && Steady(round, bad, t)
    requires |BadUpTo(w.rows, bad, t)| < BATCH_SIZE
    requires |HealthyUpTo(w.rows, bad, t)| <= Quota(polls, |BadUpTo(w.rows, bad, t)|)
    requires !round.course.fetchFails ==> polls > 0
    ensures |BadUpTo(AfterRound(w, round).rows, bad, t)| <= |BadUpTo(w.rows, bad, t)|
    ensures |HealthyUpTo(AfterRound(w, round).rows, bad, t)|
         <= Quota(if round.course.fetchFails then polls else polls - 1, |BadUpTo(w.rows, bad, t)|)
  {
    SteadyRound(w, round, bad, t);
    SubsetSize(BadUpTo(AfterRound(w, round).rows, bad, t), BadUpTo(w.rows, bad, t));
    if round.course.fetchFails {
      assert HealthyUpTo(w.rows, bad, t) - IdSet([]) == HealthyUpTo(w.rows, bad, t);
    } else {
      RoundProgress(w, round, bad, t);
    }
  }

  lemma {:induction false} PublishedWithinQuota(w: World, rounds: seq<Round>, bad: iset<int>, t: int)
    requires RoundsFit(Ids(w.rows), rounds)
    requires forall round <- rounds :: Steady(round, bad, t)
    requires |BadUpTo(w.rows, bad, t)| < BATCH_SIZE
    requires |HealthyUpTo(w.rows, bad, t)| <= Quota(Fetches(rounds), |BadUpTo(w.rows, bad, t)|)
    ensures HealthyUpTo(PollRounds(w, rounds).rows, bad, t) == {}
    decreases |rounds|
  {
    if rounds != [] {
      FirstRound(w, rounds, bad, t);
      QuotaLeft(w, rounds[0], bad, t, Fetches(rounds));
      PublishedWithinQuota(AfterRound(w, rounds[0]), rounds[1..], bad, t);
    }
  }

  /** With k < 20 bad rows among the unpublished rows up to t, the healthy ones (a row at t and r
      below it, say) are all published after ceil((r + 1) / (20 - k)) polls that fetch, however
      many younger rows keep arriving and whatever becomes of them. */
  lemma HealthyRowsArePublished(w: World, rounds: seq<Round>, bad: iset<int>, t: int)
    requires RoundsFit(Ids(w.rows), rounds)
    requires forall round <- rounds :: Steady(round, bad, t)
    requires |BadUpTo(w.rows, bad, t)| < 20
    requires |HealthyUpTo(w.rows, bad, t)| <= Fetches(rounds) * (20 - |BadUpTo(w.rows, bad, t)|)
    ensures HealthyUpTo(PollRounds(w, rounds).rows, bad, t) == {}
  {
    QuotaIsProduct(Fetches(rounds), |BadUpTo(w.rows, bad, t)|);
    PublishedWithinQuota(w, rounds, bad, t);
  }

  lemma {:induction false} RowsStayInTable(w: World, rounds: seq<Round>, i: nat)
    requires i < |w.rows|
    ensures i < |PollRounds(w, rounds).rows| && PollRounds(w, rounds).rows[i].id == w.rows[i].id
    decreases |rounds|
  {
    if rounds != [] {
      RoundKeepsIds(w, rounds[0]);
      assert Ids(AfterRound(w, rounds[0]).rows)[i] == Ids(w.rows)[i];
      RowsStayInTable(AfterRound(w, rounds[0]), rounds[1..], i);
    }
  }

  /** So one given healthy row is marked published within that many polls. */
  lemma HealthyRowIsPublished(w: World, rounds: seq<Round>, bad: iset<int>, i: nat)
    requires i < |w.rows| && w.rows[i].id !in bad
    requires RoundsFit(Ids(w.rows), rounds)
    requires forall round <- rounds :: Steady(round, bad, w.rows[i].id)
    requires var k := |BadUpTo(w.rows, bad, w.rows[i].id)|;
      k < 20 && |HealthyUpTo(w.rows, bad, w.rows[i].id)| <= Fetches(rounds) * (20 - k)
    ensures i < |PollRounds(w, rounds).rows|
    ensures PollRounds(w, rounds).rows[i].id == w.rows[i].id && PollRounds(w, rounds).rows[i].publishedAt.Some?
  {
    var t := w.rows[i].id;
    HealthyRowsArePublished(w, rounds, bad, t);
    RowsStayInTable(w, rounds, i);
    var final := PollRounds(w, rounds).rows;
    assert final[i] in final;
    assert t !in HealthyUpTo(final, bad, t);
  }

  // ---------------------------------------------------------------- starvation

  /** No row of bad below t is ever published and marked. */
  ghost predicate Failing(round: Round, bad: iset<int>, t: int) {
    forall id :: id in bad && id < t ==> !Succeeds(round.course, id)
  }

  /** The row is unpublished, and the next batch will not hold it. */
  ghost predicate PassedOver(rows: seq<Row>, t: int) {
    t in Pending(rows) && t !in IdSet(Fetch(rows, BATCH_SIZE))
  }

  /** A round leaves the starved row and the failing rows below it where they are. */
  lemma StarvedRound(w: World, round: Round, bad: iset<int>, t: int)
    requires DistinctIds(w.rows) && Failing(round, bad, t)
    requires t in Pending(w.rows) && |BadUpTo(w.rows, bad, t - 1)| >= BATCH_SIZE
    ensures t in Pending(AfterRound(w, round).rows)
    ensures |BadUpTo(AfterRound(w, round).rows, bad, t - 1)| >= BATCH_SIZE
  {
    NotInBatch(w.rows, bad, t);
    assert t !in IdSet(Fetched(w, round.course));
    StaysPending(w, round, t);
    var before, after := BadUpTo(w.rows, bad, t - 1), BadUpTo(AfterRound(w, round).rows, bad, t - 1);
    forall id | id in before
      ensures id in after
    {
      StaysPending(w, round, id);
    }
    SubsetSize(before, after);
  }

  /** With 20 or more permanently failing rows below it, an unpublished row is in no poll's batch:
      whichever fetches fail, whatever becomes of other rows, and whatever arrives. */
  lemma {:induction false} StarvedRowIsNeverAttempted(w: World, rounds: seq<Round>, bad: iset<int>, t: int)
    requires RoundsFit(Ids(w.rows), rounds)
    requires forall round <- rounds :: Failing(round, bad, t)
    requires t in Pending(w.rows)
    requires |BadUpTo(w.rows, bad, t - 1)| >= 20
    ensures forall k :: 0 <= k <= |rounds| ==> PassedOver(PollRounds(w, rounds[..k]).rows, t)
    decreases |rounds|
  {
    DistinctIdsOf(w.rows);
    NotInBatch(w.rows, bad, t);
    if rounds != [] {
      var next, rest := AfterRound(w, rounds[0]), rounds[1..];
      RoundKeepsFit(w, rounds);
      assert forall round <- rest :: round in rounds;
      StarvedRound(w, rounds[0], bad, t);
      StarvedRowIsNeverAttempted(next, rest, bad, t);
    }
    forall k | 0 <= k <= |rounds|
      ensures PassedOver(PollRounds(w, rounds[..k]).rows, t)
    {
      if k > 0 {
        PollsAfterFirst(w, rounds, k);
      }
    }
  }

  lemma PollsAfterFirst(w: World, rounds: seq<Round>, k: nat)
    requires 0 < k <= |rounds|
    ensures PollRounds(w, rounds[..k]) == PollRounds(AfterRound(w, rounds[0]), rounds[1..][..k - 1])
  {
    assert rounds[..k][1..] == rounds[1..][..k - 1];
  }

  lemma NotInBatch(rows: seq<Row>, bad: iset<int>, t: int)
    requires DistinctIds(rows) && t in Pending(rows)
    requires |BadUpTo(rows, bad, t - 1)| >= BATCH_SIZE
    ensures t !in IdSet(Fetch(rows, BATCH_SIZE))
  {
    BatchCovers(rows, bad, t - 1);
    var batch, older := IdSet(Fetch(rows, BATCH_SIZE)), HealthyUpTo(rows, bad, t - 1) + BadUpTo(rows, bad, t - 1);
    FetchIsOldestFirst(rows, BATCH_SIZE);
    IdSetSize(Fetch(rows, BATCH_SIZE));
    if older <= batch && t in batch {
      SubsetSize(BadUpTo(rows, bad, t - 1) + {t}, batch);
      assert false;
    }
  }
}
