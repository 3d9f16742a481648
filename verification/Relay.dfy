/** order-service/internal/outbox/relay.go: the polling relay. */
module Relay {
  import opened Common
  import opened MessageId
  import opened Outbox
  import opened Broker

  const BATCH_SIZE: nat := 20

  /** The table and the stream, which the relay moves between. */
  datatype World = World(rows: seq<Row>, stream: Stream)

  /** How one poll goes: whether its fetch fails, and for each row it attempts what becomes of the
      publish and of the mark, and when. */
  datatype Course = Course(fetchFails: bool, publish: int -> Fate, publishAt: int -> int,
                           mark: int -> Fault, markAt: int -> int)

  /** One turn of the batch loop: publish, and only after success mark. */
  function Attempt(w: World, row: Row, course: Course): World {
    var fate := course.publish(row.id);
    var stream := PublishTo(w.stream, MsgId(row.id), row.event, course.publishAt(row.id), fate);
    var marks := fate.Acked? && !course.mark(row.id).NotRun?;
    World(if marks then MarkRow(w.rows, row.id, course.markAt(row.id)) else w.rows, stream)
  }

  function AttemptAll(w: World, batch: seq<Row>, course: Course): World
    decreases |batch|
  {
    if batch == [] then w else AttemptAll(Attempt(w, batch[0], course), batch[1..], course)
  }

  lemma AttemptAllNext(w: World, batch: seq<Row>, k: nat, course: Course)
    requires k < |batch|
    ensures AttemptAll(w, batch[k..], course) == AttemptAll(Attempt(w, batch[k], course), batch[k + 1..], course)
  {
    assert batch[k..] != [] && batch[k..][0] == batch[k] && batch[k..][1..] == batch[k + 1..];
  }

  /** The rows a poll attempts. */
  function Fetched(w: World, course: Course): seq<Row> {
    if course.fetchFails then [] else Fetch(w.rows, BATCH_SIZE)
  }

  function Poll(w: World, course: Course): World {
    AttemptAll(w, Fetched(w, course), course)
  }

  /** A delayed publish reaching the broker. */
  datatype Landing = Landing(k: nat, at: int)

  function LandAll(stream: Stream, landings: seq<Landing>): Stream
    decreases |landings|
  {
    if landings == [] then stream else LandAll(Land(stream, landings[0].k, landings[0].at), landings[1..])
  }

  /** A delayed publish that lands is stored or dropped as a repeat, and is no longer under way. */
  lemma LandExactly(stream: Stream, k: nat, at: int)
    requires k < |stream.inFlight|
    ensures var (sent, after) := (stream.inFlight[k], Land(stream, k, at));
      && after.inFlight == stream.inFlight[..k] + stream.inFlight[k + 1..]
      && (sent.id in stream.dedup ==> after.msgs == stream.msgs && after.dedup == stream.dedup)
      && (sent.id !in stream.dedup ==>
            && after.msgs == stream.msgs + [Msg(sent.id, sent.event, at)]
            && after.dedup == stream.dedup[sent.id := at])
  {
  }

  /** If the oldest publish under way lands again and again, all of them have landed at last, and
      each is in the stream. */
  lemma {:induction false} LandAllStores(stream: Stream, landings: seq<Landing>)
    requires |landings| == |stream.inFlight| && forall l <- landings :: l.k == 0
    requires forall id <- stream.dedup :: Stored(stream.msgs, id)
    ensures LandAll(stream, landings).inFlight == []
    ensures stream.msgs <= LandAll(stream, landings).msgs
    ensures forall sent <- stream.inFlight :: Stored(LandAll(stream, landings).msgs, sent.id)
    decreases |landings|
  {
    if landings != [] {
      assert landings[0] in landings && forall l <- landings[1..] :: l in landings;
      var next, final := Land(stream, 0, landings[0].at), LandAll(stream, landings);
      LandStores(stream, landings[0].at);
      LandAllStores(next, landings[1..]);
      forall sent <- stream.inFlight
        ensures Stored(final.msgs, sent.id)
      {
        if sent == stream.inFlight[0] {
          var m :| m in next.msgs && m.id == sent.id;
          assert m in final.msgs;
        } else {
          assert sent in next.inFlight;
        }
      }
    }
  }

  lemma LandStores(stream: Stream, at: int)
    requires stream.inFlight != [] && forall id <- stream.dedup :: Stored(stream.msgs, id)
    ensures var next := Land(stream, 0, at);
      && next.inFlight == stream.inFlight[1..] && stream.msgs <= next.msgs
      && Stored(next.msgs, stream.inFlight[0].id)
      && forall id <- next.dedup :: Stored(next.msgs, id)
  {
    var next, id := Land(stream, 0, at), stream.inFlight[0].id;
    if id !in stream.dedup {
      assert next.msgs[|stream.msgs|].id == id;
    }
    forall x <- next.dedup
      ensures Stored(next.msgs, x)
    {
      if x in stream.dedup {
        var m :| m in stream.msgs && m.id == x;
        assert m in next.msgs;
      }
    }
  }

  /** One turn of the relay's loop, and what commits and arrives before the next one. */
  datatype Round = Round(course: Course, arrivals: seq<Row>, landings: seq<Landing>)

  function AfterRound(w: World, round: Round): World {
    var polled := Poll(w, round.course);
    World(polled.rows + round.arrivals, LandAll(polled.stream, round.landings))
  }

  function PollRounds(w: World, rounds: seq<Round>): World
    decreases |rounds|
  {
    if rounds == [] then w else PollRounds(AfterRound(w, rounds[0]), rounds[1..])
  }

  /** A round is its poll, then its arrivals in the table and its landings in the stream. */
  lemma RoundExactly(w: World, round: Round)
    ensures var (polled, after) := (Poll(w, round.course), AfterRound(w, round));
      && after.rows == polled.rows + round.arrivals
      && after.stream == LandAll(polled.stream, round.landings)
      && (round.course.fetchFails ==> polled == w)
  {
  }

  /** Every arrival carries an id the table does not hold: the primary key. */
  ghost predicate RoundsFit(ids: seq<int>, rounds: seq<Round>)
    decreases |rounds|
  {
    && (forall i, j :: 0 <= i < j < |ids| ==> ids[i] != ids[j])
    && (rounds != [] ==> RoundsFit(ids + Ids(rounds[0].arrivals), rounds[1..]))
  }

  lemma {:induction false} AttemptAllKeepsIds(w: World, batch: seq<Row>, course: Course)
    ensures Ids(AttemptAll(w, batch, course).rows) == Ids(w.rows)
    decreases |batch|
  {
    if batch != [] {
      AttemptAllKeepsIds(Attempt(w, batch[0], course), batch[1..], course);
    }
  }

  lemma RoundKeepsIds(w: World, round: Round)
    ensures Ids(AfterRound(w, round).rows) == Ids(w.rows) + Ids(round.arrivals)
  {
    AttemptAllKeepsIds(w, Fetched(w, round.course), round.course);
    IdsConcat(Poll(w, round.course).rows, round.arrivals);
  }

  lemma DistinctIdsOf(rows: seq<Row>)
    requires forall i, j :: 0 <= i < j < |rows| ==> Ids(rows)[i] != Ids(rows)[j]
    ensures DistinctIds(rows)
  {
    assert forall i :: 0 <= i < |rows| ==> rows[i].id == Ids(rows)[i];
  }

  lemma IdsConcat(s: seq<Row>, t: seq<Row>)
    ensures Ids(s + t) == Ids(s) + Ids(t)
  {
  }

  lemma RoundKeepsFit(w: World, rounds: seq<Round>)
    requires rounds != [] && RoundsFit(Ids(w.rows), rounds)
    ensures DistinctIds(w.rows)
    ensures RoundsFit(Ids(AfterRound(w, rounds[0]).rows), rounds[1..])
  {
    RoundKeepsIds(w, rounds[0]);
    DistinctIdsOf(w.rows);
  }

  class Relay {
    const store: OutboxStore
    const publisher: Publisher

    constructor (store: OutboxStore, publisher: Publisher)
      ensures this.store == store && this.publisher == publisher
    {
      this.store, this.publisher := store, publisher;
    }

    function State(): World
      reads store, publisher.js
    {
      World(store.rows, publisher.js.State())
    }

    method PublishOne(row: Row, now: int, fate: Fate) returns (ok: bool)
      modifies publisher.js
      ensures ok == fate.Acked?
      ensures publisher.js.State() == PublishTo(old(publisher.js.State()), MsgId(row.id), row.event, now, fate)
    {
      ok := publisher.Publish(row.event, MsgId(row.id), now, fate);
    }

    /** One poll. */
    method PublishPending(course: Course)
      modifies store, publisher.js
      ensures State() == Poll(old(State()), course)
    {
      var fetched := store.FetchUnpublished(BATCH_SIZE, course.fetchFails);
      if fetched.None? {
        return;
      }
      var events := fetched.value;
      ghost var start := State();
      for k := 0 to |events|
        invariant AttemptAll(State(), events[k..], course) == AttemptAll(start, events, course)
      {
        AttemptAllNext(State(), events, k, course);
        var evt := events[k];
        var published := PublishOne(evt, course.publishAt(evt.id), course.publish(evt.id));
        if !published {
          continue;
        }
        var _ := store.MarkPublished(evt.id, course.markAt(evt.id), course.mark(evt.id));
      }
    }

    /** What the broker receives between two polls. */
    method ReceiveLate(landings: seq<Landing>)
      modifies publisher.js
      ensures publisher.js.State() == LandAll(old(publisher.js.State()), landings)
    {
      for k := 0 to |landings|
        invariant LandAll(publisher.js.State(), landings[k..]) == LandAll(old(publisher.js.State()), landings)
      {
        publisher.js.ReceiveLate(landings[k].k, landings[k].at);
        assert landings[k..][1..] == landings[k + 1..];
      }
    }

    /** Polls at once and after every tick, until the context is cancelled while it waits:
        one turn for each round given. */
    method Run(rounds: seq<Round>)
      requires rounds != []
      modifies store, publisher.js
      ensures State() == PollRounds(old(State()), rounds)
    {
      var k := 0;
      while true
        invariant 0 <= k < |rounds|
        invariant PollRounds(State(), rounds[k..]) == PollRounds(old(State()), rounds)
        decreases |rounds| - k
      {
        PublishPending(rounds[k].course);
        store.Arrive(rounds[k].arrivals);
        ReceiveLate(rounds[k].landings);
        assert rounds[k..][1..] == rounds[k + 1..];
        k := k + 1;
        if k == |rounds| {
          return;
        }
      }
    }
  }
}
