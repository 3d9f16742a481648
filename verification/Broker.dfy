/** order-service/internal/events/publisher.go and the broker behind it. */
module Broker {
  import opened Common
  import opened Outbox

  /** A message stored in the stream. */
  datatype Msg = Msg(id: string, event: OrderCreated, storedAt: int)

  /** Acknowledged; received with the acknowledgement lost; never to be received; or still under
      way when the publisher gave up on it, to be received later or never. */
  datatype Fate = Acked | AckLost | NotSent | Delayed

  /** The publish reached the broker before the publisher moved on. */
  predicate Reached(fate: Fate) {
    fate.Acked? || fate.AckLost?
  }

  /** A publish nobody waits for any more, and when it was sent. */
  datatype Sent = Sent(id: string, event: OrderCreated, at: int)

  /** The durable stream, the deduplication memory (remembered ids and when each was stored) and
      the publishes that may still reach them. */
  datatype Stream = Stream(msgs: seq<Msg>, dedup: map<string, int>, inFlight: seq<Sent>)

  ghost predicate Stored(msgs: seq<Msg>, id: string) {
    exists m :: m in msgs && m.id == id
  }

  /** The broker's side: a remembered id is dropped and acknowledged, any other is stored. */
  function Receive(stream: Stream, id: string, event: OrderCreated, now: int): Stream {
    if id in stream.dedup then stream
    else stream.(msgs := stream.msgs + [Msg(id, event, now)], dedup := stream.dedup[id := now])
  }

  function PublishTo(stream: Stream, id: string, event: OrderCreated, now: int, fate: Fate): Stream {
    match fate
    case NotSent => stream
    case Delayed => stream.(inFlight := stream.inFlight + [Sent(id, event, now)])
    case _ => Receive(stream, id, event, now)
  }

  /** A delayed publish reaches the broker. */
  function Land(stream: Stream, k: nat, now: int): Stream {
    if k >= |stream.inFlight| then stream
    else
      var sent := stream.inFlight[k];
      Receive(stream.(inFlight := stream.inFlight[..k] + stream.inFlight[k + 1..]), sent.id, sent.event, now)
  }

  class JetStream {
    var msgs: seq<Msg>
    var dedup: map<string, int>
    var inFlight: seq<Sent>

    constructor (stream: Stream)
      ensures State() == stream
    {
      msgs, dedup, inFlight := stream.msgs, stream.dedup, stream.inFlight;
    }

    function State(): Stream
      reads this
    {
      Stream(msgs, dedup, inFlight)
    }

    method PublishMsg(msg: Msg)
      modifies this
      ensures State() == Receive(old(State()), msg.id, msg.event, msg.storedAt)
    {
      if msg.id !in dedup {
        msgs := msgs + [msg];
        dedup := dedup[msg.id := msg.storedAt];
      }
    }

    /** A publish that is still under way. */
    method HoldBack(sent: Sent)
      modifies this
      ensures State() == old(State()).(inFlight := old(inFlight) + [sent])
    {
      inFlight := inFlight + [sent];
    }

    /** It arrives. */
    method ReceiveLate(k: nat, now: int)
      modifies this
      ensures State() == Land(old(State()), k, now)
    {
      if k < |inFlight| {
        var sent := inFlight[k];
        inFlight := inFlight[..k] + inFlight[k + 1..];
        PublishMsg(Msg(sent.id, sent.event, now));
      }
    }
  }

  class Publisher {
    const js: JetStream

    constructor (js: JetStream)
      ensures this.js == js
    {
      this.js := js;
    }

    /** Success only after the broker's acknowledgement. */
    method Publish(event: OrderCreated, msgId: string, now: int, fate: Fate) returns (ok: bool)
      modifies js
      ensures js.State() == PublishTo(old(js.State()), msgId, event, now, fate)
      ensures ok == fate.Acked?
      ensures match fate
        case NotSent => js.State() == old(js.State())
        case Delayed =>
          && js.msgs == old(js.msgs) && js.dedup == old(js.dedup)
          && js.inFlight == old(js.inFlight) + [Sent(msgId, event, now)]
        case _ =>
          && js.inFlight == old(js.inFlight)
          && (msgId in old(js.dedup) ==> js.msgs == old(js.msgs) && js.dedup == old(js.dedup))
          && (msgId !in old(js.dedup) ==>
                js.msgs == old(js.msgs) + [Msg(msgId, event, now)] && js.dedup == old(js.dedup)[msgId := now])
      ensures ok && old(js.dedup.Keys <= set m <- js.msgs :: m.id) ==> Stored(js.State().msgs, msgId)
    {
      ok := false;
      match fate {
        case NotSent =>
        case Delayed =>
          js.HoldBack(Sent(msgId, event, now));
        case _ =>
          js.PublishMsg(Msg(msgId, event, now));
          assert msgId !in old(js.dedup) ==> js.msgs[|old(js.msgs)|].id == msgId;
          ok := fate.Acked?;
      }
    }
  }
}
