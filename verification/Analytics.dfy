/** analytics-service: the running totals and the consumer callback that feeds them. */
module Analytics {
  import opened Common
  import opened Outbox

  datatype Snapshot = Snapshot(ordersCount: int, totalQuantity: int)

  /** One Record call, in Go's int arithmetic. */
  function Recorded(s: Snapshot, quantity: int): Snapshot {
    Snapshot(Int64(s.ordersCount + 1), Int64(s.totalQuantity + quantity))
  }

  const EMPTY: Snapshot := Snapshot(0, 0)

  class Stats {
    var ordersCount: int
    var totalQuantity: int

    constructor ()
      ensures View() == EMPTY
    {
      ordersCount, totalQuantity := 0, 0;
    }

    function View(): Snapshot
      reads this
    {
      Snapshot(ordersCount, totalQuantity)
    }

    method Record(quantity: int)
      modifies this
      ensures View() == Recorded(old(View()), quantity)
      ensures ordersCount == Int64(old(ordersCount) + 1) && totalQuantity == Int64(old(totalQuantity) + quantity)
    {
      ordersCount := Int64(ordersCount + 1);
      totalQuantity := Int64(totalQuantity + quantity);
    }

    method TakeSnapshot() returns (s: Snapshot)
      ensures s == Snapshot(ordersCount, totalQuantity)
    {
      s := Snapshot(ordersCount, totalQuantity);
    }
  }

  class Subscriber {
    const stats: Stats

    constructor (stats: Stats)
      ensures this.stats == stats
    {
      this.stats := stats;
    }

    /** The handler; one that fails does so before it records. */
    method Handle(event: OrderCreated, fails: bool) returns (ok: bool)
      modifies stats
      ensures ok == !fails
      ensures stats.View() == if ok then Recorded(old(stats.View()), event.quantity) else old(stats.View())
    {
      if fails {
        return false;
      }
      stats.Record(event.quantity);
      ok := true;
    }

    /** The Consume callback: a payload that does not decode and an event the handler refuses are
        negatively acknowledged; any other is recorded and then acknowledged. */
    method OnMessage(payload: Option<OrderCreated>, handlerFails: bool) returns (ack: bool)
      modifies stats
      ensures ack <==> payload.Some? && !handlerFails
      ensures ack ==>
        && stats.ordersCount == Int64(old(stats.ordersCount) + 1)
        && stats.totalQuantity == Int64(old(stats.totalQuantity) + payload.value.quantity)
      ensures stats.View() == if ack then Recorded(old(stats.View()), payload.value.quantity) else old(stats.View())
    {
      if payload.None? {
        return false;
      }
      var handled := Handle(payload.value, handlerFails);
      if !handled {
        return false;
      }
      ack := true;
    }
  }
}
