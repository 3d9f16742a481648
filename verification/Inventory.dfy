/** inventory-service/internal/inventory: the items table, its store and the gRPC adapter. */
module Inventory {
  import opened Common

  datatype Item = Item(sku: string, name: string, quantity: int)

  /** The items table, keyed by its primary key. */
  type Items = map<string, Item>

  datatype StoreError = ErrNotFound | ErrInsufficientStock | ErrDatabase

  type ItemResult = Result<Item, StoreError>

  /** INTEGER NOT NULL CHECK (quantity >= 0), and the key is the sku column. */
  ghost predicate ValidItems(items: Items) {
    forall sku <- items :: items[sku].sku == sku && 0 <= items[sku].quantity <= INT32_MAX
  }

  // ---------------------------------------------------------------- the SQL statements

  datatype Write = Reserve(sku: string, quantity: int) | Restock(sku: string, quantity: int) {
    /** What the statement adds to the quantity column. */
    function Delta(): int {
      if Reserve? then -quantity else quantity
    }

    /** The WHERE clause. */
    predicate Matches(items: Items) {
      sku in items && (Reserve? ==> items[sku].quantity >= quantity)
    }
  }

  datatype UpdateResult = Returned(item: Item) | NoRows | Failed

  /** One UPDATE ... RETURNING: a parameter that is no INTEGER, an overflowing sum and a
      negative quantity are errors without effect. */
  function Update(items: Items, w: Write): (Items, UpdateResult) {
    if !(-INT32_MAX - 1 <= w.quantity <= INT32_MAX) then (items, Failed)
    else if !w.Matches(items) then (items, NoRows)
    else
      var item := items[w.sku].(quantity := items[w.sku].quantity + w.Delta());
      if 0 <= item.quantity <= INT32_MAX then (items[w.sku := item], Returned(item)) else (items, Failed)
  }

  /** Other transactions, in the order they commit. */
  function UpdateAll(items: Items, ws: seq<Write>): Items {
    if ws == [] then items else UpdateAll(Update(items, ws[0]).0, ws[1..])
  }

  function FaultyUpdate(items: Items, w: Write, fault: Fault): (Items, UpdateResult) {
    match fault
    case NoFault => Update(items, w)
    case NotRun => (items, Failed)
    case AnswerLost => (Update(items, w).0, Failed)
  }

  function ReadItem(items: Items, sku: string, readFails: bool): ItemResult {
    if readFails then Err(ErrDatabase)
    else if sku in items then Ok(items[sku]) else Err(ErrNotFound)
  }

  /** ReserveStock as a whole: the UPDATE, and when it matches no row, the transactions that
      commit before the follow-up read, and that read. */
  function ReserveOutcome(items: Items, sku: string, quantity: int, fault: Fault,
                          between: seq<Write>, readFails: bool): (Items, ItemResult) {
    var (after, updated) := FaultyUpdate(items, Reserve(sku, quantity), fault);
    match updated
    case Returned(item) => (after, Ok(item))
    case Failed => (after, Err(ErrDatabase))
    case NoRows =>
      var later := UpdateAll(after, between);
      if ReadItem(later, sku, readFails) == Err(ErrNotFound)
      then (later, Err(ErrNotFound)) else (later, Err(ErrInsufficientStock))
  }

  function RestockOutcome(items: Items, sku: string, quantity: int, fault: Fault): (Items, ItemResult) {
    var (after, updated) := FaultyUpdate(items, Restock(sku, quantity), fault);
    match updated
    case Returned(item) => (after, Ok(item))
    case Failed => (after, Err(ErrDatabase))
    case NoRows => (after, Err(ErrNotFound))
  }

  class PostgresStore {
    var items: Items

    constructor (items: Items)
      ensures this.items == items
    {
      this.items := items;
    }

    method Execute(w: Write, fault: Fault) returns (r: UpdateResult)
      modifies this
      ensures (items, r) == FaultyUpdate(old(items), w, fault)
    {
      r := Failed;
      if !fault.NotRun? {
        var updated := Update(items, w);
        items := updated.0;
        if fault.NoFault? {
          r := updated.1;
        }
      }
    }

    /** Other clients' transactions. */
    method Interfere(ws: seq<Write>)
      modifies this
      ensures items == UpdateAll(old(items), ws)
    {
      for k := 0 to |ws|
        invariant UpdateAll(items, ws[k..]) == UpdateAll(old(items), ws)
      {
        items := Update(items, ws[k]).0;
        assert ws[k..][1..] == ws[k + 1..];
      }
    }

    method GetItem(sku: string, readFails: bool) returns (r: ItemResult)
      ensures r == ReadItem(items, sku, readFails)
      ensures r == if readFails then Err(ErrDatabase) else if sku in items then Ok(items[sku]) else Err(ErrNotFound)
    {
      if readFails {
        return Err(ErrDatabase);
      }
      r := if sku in items then Ok(items[sku]) else Err(ErrNotFound);
    }

    method ReserveStock(sku: string, quantity: int, fault: Fault, between: seq<Write>, readFails: bool)
      returns (r: ItemResult)
      modifies this
      ensures (items, r) == ReserveOutcome(old(items), sku, quantity, fault, between, readFails)
    {
      var updated := Execute(Reserve(sku, quantity), fault);
      match updated {
        case NoRows =>
          Interfere(between);
          var got := GetItem(sku, readFails);
          if got == Err(ErrNotFound) {
            return Err(ErrNotFound);
          }
          return Err(ErrInsufficientStock);
        case Failed =>
          return Err(ErrDatabase);
        case Returned(item) =>
          return Ok(item);
      }
    }

    method RestockItem(sku: string, quantity: int, fault: Fault) returns (r: ItemResult)
      modifies this
      ensures (items, r) == RestockOutcome(old(items), sku, quantity, fault)
    {
      var updated := Execute(Restock(sku, quantity), fault);
      match updated {
        case NoRows =>
          return Err(ErrNotFound);
        case Failed =>
          return Err(ErrDatabase);
        case Returned(item) =>
          return Ok(item);
      }
    }
  }

  // ---------------------------------------------------------------- what the store promises

  /** Any mix of transactions keeps the table's constraints and adds and removes no row. */
  lemma {:induction false} UpdateAllKeepsRows(items: Items, ws: seq<Write>)
    requires ValidItems(items)
    ensures ValidItems(UpdateAll(items, ws)) && UpdateAll(items, ws).Keys == items.Keys
  {
    if ws != [] {
      UpdateAllKeepsRows(Update(items, ws[0]).0, ws[1..]);
    }
  }

  /** Verdicts linearise at the UPDATE. Success means the stock sufficed then and was taken from
      that row alone; a refusal means this call changed nothing and the UPDATE could not match;
      and the refusal names the right reason exactly unless the follow-up read fails for an item
      that does not exist. */
  lemma VerdictAtUpdate(items: Items, sku: string, quantity: int, fault: Fault, between: seq<Write>, readFails: bool)
    requires ValidItems(items)
    ensures var (after, r) := ReserveOutcome(items, sku, quantity, fault, between, readFails);
      match r
      case Ok(item) =>
        && Reserve(sku, quantity).Matches(items)
        && item == items[sku].(quantity := items[sku].quantity - quantity)
        && 0 <= item.quantity <= INT32_MAX
        && after == items[sku := item]
      case Err(ErrDatabase) => after == items || after == Update(items, Reserve(sku, quantity)).0
      case Err(verdict) =>
        && after == UpdateAll(items, between)
        && !Reserve(sku, quantity).Matches(items)
        && ((verdict == if sku in items then ErrInsufficientStock else ErrNotFound)
            <==> (readFails ==> sku in items))
  {
    UpdateAllKeepsRows(items, between);
  }

  /** ReserveStock in terms of the table alone: it takes the quantity exactly if the item has that
      much, and otherwise says which of the two is missing. */
  lemma ReserveExactly(items: Items, sku: string, quantity: int, fault: Fault, between: seq<Write>, readFails: bool)
    requires ValidItems(items) && 0 < quantity
    ensures var (after, r) := ReserveOutcome(items, sku, quantity, fault, between, readFails);
      if fault.NotRun? || quantity > INT32_MAX then after == items && r == Err(ErrDatabase)
      else if sku in items && quantity <= items[sku].quantity then
        && after == items[sku := Item(sku, items[sku].name, items[sku].quantity - quantity)]
        && r == if fault.NoFault? then Ok(after[sku]) else Err(ErrDatabase)
      else if fault.AnswerLost? then after == items && r == Err(ErrDatabase)
      else
        && after == UpdateAll(items, between)
        && r == Err(if sku in items || readFails then ErrInsufficientStock else ErrNotFound)
  {
    UpdateAllKeepsRows(items, between);
  }

  /** RestockItem in terms of the table alone: it adds the quantity exactly if the item exists and
      its column can hold the sum. */
  lemma RestockExactly(items: Items, sku: string, quantity: int, fault: Fault)
    requires ValidItems(items) && 0 < quantity
    ensures var (after, r) := RestockOutcome(items, sku, quantity, fault);
      if fault.NotRun? || quantity > INT32_MAX then after == items && r == Err(ErrDatabase)
      else if sku !in items then after == items && r == Err(if fault.NoFault? then ErrNotFound else ErrDatabase)
      else if items[sku].quantity + quantity > INT32_MAX then after == items && r == Err(ErrDatabase)
      else
        && after == items[sku := Item(sku, items[sku].name, items[sku].quantity + quantity)]
        && r == if fault.NoFault? then Ok(after[sku]) else Err(ErrDatabase)
  {
  }

  /** The one wrong verdict: an item that does not exist, and a follow-up read that fails. */
  lemma MissingItemCalledInsufficient(items: Items, sku: string, quantity: int, between: seq<Write>)
    requires sku !in items && 0 < quantity <= INT32_MAX
    ensures ReserveOutcome(items, sku, quantity, NoFault, between, true).1 == Err(ErrInsufficientStock)
  {
  }

  // ---------------------------------------------------------------- gRPC

  datatype Code =
    | OK | Canceled | Unknown | InvalidArgument | DeadlineExceeded
    | NotFound | FailedPrecondition | Internal | Unavailable

  datatype Reply = Reply(code: Code, sku: string, name: string, quantity: int)

  function Status(code: Code): Reply {
    Reply(code, "", "", 0)
  }

  predicate ValidRequest(sku: string, quantity: int) {
    sku != "" && quantity > 0
  }

  /** The switch over the store's result; the quantity is converted to int32. */
  function ReplyFor(r: ItemResult): Reply {
    match r
    case Ok(item) => Reply(OK, item.sku, item.name, Int32(item.quantity))
    case Err(ErrNotFound) => Status(NotFound)
    case Err(ErrInsufficientStock) => Status(FailedPrecondition)
    case Err(ErrDatabase) => Status(Internal)
  }

  class GRPCServer {
    const store: PostgresStore

    constructor (store: PostgresStore)
      ensures this.store == store
    {
      this.store := store;
    }

    method ReserveStock(sku: string, quantity: int, fault: Fault, between: seq<Write>, readFails: bool)
      returns (reply: Reply)
      requires Int32(quantity) == quantity
      modifies store
      ensures sku == "" || quantity <= 0 ==>
        reply == Reply(InvalidArgument, "", "", 0) && store.items == old(store.items)
      ensures sku != "" && quantity > 0 ==>
        var (after, r) := ReserveOutcome(old(store.items), sku, quantity, fault, between, readFails);
        store.items == after && reply == ReplyFor(r)
    {
      if sku == "" || quantity <= 0 {
        return Status(InvalidArgument);
      }
      var r := store.ReserveStock(sku, quantity, fault, between, readFails);
      match r {
        case Err(ErrNotFound) =>
          return Status(NotFound);
        case Err(ErrInsufficientStock) =>
          return Status(FailedPrecondition);
        case Err(ErrDatabase) =>
          return Status(Internal);
        case Ok(item) =>
          return Reply(OK, item.sku, item.name, Int32(item.quantity));
      }
    }
  }

  /** The reply in terms of the table alone. */
  lemma ReplyExactly(items: Items, sku: string, quantity: int, fault: Fault, between: seq<Write>, readFails: bool)
    requires ValidItems(items) && 0 < quantity <= INT32_MAX
    ensures var reply := ReplyFor(ReserveOutcome(items, sku, quantity, fault, between, readFails).1);
      if !fault.NoFault? then reply == Reply(Internal, "", "", 0)
      else if sku in items && quantity <= items[sku].quantity then
        reply == Reply(OK, sku, items[sku].name, items[sku].quantity - quantity)
      else if sku in items || readFails then reply == Reply(FailedPrecondition, "", "", 0)
      else reply == Reply(NotFound, "", "", 0)
  {
    ReserveExactly(items, sku, quantity, fault, between, readFails);
  }

  /** Narrowing the answer loses nothing: a reply of OK carries the row as the UPDATE left it. */
  lemma ReplyIsExact(items: Items, sku: string, quantity: int, fault: Fault, between: seq<Write>, readFails: bool)
    requires ValidItems(items)
    ensures var (after, r) := ReserveOutcome(items, sku, quantity, fault, between, readFails);
            ReplyFor(r).code == OK ==>
              && sku in after
              && ReplyFor(r) == Reply(OK, sku, after[sku].name, after[sku].quantity)
  {
    VerdictAtUpdate(items, sku, quantity, fault, between, readFails);
  }
}
