/**
 * The order-book events the codec stores, and the flat row they are stored as.
 *
 * Prices and sizes are plain integers; an instrument id is its string form.
 * `OrderBookDelta.to_dict` and `OrderBookDelta.from_dict` are taken to copy
 * these fields one for one (see `ParseDelta` in the encoder and `FromDict`).
 */
module BookData {
  import opened Wrappers

  datatype OrderSide = Buy | Sell

  datatype BookAction = Add | Update | Delete | Clear

  datatype BookOrder = BookOrder(price: int, size: int, side: OrderSide)

  /** One atomic change to a book; a CLEAR carries no order. */
  datatype OrderBookDelta = OrderBookDelta(
    instrumentId: string,
    action: BookAction,
    order: Option<BookOrder>,
    tsEvent: nat,
    tsInit: nat)

  /** A batch of deltas applied as one update. */
  datatype OrderBookDeltas = OrderBookDeltas(
    instrumentId: string,
    deltas: seq<OrderBookDelta>,
    tsEvent: nat,
    tsInit: nat)

  /** A (price, size) level of a snapshot. */
  datatype Level = Level(price: int, size: int)

  /** A whole book; level order is the caller's and is kept as given. */
  datatype OrderBookSnapshot = OrderBookSnapshot(
    instrumentId: string,
    bids: seq<Level>,
    asks: seq<Level>,
    tsEvent: nat,
    tsInit: nat)

  /** The three kinds of data the codec serves. */
  datatype BookData =
    | Delta(delta: OrderBookDelta)
    | Deltas(deltas: OrderBookDeltas)
    | Snapshot(snapshot: OrderBookSnapshot)

  function TsEvent(data: BookData): nat {
    match data
    case Delta(d) => d.tsEvent
    case Deltas(b) => b.tsEvent
    case Snapshot(s) => s.tsEvent
  }

  /** The column names of the three kinds, as written to `_type`. */
  const DeltaTypeName: string := "OrderBookDelta"
  const DeltasTypeName: string := "OrderBookDeltas"
  const SnapshotTypeName: string := "OrderBookSnapshot"

  /** The strings an order side is stored as. */
  const BuyName: string := "BUY"
  const SellName: string := "SELL"

  /**
   * One stored row. `side` is the raw column: absent for a delta without an
   * order, otherwise a string that a well-formed row spells "BUY" or "SELL".
   * `price` and `size` are 0 when there is no order. `typ` is `_type` and
   * `last` is `_last` (absent reads as false).
   */
  datatype Row = Row(
    instrumentId: string,
    action: BookAction,
    side: Option<string>,
    price: int,
    size: int,
    tsEvent: nat,
    tsInit: nat,
    typ: string,
    last: bool)

  function SideName(side: OrderSide): string {
    match side
    case Buy => BuyName
    case Sell => SellName
  }

  /** The side column holds one of the values the decoder accepts. */
  predicate ValidSide(side: Option<string>) {
    side == None || side == Some(BuyName) || side == Some(SellName)
  }

  /** `OrderBookDelta.from_dict`; `_type` and `_last` are not part of a delta. */
  function FromDict(row: Row): OrderBookDelta
    requires ValidSide(row.side)
  {
    var order :=
      match row.side
      case None => None
      case Some(name) => Some(BookOrder(row.price, row.size, if name == BuyName then Buy else Sell));
    OrderBookDelta(row.instrumentId, row.action, order, row.tsEvent, row.tsInit)
  }
}
