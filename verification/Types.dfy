/** The plain records and enumerations shared by every component (src/common/types.h). */
module Types {
  type OrderId = nat
  type TraderId = nat
  type Symbol = string
  type Price = int
  type Quantity = int
  type Timestamp = nat

  datatype Option<+T> = None | Some(value: T)

  datatype Side = Buy | Sell {
    function Opposite(): Side {
      if Buy? then Sell else Buy
    }
  }

  datatype OrderType = Limit | Market

  datatype TimeInForce = Day | IOC | FOK | GTC

  datatype OrderStatus = New | PartiallyFilled | Filled | Canceled | Rejected

  datatype RejectReason =
    | NoReason
    | UnknownSymbol
    | InvalidPrice
    | InvalidQuantity
    | PositionLimit
    | RateLimit
    | KillSwitchActive
    | DuplicateOrderId
    | InsufficientLiquidity

  datatype Order = Order(
    id: OrderId,
    trader: TraderId,
    symbol: Symbol,
    side: Side,
    kind: OrderType,
    tif: TimeInForce,
    price: Price,
    qty: Quantity,
    submitTime: Timestamp)

  datatype ReplaceRequest = ReplaceRequest(
    id: OrderId,
    trader: TraderId,
    symbol: Symbol,
    newPrice: Price,
    newQty: Quantity)

  /** One resting order of the order-level book. */
  datatype L3Order = L3Order(
    id: OrderId,
    trader: TraderId,
    side: Side,
    price: Price,
    visible: Quantity,
    hidden: Quantity,
    filled: Quantity,
    entryTime: Timestamp,
    queuePos: nat,
    iceberg: bool)
  {
    function Available(): Quantity {
      visible + hidden
    }
  }

  /** One resting or incoming order of the simple book. */
  datatype BookOrder = BookOrder(
    id: OrderId,
    trader: TraderId,
    qty: Quantity,
    price: Price,
    side: Side,
    kind: OrderType,
    tsNs: Timestamp)

  datatype Trade = Trade(
    tradeId: nat,
    restingId: OrderId,
    incomingId: OrderId,
    restingTrader: TraderId,
    incomingTrader: TraderId,
    symbol: Symbol,
    aggressor: Side,
    price: Price,
    qty: Quantity,
    ts: Timestamp)

  datatype ExecReport = ExecReport(
    orderId: OrderId,
    trader: TraderId,
    symbol: Symbol,
    side: Side,
    kind: OrderType,
    status: OrderStatus,
    price: Price,
    orderQty: Quantity,
    filledQty: Quantity,
    lastQty: Quantity,
    lastPrice: Price,
    leavesQty: Quantity,
    transactTime: Timestamp,
    reason: RejectReason)

  /** A value-initialised report: every field at its in-class default. */
  const BLANK_REPORT :=
    ExecReport(0, 0, "", Buy, Limit, New, 0, 0, 0, 0, 0, 0, 0, NoReason)

  function Min(a: int, b: int): int {
    if a <= b then a else b
  }

  function Max(a: int, b: int): int {
    if a <= b then b else a
  }

  lemma {:induction false} ProductMonotone(a: int, b: int, m: nat)
    requires a <= b
    ensures a * m <= b * m
  {
  }
}
