/**
 * The order-level book as a client sees it: two flat lists of resting orders in
 * price-time order and the tape of all trades so far.  No price levels, no id index,
 * no counters; those belong to the class that refines this module (L3Book.dfy).
 */
module BookSpec {
  import opened Types
  import opened PriceTime

  datatype Book = Book(symbol: Symbol, bids: seq<L3Order>, asks: seq<L3Order>, tape: seq<Trade>) {
    function On(side: Side): seq<L3Order> {
      if side.Buy? then bids else asks
    }

    function With(side: Side, flat: seq<L3Order>): Book {
      if side.Buy? then this.(bids := flat) else this.(asks := flat)
    }
  }

  function Empty(symbol: Symbol): Book {
    Book(symbol, [], [], [])
  }

  // ---------------------------------------------------------------- lists of resting orders

  /** Where an id sits; the length of the list when it is absent. */
  function Position(flat: seq<L3Order>, id: OrderId): (k: nat)
    ensures k <= |flat|
    ensures k < |flat| ==> flat[k].id == id
    ensures forall i :: 0 <= i < k ==> flat[i].id != id
  {
    if flat == [] || flat[0].id == id then 0 else 1 + Position(flat[1..], id)
  }

  predicate Has(flat: seq<L3Order>, id: OrderId) {
    Position(flat, id) < |flat|
  }

  predicate HasId(b: Book, id: OrderId) {
    Has(b.bids, id) || Has(b.asks, id)
  }

  /** How many orders rest at a price. */
  function CountAt(flat: seq<L3Order>, price: Price): (n: nat)
    ensures n <= |flat|
  {
    if flat == [] then 0 else (if flat[0].price == price then 1 else 0) + CountAt(flat[1..], price)
  }

  /** Where a new order at `price` goes: behind every order at least as good. */
  function Slot(side: Side, flat: seq<L3Order>, price: Price): (k: nat)
    ensures k <= |flat|
    ensures forall i :: 0 <= i < k ==> Rank(side, flat[i].price) <= Rank(side, price)
    ensures k < |flat| ==> Rank(side, price) < Rank(side, flat[k].price)
  {
    if flat == [] || Rank(side, price) < Rank(side, flat[0].price) then 0
    else 1 + Slot(side, flat[1..], price)
  }

  function Insert(side: Side, flat: seq<L3Order>, x: L3Order): seq<L3Order> {
    var k := Slot(side, flat, x.price);
    flat[..k] + [x] + flat[k..]
  }

  function Drop(flat: seq<L3Order>, k: nat): seq<L3Order>
    requires k < |flat|
  {
    flat[..k] + flat[k + 1..]
  }

  /** Every order at `price` learns how many older orders share its price. */
  function Renumber(flat: seq<L3Order>, price: Price): (r: seq<L3Order>)
    ensures |r| == |flat|
  {
    seq(|flat|, i requires 0 <= i < |flat| =>
      if flat[i].price == price then flat[i].(queuePos := CountAt(flat[..i], price)) else flat[i])
  }

  // ---------------------------------------------------------------- submitting

  datatype Reply = Reply(book: Book, report: ExecReport)

  /** Fill-or-kill trades only if the eligible liquidity covers the whole order. */
  predicate Fillable(b: Book, o: Order) {
    o.tif.FOK? ==> o.qty <= EligibleQty(b.On(o.side.Opposite()), o)
  }

  function Match(b: Book, o: Order, ts: Timestamp): Outcome {
    var flat := b.On(o.side.Opposite());
    if Fillable(b, o) then Walk(flat, Aggressor(o, b.symbol, ts), o.qty, |b.tape| + 1)
    else Outcome([], flat, o.qty)
  }

  /** Only a Day or GTC limit order leaves its remainder in the book. */
  predicate Rests(o: Order, left: Quantity) {
    0 < left && o.kind.Limit? && (o.tif.Day? || o.tif.GTC?)
  }

  function NewResting(flat: seq<L3Order>, o: Order, left: Quantity, ts: Timestamp): L3Order {
    L3Order(o.id, o.trader, o.side, o.price, left, 0, o.qty - left, ts, CountAt(flat, o.price), false)
  }

  function StatusOf(o: Order, left: Quantity): OrderStatus {
    if left == 0 then Filled
    else if 0 < left && o.kind.Limit? && o.tif.FOK? then Rejected
    else if left < o.qty then PartiallyFilled
    else if 0 < left && o.kind.Limit? && o.tif.IOC? then Canceled
    else New
  }

  function ReportOf(o: Order, w: Outcome, ts: Timestamp): ExecReport {
    var killed := 0 < w.left && o.kind.Limit? && o.tif.FOK?;
    var expired := 0 < w.left && o.kind.Limit? && (o.tif.IOC? || o.tif.FOK?);
    var partial := 0 < w.left < o.qty && w.trades != [];
    ExecReport(
      o.id, o.trader, o.symbol, o.side, o.kind, StatusOf(o, w.left), o.price, o.qty,
      if killed then 0 else o.qty - w.left,
      if partial then w.trades[|w.trades| - 1].qty else 0,
      if partial then w.trades[|w.trades| - 1].price else 0,
      if expired then 0 else w.left,
      ts,
      if killed then InsufficientLiquidity else NoReason)
  }

  function DuplicateReport(o: Order, ts: Timestamp): ExecReport {
    ExecReport(o.id, o.trader, o.symbol, o.side, o.kind, Rejected, o.price, o.qty, 0, 0, 0, 0, ts,
               DuplicateOrderId)
  }

  function AfterMatch(b: Book, o: Order, w: Outcome): Book {
    b.With(o.side.Opposite(), w.rest).(tape := b.tape + w.trades)
  }

  function Submit(b: Book, o: Order, ts: Timestamp): Reply {
    if HasId(b, o.id) then Reply(b, DuplicateReport(o, ts))
    else
      var w := Match(b, o, ts);
      var b1 := AfterMatch(b, o, w);
      var own := b1.On(o.side);
      Reply(if Rests(o, w.left) then b1.With(o.side, Insert(o.side, own, NewResting(own, o, w.left, ts))) else b1,
            ReportOf(o, w, ts))
  }

  // ---------------------------------------------------------------- cancelling, replacing

  function CancelReport(b: Book, x: L3Order, ts: Timestamp): ExecReport {
    ExecReport(x.id, x.trader, b.symbol, x.side, Limit, Canceled, x.price, x.Available() + x.filled,
               x.filled, 0, 0, 0, ts, NoReason)
  }

  function Cancel(b: Book, id: OrderId, ts: Timestamp): Reply {
    if !HasId(b, id) then Reply(b, BLANK_REPORT.(orderId := id, transactTime := ts, status := Rejected))
    else
      var side := if Has(b.bids, id) then Buy else Sell;
      var flat := b.On(side);
      var k := Position(flat, id);
      Reply(b.With(side, Renumber(Drop(flat, k), flat[k].price)), CancelReport(b, flat[k], ts))
  }

  function Replacement(req: ReplaceRequest, side: Side, ts: Timestamp): Order {
    Order(req.id, req.trader, req.symbol, side, Limit, Day, req.newPrice, req.newQty, ts)
  }

  function Replace(b: Book, req: ReplaceRequest, ts: Timestamp): Reply {
    var c := Cancel(b, req.id, ts);
    if c.report.status.Canceled? then Submit(c.book, Replacement(req, c.report.side, ts), ts)
    else c
  }

  // ---------------------------------------------------------------- the invariant

  /** Stored queue positions never understate the number of older orders at the price. */
  ghost predicate PositionsBound(flat: seq<L3Order>) {
    forall i :: 0 <= i < |flat| ==> CountAt(flat[..i], flat[i].price) <= flat[i].queuePos
  }

  ghost predicate PositionsExact(flat: seq<L3Order>, price: Price) {
    forall i :: 0 <= i < |flat| && flat[i].price == price ==>
      flat[i].queuePos == CountAt(flat[..i], price)
  }

  ghost predicate Disjoint(a: seq<L3Order>, b: seq<L3Order>) {
    forall i, j :: 0 <= i < |a| && 0 <= j < |b| ==> a[i].id != b[j].id
  }

  ghost predicate Uncrossed(bids: seq<L3Order>, asks: seq<L3Order>) {
    forall i, j :: 0 <= i < |bids| && 0 <= j < |asks| ==> bids[i].price < asks[j].price
  }

  ghost predicate TapeOk(tape: seq<Trade>) {
    forall k :: 0 <= k < |tape| ==> tape[k].tradeId == k + 1
  }

  ghost predicate SideInv(side: Side, flat: seq<L3Order>) {
    SideOk(side, flat) && DistinctIds(flat) && PositionsBound(flat)
  }

  ghost predicate Inv(b: Book) {
    match b
    case Book(_, bids, asks, tape) =>
      && SideInv(Buy, bids)
      && SideInv(Sell, asks)
      && Disjoint(bids, asks)
      && Uncrossed(bids, asks)
      && TapeOk(tape)
  }
}
