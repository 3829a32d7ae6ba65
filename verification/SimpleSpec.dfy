/** The simple book as two flat lists, and its agreement with the order-level book. */
module SimpleSpec {
  import opened Types
  import opened PriceTime
  import opened BookSpec
  import opened BookInvariant
  import opened BookRuns

  datatype SimpleBook = SimpleBook(bids: seq<BookOrder>, asks: seq<BookOrder>) {
    function On(side: Side): seq<BookOrder> {
      if side.Buy? then bids else asks
    }

    function With(side: Side, flat: seq<BookOrder>): SimpleBook {
      if side.Buy? then this.(bids := flat) else this.(asks := flat)
    }
  }

  /** A simple order read as an order of the other book: all of it displayed. */
  function Lift(x: BookOrder): L3Order {
    L3Order(x.id, x.trader, x.side, x.price, x.qty, 0, 0, x.tsNs, 0, false)
  }

  function LiftAll(flat: seq<BookOrder>): (r: seq<L3Order>)
    ensures |r| == |flat|
  {
    seq(|flat|, i requires 0 <= i < |flat| => Lift(flat[i]))
  }

  // ---------------------------------------------------------------- matching

  predicate SimpleEligible(n: BookOrder, price: Price) {
    n.kind.Market? || (if n.side.Buy? then price <= n.price else n.price <= price)
  }

  /** The simple book leaves trade id and trader ids of a trade at their defaults. */
  function SimpleTrade(x: BookOrder, n: BookOrder, symbol: Symbol, ts: Timestamp, qty: Quantity): Trade {
    Trade(0, x.id, n.id, 0, 0, symbol, n.side, x.price, qty, ts)
  }

  datatype SimpleOutcome = SimpleOutcome(trades: seq<Trade>, rest: seq<BookOrder>, left: Quantity)

  function SimpleWalk(flat: seq<BookOrder>, n: BookOrder, symbol: Symbol, ts: Timestamp, qty: Quantity): SimpleOutcome
    decreases |flat|
  {
    if qty <= 0 || flat == [] || !SimpleEligible(n, flat[0].price) then SimpleOutcome([], flat, qty)
    else
      var m := Min(qty, flat[0].qty);
      var w := SimpleWalk(flat[1..], n, symbol, ts, qty - m);
      SimpleOutcome(
        [SimpleTrade(flat[0], n, symbol, ts, m)] + w.trades,
        if m == flat[0].qty then w.rest else [flat[0].(qty := flat[0].qty - m)] + w.rest,
        w.left)
  }

  // ---------------------------------------------------------------- requests

  function SimpleInsert(side: Side, flat: seq<BookOrder>, x: BookOrder): seq<BookOrder> {
    var k := Slot(side, LiftAll(flat), x.price);
    flat[..k] + [x] + flat[k..]
  }

  predicate SimpleHas(flat: seq<BookOrder>, id: OrderId) {
    Has(LiftAll(flat), id)
  }

  function SimpleRemoval(flat: seq<BookOrder>, id: OrderId): seq<BookOrder>
    requires SimpleHas(flat, id)
  {
    var k := Position(LiftAll(flat), id);
    flat[..k] + flat[k + 1..]
  }

  function SimpleCancel(b: SimpleBook, id: OrderId): SimpleBook {
    if SimpleHas(b.bids, id) then b.(bids := SimpleRemoval(b.bids, id))
    else if SimpleHas(b.asks, id) then b.(asks := SimpleRemoval(b.asks, id))
    else b
  }

  function Incoming(o: Order, ts: Timestamp): BookOrder {
    BookOrder(o.id, o.trader, o.qty, o.price, o.side, o.kind, ts)
  }

  /** How a client drives the simple book to submit an order: ids not in use, match first,
      then add what a Day or GTC limit order has left. */
  function SimpleSubmit(b: SimpleBook, symbol: Symbol, o: Order, ts: Timestamp): SimpleBook {
    if SimpleHas(b.bids, o.id) || SimpleHas(b.asks, o.id) then b
    else
      var n := Incoming(o, ts);
      var w := SimpleWalk(b.On(o.side.Opposite()), n, symbol, ts, o.qty);
      var b1 := b.With(o.side.Opposite(), w.rest);
      if Rests(o, w.left) then b1.With(o.side, SimpleInsert(o.side, b1.On(o.side), n.(qty := w.left))) else b1
  }

  // ---------------------------------------------------------------- agreement

  ghost predicate SameOrder(x: L3Order, y: BookOrder) {
    && x.id == y.id && x.trader == y.trader && x.price == y.price && x.side == y.side
    && x.Available() == y.qty && x.entryTime == y.tsNs
  }

  ghost predicate Corresponds(a: seq<L3Order>, b: seq<BookOrder>) {
    |a| == |b| && forall i :: 0 <= i < |a| ==> SameOrder(a[i], b[i])
  }

  ghost predicate BooksCorrespond(b: Book, s: SimpleBook) {
    Corresponds(b.bids, s.bids) && Corresponds(b.asks, s.asks)
  }

  /** The same trades, but for the fields the simple book does not fill in. */
  ghost predicate SameTrades(a: seq<Trade>, b: seq<Trade>) {
    |a| == |b| && forall i :: 0 <= i < |a| ==> b[i] == a[i].(tradeId := 0, restingTrader := 0, incomingTrader := 0)
  }

  ghost predicate SameOutcome(w: Outcome, s: SimpleOutcome) {
    SameTrades(w.trades, s.trades) && Corresponds(w.rest, s.rest) && w.left == s.left
  }

  /** The two books match alike, icebergs counted with their whole quantity. */
  lemma {:induction false} WalksAgree(a: seq<L3Order>, b: seq<BookOrder>, o: Order, symbol: Symbol, ts: Timestamp,
                                      qty: Quantity, tid: nat)
    requires AllLive(a) && Corresponds(a, b)
    ensures SameOutcome(Walk(a, Aggressor(o, symbol, ts), qty, tid), SimpleWalk(b, Incoming(o, ts), symbol, ts, qty))
    decreases |a|
  {
    if 0 < qty && a != [] && Eligible(o, a[0].price) {
      assert SameOrder(a[0], b[0]);
      var m := Min(qty, a[0].Available());
      WalksAgree(a[1..], b[1..], o, symbol, ts, qty - m, tid + 1);
      if m < a[0].Available() {
        HitConserves(a[0], m);
      }
    }
  }

  lemma {:induction false} SlotsAgree(side: Side, a: seq<L3Order>, b: seq<L3Order>, price: Price)
    requires |a| == |b| && forall i :: 0 <= i < |a| ==> a[i].price == b[i].price
    ensures Slot(side, a, price) == Slot(side, b, price)
  {
    if a != [] {
      SlotsAgree(side, a[1..], b[1..], price);
    }
  }

  lemma {:induction false} PositionsAgree(a: seq<L3Order>, b: seq<BookOrder>, id: OrderId)
    requires Corresponds(a, b)
    ensures Position(a, id) == Position(LiftAll(b), id)
    ensures Has(a, id) <==> SimpleHas(b, id)
  {
    var p := Position(a, id);
    forall i | 0 <= i < |a|
      ensures a[i].id == LiftAll(b)[i].id
    {
      assert SameOrder(a[i], b[i]);
    }
  }

  lemma {:induction false} InsertsAgree(side: Side, a: seq<L3Order>, b: seq<BookOrder>, x: L3Order, y: BookOrder)
    requires Corresponds(a, b) && SameOrder(x, y)
    ensures Corresponds(Insert(side, a, x), SimpleInsert(side, b, y))
  {
    forall i | 0 <= i < |a|
      ensures a[i].price == LiftAll(b)[i].price
    {
      assert SameOrder(a[i], b[i]);
    }
    SlotsAgree(side, a, LiftAll(b), x.price);
    var k := Slot(side, a, x.price);
    forall i | 0 <= i <= |a|
      ensures SameOrder(Insert(side, a, x)[i], SimpleInsert(side, b, y)[i])
    {
      InsertAt(side, a, x, i);
      assert SimpleInsert(side, b, y)[i] == if i < k then b[i] else if i == k then y else b[i - 1];
    }
  }

  lemma {:induction false} RemovalsAgree(a: seq<L3Order>, b: seq<BookOrder>, id: OrderId)
    requires Corresponds(a, b) && Has(a, id)
    ensures SimpleHas(b, id) && Corresponds(Removal(a, id), SimpleRemoval(b, id))
  {
    PositionsAgree(a, b, id);
    var k := Position(a, id);
    forall i | 0 <= i < |a| - 1
      ensures SameOrder(Removal(a, id)[i], SimpleRemoval(b, id)[i])
    {
      RemovalAt(a, id, i);
      var j := if i < k then i else i + 1;
      assert SameOrder(a[j], b[j]) && SimpleRemoval(b, id)[i] == b[j];
    }
  }

  /** One submission: the same trades, the same leftover, corresponding books again. */
  lemma {:induction false} SubmitsAgree(b: Book, s: SimpleBook, o: Order, ts: Timestamp)
    requires Inv(b) && BooksCorrespond(b, s) && !o.tif.FOK?
    ensures BooksCorrespond(Submit(b, o, ts).book, SimpleSubmit(s, b.symbol, o, ts))
    ensures !HasId(b, o.id) ==>
              SameOutcome(Match(b, o, ts), SimpleWalk(s.On(o.side.Opposite()), Incoming(o, ts), b.symbol, ts, o.qty))
  {
    PositionsAgree(b.bids, s.bids, o.id);
    PositionsAgree(b.asks, s.asks, o.id);
    if !HasId(b, o.id) {
      var side := o.side.Opposite();
      WalksAgree(b.On(side), s.On(side), o, b.symbol, ts, o.qty, |b.tape| + 1);
      SubmitAnatomy(b, o, ts);
      var w := Match(b, o, ts);
      var x := NewResting(b.On(o.side), o, w.left, ts);
      InsertsAgree(o.side, b.On(o.side), s.On(o.side), x, Incoming(o, ts).(qty := w.left));
    }
  }

  lemma {:induction false} CancelsAgree(b: Book, s: SimpleBook, id: OrderId, ts: Timestamp)
    requires BooksCorrespond(b, s)
    ensures BooksCorrespond(Cancel(b, id, ts).book, SimpleCancel(s, id))
  {
    PositionsAgree(b.bids, s.bids, id);
    PositionsAgree(b.asks, s.asks, id);
    if HasId(b, id) {
      var side := if Has(b.bids, id) then Buy else Sell;
      CancelAnatomy(b, id, ts);
      RemovalsAgree(b.On(side), s.On(side), id);
    }
  }

  // ---------------------------------------------------------------- whole runs

  /** Requests both books serve: submissions other than fill-or-kill, and cancels. */
  predicate Shared(e: Event) {
    match e.request
    case AddOrder(o) => !o.tif.FOK?
    case CancelOrder(_) => true
    case ReplaceOrder(_) => false
  }

  function SimpleStep(s: SimpleBook, symbol: Symbol, e: Event): SimpleBook {
    match e.request
    case AddOrder(o) => SimpleSubmit(s, symbol, o, e.ts)
    case CancelOrder(id) => SimpleCancel(s, id)
    case ReplaceOrder(_) => s
  }

  function SimpleRun(s: SimpleBook, symbol: Symbol, es: seq<Event>): SimpleBook
    decreases |es|
  {
    if es == [] then s else SimpleRun(SimpleStep(s, symbol, es[0]), symbol, es[1..])
  }

  lemma {:induction false} RunsAgreeFrom(b: Book, s: SimpleBook, es: seq<Event>)
    requires Inv(b) && NoReserve(b) && BooksCorrespond(b, s)
    requires forall i :: 0 <= i < |es| ==> Shared(es[i])
    ensures BooksCorrespond(Run(b, es), SimpleRun(s, b.symbol, es))
    decreases |es|
  {
    if es != [] {
      StepKeeps(b, es[0]);
      match es[0].request {
        case AddOrder(o) => SubmitsAgree(b, s, o, es[0].ts);
        case CancelOrder(id) => CancelsAgree(b, s, id, es[0].ts);
      }
      RunsAgreeFrom(Step(b, es[0]).book, SimpleStep(s, b.symbol, es[0]), es[1..]);
    }
  }

  /** Started empty and fed the same requests, the two books stay order for order the same. */
  lemma {:induction false} RunsAgree(symbol: Symbol, es: seq<Event>)
    requires forall i :: 0 <= i < |es| ==> Shared(es[i])
    ensures BooksCorrespond(Run(Empty(symbol), es), SimpleRun(SimpleBook([], []), symbol, es))
  {
    RunsAgreeFrom(Empty(symbol), SimpleBook([], []), es);
  }
}
