/**
 * The multi-symbol engine as a value: one flat book per symbol, the routing index for
 * cancels, the risk records, and the request counters; and what holds over whole runs of it.
 */
module EngineSpec {
  import opened Types
  import opened PriceTime
  import opened BookSpec
  import opened BookInvariant
  import opened BookTheorems
  import opened RiskSpec

  datatype Engine = Engine(
    books: map<Symbol, Book>,
    routes: map<OrderId, Symbol>,
    risk: Option<Risk>,
    orders: nat,
    cancels: nat,
    rejects: nat)

  datatype CancelRequest = CancelRequest(id: OrderId, symbol: Symbol)

  datatype EngineReply = EngineReply(engine: Engine, report: ExecReport)

  function RejectReport(o: Order, reason: RejectReason, ts: Timestamp): ExecReport {
    BLANK_REPORT.(orderId := o.id, trader := o.trader, symbol := o.symbol, status := Rejected, reason := reason,
                  transactTime := ts)
  }

  /** Why an order does not even reach its book. */
  function Refusal(e: Engine, o: Order): RejectReason {
    if o.symbol !in e.books then UnknownSymbol
    else if e.risk.Some? then Verdict(e.risk.value, o)
    else NoReason
  }

  /** Orders that may still rest are remembered for cancel routing. */
  predicate Tracked(r: ExecReport) {
    !r.status.Rejected? && !r.status.Filled?
  }

  /** The risk records after the pre-trade check. */
  function Checked(risk: Option<Risk>, o: Order): Option<Risk> {
    if risk.Some? then Some(AfterCheck(risk.value, o)) else None
  }

  /** The risk records after an execution. */
  function Booked(risk: Option<Risk>, o: Order, filled: Quantity): Option<Risk> {
    if risk.Some? && 0 < filled then Some(AfterFill(risk.value, o.trader, o.symbol, o.side, filled)) else risk
  }

  function NewOrder(e: Engine, o: Order, ts: Timestamp): EngineReply {
    var refusal := Refusal(e, o);
    if refusal != NoReason then
      EngineReply(e.(orders := e.orders + 1, rejects := e.rejects + 1,
                     risk := if refusal == UnknownSymbol then e.risk else Checked(e.risk, o)),
                  RejectReport(o, refusal, ts))
    else
      var r := Submit(e.books[o.symbol], o, ts);
      EngineReply(e.(orders := e.orders + 1,
                     books := e.books[o.symbol := r.book],
                     routes := if Tracked(r.report) then e.routes[o.id := o.symbol] else e.routes,
                     risk := Booked(Checked(e.risk, o), o, r.report.filledQty)),
                  r.report)
  }

  /** Where a cancel goes: to the symbol it names, or to the one remembered for its id. */
  function Route(e: Engine, c: CancelRequest): Option<Symbol> {
    if c.symbol != "" then Some(c.symbol)
    else if c.id in e.routes then Some(e.routes[c.id])
    else None
  }

  function CancelRouted(e: Engine, c: CancelRequest, ts: Timestamp): EngineReply {
    match Route(e, c)
    case None => EngineReply(e, BLANK_REPORT.(orderId := c.id, status := Rejected, transactTime := ts))
    case Some(symbol) =>
      if symbol !in e.books then
        EngineReply(e, BLANK_REPORT.(orderId := c.id, status := Rejected, reason := UnknownSymbol, transactTime := ts))
      else
        var r := Cancel(e.books[symbol], c.id, ts);
        var done := r.report.status.Canceled?;
        EngineReply(e.(books := e.books[symbol := r.book],
                       cancels := if done then e.cancels + 1 else e.cancels,
                       routes := if done then e.routes - {c.id} else e.routes),
                    r.report)
  }

  function ReplaceRouted(e: Engine, req: ReplaceRequest, ts: Timestamp): EngineReply {
    if req.symbol !in e.books then
      EngineReply(e, BLANK_REPORT.(orderId := req.id, status := Rejected, reason := UnknownSymbol, transactTime := ts))
    else
      var r := Replace(e.books[req.symbol], req, ts);
      EngineReply(e.(books := e.books[req.symbol := r.book]), r.report)
  }

  // ---------------------------------------------------------------- runs

  datatype Request =
    | Place(order: Order)
    | CancelOf(cancel: CancelRequest)
    | ReplaceOf(replace: ReplaceRequest)

  datatype Event = Event(request: Request, ts: Timestamp)

  function Handle(e: Engine, ev: Event): EngineReply {
    match ev.request
    case Place(o) => NewOrder(e, o, ev.ts)
    case CancelOf(c) => CancelRouted(e, c, ev.ts)
    case ReplaceOf(req) => ReplaceRouted(e, req, ev.ts)
  }

  function RunEngine(e: Engine, es: seq<Event>): Engine
    decreases |es|
  {
    if es == [] then e else RunEngine(Handle(e, es[0]).engine, es[1..])
  }

  ghost predicate BooksOk(e: Engine) {
    forall s :: s in e.books ==> Inv(e.books[s])
  }

  lemma {:induction false} HandleKeepsBooks(e: Engine, ev: Event)
    requires BooksOk(e)
    ensures BooksOk(Handle(e, ev).engine)
    ensures Handle(e, ev).engine.risk.Some? == e.risk.Some?
    ensures Handle(e, ev).engine.books.Keys == e.books.Keys
  {
    match ev.request
    case Place(o) =>
      if Refusal(e, o) == NoReason {
        SubmitKeepsInv(e.books[o.symbol], o, ev.ts);
      }
    case CancelOf(c) =>
      var symbol := Route(e, c);
      if symbol.Some? && symbol.value in e.books {
        CancelKeepsInv(e.books[symbol.value], c.id, ev.ts);
      }
    case ReplaceOf(req) =>
      if req.symbol in e.books {
        ReplaceKeepsInv(e.books[req.symbol], req, ev.ts);
      }
  }

  // ---------------------------------------------------------------- position limits

  ghost predicate RiskOk(e: Engine) {
    e.risk.Some? ==> PositionsOk(e.risk.value)
  }

  /** A book never fills more than was ordered, nor less than nothing. */
  lemma {:induction false} FilledIsBounded(b: Book, o: Order, ts: Timestamp)
    requires Inv(b) && 0 < o.qty
    ensures 0 <= Submit(b, o, ts).report.filledQty <= o.qty
  {
    if !HasId(b, o.id) {
      LeftOver(b, o, ts);
    }
  }

  lemma {:induction false} HandleKeepsRisk(e: Engine, ev: Event)
    requires BooksOk(e) && RiskOk(e)
    ensures RiskOk(Handle(e, ev).engine)
  {
    if ev.request.Place? && e.risk.Some? {
      var o := ev.request.order;
      CheckKeepsPositions(e.risk.value, o);
      if Refusal(e, o) == NoReason {
        FilledIsBounded(e.books[o.symbol], o, ev.ts);
        CheckedFillKeepsPositions(e.risk.value, o, Submit(e.books[o.symbol], o, ev.ts).report.filledQty);
      }
    }
  }

  /** Over any run of requests, every trader's recorded positions stay inside the symbol and
      net limits, and the net position is the sum of the symbol positions. */
  lemma {:induction false} PositionLimitsHold(e: Engine, es: seq<Event>)
    requires BooksOk(e) && RiskOk(e)
    ensures BooksOk(RunEngine(e, es)) && RiskOk(RunEngine(e, es))
    decreases |es|
  {
    if es != [] {
      HandleKeepsRisk(e, es[0]);
      HandleKeepsBooks(e, es[0]);
      PositionLimitsHold(Handle(e, es[0]).engine, es[1..]);
    }
  }

  // ---------------------------------------------------------------- rate limit

  /** Submit times of one trader's orders that passed the risk checks during a run. */
  function Admitted(e: Engine, t: TraderId, es: seq<Event>): seq<Timestamp>
    decreases |es|
  {
    if es == [] then []
    else AdmittedNow(e, t, es[0].request) + Admitted(Handle(e, es[0]).engine, t, es[1..])
  }

  function AdmittedNow(e: Engine, t: TraderId, q: Request): seq<Timestamp> {
    if q.Place? && q.order.trader == t && Refusal(e, q.order) == NoReason then [q.order.submitTime] else []
  }

  predicate ByTrader(q: Request, t: TraderId) {
    q.Place? && q.order.trader == t
  }

  ghost predicate TimesInOrder(t: TraderId, es: seq<Event>, from: Timestamp) {
    && (forall i :: 0 <= i < |es| && ByTrader(es[i].request, t) ==> from <= es[i].request.order.submitTime < U64)
    && (forall i, j :: 0 <= i < j < |es| && ByTrader(es[i].request, t) && ByTrader(es[j].request, t) ==>
          es[i].request.order.submitTime <= es[j].request.order.submitTime)
  }

  ghost predicate EngineLimiterOk(e: Engine, t: TraderId, passed: seq<Timestamp>, last: Timestamp, l: Limits) {
    e.risk.Some? && e.risk.value.LimitsOf(t) == l && LimiterOk(e.risk.value.StateOf(t).stamps, passed, last, l)
  }

  /** Executions, cancels and replaces leave the limiter alone. */
  lemma {:induction false} HandleLimiter(e: Engine, ev: Event, t: TraderId)
    requires e.risk.Some?
    ensures var r := Handle(e, ev).engine.risk;
            && r.Some? && r.value.LimitsOf(t) == e.risk.value.LimitsOf(t)
            && r.value.StateOf(t).stamps ==
               (if ev.request.Place? && ev.request.order.symbol in e.books
                then AfterCheck(e.risk.value, ev.request.order) else e.risk.value).StateOf(t).stamps
  {
  }

  lemma {:induction false} HandleKeepsLimiter(e: Engine, ev: Event, t: TraderId, passed: seq<Timestamp>,
                                              last: Timestamp, l: Limits) returns (last': Timestamp)
    requires EngineLimiterOk(e, t, passed, last, l)
    requires ByTrader(ev.request, t) ==> last <= ev.request.order.submitTime < U64
    ensures EngineLimiterOk(Handle(e, ev).engine, t, passed + AdmittedNow(e, t, ev.request), last', l)
    ensures last' == last || (ByTrader(ev.request, t) && last' <= ev.request.order.submitTime)
  {
    HandleLimiter(e, ev, t);
    last' := last;
    assert passed + [] == passed;
    if ev.request.Place? && ev.request.order.symbol in e.books {
      last' := CheckKeepsLimiter(e.risk.value, ev.request.order, t, passed, last);
    }
  }

  lemma {:induction false} LaterTimes(t: TraderId, es: seq<Event>, from: Timestamp, from': Timestamp)
    requires es != [] && TimesInOrder(t, es, from)
    requires from' == from || (ByTrader(es[0].request, t) && from' <= es[0].request.order.submitTime)
    ensures TimesInOrder(t, es[1..], from')
  {
    forall i | 0 <= i < |es[1..]|
      ensures es[1..][i] == es[i + 1]
    {
    }
  }

  lemma {:induction false} RunKeepsLimiter(e: Engine, es: seq<Event>, t: TraderId, passed: seq<Timestamp>,
                                           last: Timestamp, l: Limits) returns (last': Timestamp)
    requires EngineLimiterOk(e, t, passed, last, l) && TimesInOrder(t, es, last)
    ensures EngineLimiterOk(RunEngine(e, es), t, passed + Admitted(e, t, es), last', l)
    decreases |es|
  {
    hide EngineLimiterOk;
    hide Handle;
    if es == [] {
      assert passed + [] == passed;
      last' := last;
    } else {
      var last1 := HandleKeepsLimiter(e, es[0], t, passed, last, l);
      LaterTimes(t, es, last, last1);
      var one, e1 := AdmittedNow(e, t, es[0].request), Handle(e, es[0]).engine;
      last' := RunKeepsLimiter(e1, es[1..], t, passed + one, last1, l);
      assert (passed + one) + Admitted(e1, t, es[1..]) == passed + Admitted(e, t, es);
    }
  }

  lemma {:induction false} LimiterFromFresh(e: Engine, es: seq<Event>, t: TraderId) returns (last: Timestamp)
    requires e.risk.Some? && e.risk.value.StateOf(t).stamps == [] && TimesInOrder(t, es, 0)
    ensures EngineLimiterOk(RunEngine(e, es), t, Admitted(e, t, es), last, e.risk.value.LimitsOf(t))
  {
    last := RunKeepsLimiter(e, es, t, [], 0, e.risk.value.LimitsOf(t));
    assert [] + Admitted(e, t, es) == Admitted(e, t, es);
  }

  /** Over any engine run in which a trader's submit times are in order, no closed interval
      as long as the rate window holds more admitted orders of the trader than the limit. */
  lemma {:induction false} EngineRateLimitHolds(e: Engine, es: seq<Event>, t: TraderId, from: int)
    requires e.risk.Some? && e.risk.value.StateOf(t).stamps == [] && TimesInOrder(t, es, 0)
    ensures var l := e.risk.value.LimitsOf(t);
            InWindow(Admitted(e, t, es), from, l) <= l.maxRate
  {
    var last := LimiterFromFresh(e, es, t);
    var stamps := RunEngine(e, es).risk.value.StateOf(t).stamps;
    LimiterBoundsWindows(stamps, Admitted(e, t, es), last, e.risk.value.LimitsOf(t), from);
  }

  /** An engine just set up: a set of symbols with empty books. */
  function FreshEngine(symbols: set<Symbol>, risk: Option<Risk>): Engine {
    Engine(map s | s in symbols :: Empty(s), map[], risk, 0, 0, 0)
  }

  // ---------------------------------------------------------------- cancel routing

  ghost predicate RestsIn(e: Engine, symbol: Symbol, id: OrderId) {
    symbol in e.books && HasId(e.books[symbol], id)
  }

  /** Every resting order is routed to the book it rests in. */
  ghost predicate RoutingComplete(e: Engine) {
    forall symbol, id :: RestsIn(e, symbol, id) ==> id in e.routes && e.routes[id] == symbol
  }

  /** Will the report be neither a fill nor a rejection?  Answered from the book before the
      order arrives.  Market and immediate-or-cancel orders are among these, although
      nothing of them ever rests. */
  predicate Unfinished(b: Book, o: Order) {
    && !HasId(b, o.id)
    && o.qty != 0
    && (0 < o.qty ==>
          EligibleQty(b.On(o.side.Opposite()), o) < o.qty && !(o.kind.Limit? && o.tif.FOK?))
  }

  lemma {:induction false} TrackedIff(b: Book, o: Order, ts: Timestamp)
    requires Inv(b)
    ensures Tracked(Submit(b, o, ts).report) <==> Unfinished(b, o)
  {
    if !HasId(b, o.id) {
      LeftOver(b, o, ts);
    }
  }

  lemma {:induction false} RestingIsUnfinished(b: Book, o: Order, ts: Timestamp)
    requires Inv(b) && !HasId(b, o.id) && Rests(o, Match(b, o, ts).left)
    ensures Unfinished(b, o)
  {
    LeftOver(b, o, ts);
  }

  /** A submission adds no id but its own, and its own only when it is unfinished. */
  lemma {:induction false} SubmitIds(b: Book, o: Order, ts: Timestamp, id: OrderId)
    requires Inv(b)
    ensures HasId(Submit(b, o, ts).book, id) ==> HasId(b, id) || (id == o.id && Unfinished(b, o))
  {
    if !HasId(b, o.id) {
      var w := Match(b, o, ts);
      MatchIds(b, o, ts, id);
      SubmitAnatomy(b, o, ts);
      if Rests(o, w.left) {
        RestingIsUnfinished(b, o, ts);
        InsertIds(o.side, b.On(o.side), NewResting(b.On(o.side), o, w.left, ts), id);
      }
    }
  }

  lemma {:induction false} MatchIds(b: Book, o: Order, ts: Timestamp, id: OrderId)
    requires Inv(b)
    ensures Has(Match(b, o, ts).rest, id) ==> Has(b.On(o.side.Opposite()), id)
  {
    var rest, flat := Match(b, o, ts).rest, b.On(o.side.Opposite());
    var n := MatchTrims(b, o, ts);
    TrimmedWithin(flat, rest, n);
    if Has(rest, id) {
      WithinHas(rest, flat, id);
    }
  }

  lemma {:induction false} InsertIds(side: Side, flat: seq<L3Order>, x: L3Order, id: OrderId)
    ensures Has(Insert(side, flat, x), id) ==> Has(flat, id) || id == x.id
  {
    var r := Insert(side, flat, x);
    if Has(r, id) {
      InsertAt(side, flat, x, Position(r, id));
      HasMeansIn(flat, id);
    }
  }

  lemma {:induction false} CancelIds(b: Book, id: OrderId, ts: Timestamp, other: OrderId)
    requires Inv(b) && HasId(Cancel(b, id, ts).book, other)
    ensures HasId(b, other) && other != id
  {
    CancelKeepsInv(b, id, ts);
    if HasId(b, id) {
      CancelAnatomy(b, id, ts);
      var flat := b.On(if Has(b.bids, id) then Buy else Sell);
      RenumberDropWithin(flat, Position(flat, id), flat[Position(flat, id)].price);
      if Has(Removal(flat, id), other) {
        WithinHas(Removal(flat, id), flat, other);
      }
    }
  }

  lemma {:induction false} ReplaceIds(b: Book, req: ReplaceRequest, ts: Timestamp, id: OrderId)
    requires Inv(b) && HasId(Replace(b, req, ts).book, id)
    ensures HasId(b, id)
  {
    var c := Cancel(b, req.id, ts);
    if c.report.status.Canceled? {
      CancelKeepsInv(b, req.id, ts);
      SubmitIds(c.book, Replacement(req, c.report.side, ts), ts, id);
      if HasId(c.book, id) {
        CancelIds(b, req.id, ts, id);
      }
    }
  }

  /** The order reaches its book, and its report will be remembered for routing. */
  predicate TakesRoute(e: Engine, o: Order) {
    Refusal(e, o) == NoReason && Unfinished(e.books[o.symbol], o)
  }

  /** A new order keeps routing complete exactly when it does not take the route away from
      an order of the same id that rests in the book of another symbol; whether it does can
      be read off the engine before the call. */
  lemma {:induction false} NewOrderKeepsRoutingIff(e: Engine, o: Order, ts: Timestamp)
    requires BooksOk(e) && RoutingComplete(e)
    ensures RoutingComplete(NewOrder(e, o, ts).engine)
       <==> !(TakesRoute(e, o) && exists s :: s != o.symbol && RestsIn(e, s, o.id))
  {
    var e' := NewOrder(e, o, ts).engine;
    if Refusal(e, o) == NoReason {
      TrackedIff(e.books[o.symbol], o, ts);
      if TakesRoute(e, o) && exists s :: s != o.symbol && RestsIn(e, s, o.id) {
        var s :| s != o.symbol && RestsIn(e, s, o.id);
        assert RestsIn(e', s, o.id) && e'.routes[o.id] != s;
      } else {
        forall s, id | RestsIn(e', s, id)
          ensures id in e'.routes && e'.routes[id] == s
        {
          SubmitIds(e.books[o.symbol], o, ts, id);
          assert RestsIn(e, s, id) || (s == o.symbol && id == o.id);
        }
      }
    } else {
      assert forall s, id :: RestsIn(e', s, id) <==> RestsIn(e, s, id);
    }
  }

  /** So an order that never rests can cut off one that does: a bid rests in "A", then a
      market order under the same id finds nothing to trade with in "B".  The cancel that
      leaves the symbol open is sent to "B" and rejected; the bid is still in "A". */
  lemma {:induction false} MarketOrderTakesRoute()
    ensures var bid := Order(1, 0, "A", Buy, Limit, Day, 100, 5, 0);
            var taker := Order(1, 0, "B", Buy, Market, Day, 0, 5, 0);
            var e := RunEngine(FreshEngine({"A", "B"}, None), [Event(Place(bid), 0), Event(Place(taker), 0)]);
            && RestsIn(e, "A", 1) && !RestsIn(e, "B", 1)
            && CancelRouted(e, CancelRequest(1, ""), 0).report.status.Rejected?
            && RestsIn(CancelRouted(e, CancelRequest(1, ""), 0).engine, "A", 1)
  {
    var bid := Order(1, 0, "A", Buy, Limit, Day, 100, 5, 0);
    var taker := Order(1, 0, "B", Buy, Market, Day, 0, 5, 0);
    var e0 := FreshEngine({"A", "B"}, None);
    var e1 := NewOrder(e0, bid, 0).engine;
    RestsInEmpty("A", bid);
    assert e1 == e0.(orders := 1, books := e0.books["A" := Submit(Empty("A"), bid, 0).book], routes := map[1 := "A"]);
    var e2 := NewOrder(e1, taker, 0).engine;
    MarketOrderMeetsNothing("B", taker);
    assert e2.books == e1.books && e2.routes == map[1 := "B"];
    var es := [Event(Place(bid), 0), Event(Place(taker), 0)];
    assert es[1..] == [es[1]] && es[1..][1..] == [];
    assert RunEngine(e0, es) == RunEngine(e1, [es[1]]) == e2;
  }

  /** In an empty book a limit order comes to rest. */
  lemma {:induction false} RestsInEmpty(symbol: Symbol, o: Order)
    requires 0 < o.qty && o.kind.Limit? && o.tif.Day?
    ensures HasId(Submit(Empty(symbol), o, 0).book, o.id) && Submit(Empty(symbol), o, 0).report.status.New?
  {
    assert Match(Empty(symbol), o, 0) == Outcome([], [], o.qty);
    var x := NewResting([], o, o.qty, 0);
    assert Insert(o.side, [], x) == [x];
    assert Submit(Empty(symbol), o, 0).book == Empty(symbol).With(o.side, [x]);
  }

  lemma {:induction false} CancelKeepsRouting(e: Engine, c: CancelRequest, ts: Timestamp)
    requires BooksOk(e) && RoutingComplete(e)
    ensures RoutingComplete(CancelRouted(e, c, ts).engine)
  {
    var e' := CancelRouted(e, c, ts).engine;
    forall s, id | RestsIn(e', s, id)
      ensures id in e'.routes && e'.routes[id] == s
    {
      if e'.books != e.books {
        var symbol := Route(e, c).value;
        assert RestsIn(e, symbol, c.id);
        if s == symbol {
          CancelIds(e.books[symbol], c.id, ts, id);
        }
      }
      assert RestsIn(e, s, id);
    }
  }

  lemma {:induction false} ReplaceKeepsRouting(e: Engine, req: ReplaceRequest, ts: Timestamp)
    requires BooksOk(e) && RoutingComplete(e)
    ensures RoutingComplete(ReplaceRouted(e, req, ts).engine)
  {
    var e' := ReplaceRouted(e, req, ts).engine;
    forall s, id | RestsIn(e', s, id)
      ensures RestsIn(e, s, id)
    {
      if s == req.symbol {
        ReplaceIds(e.books[s], req, ts, id);
      }
    }
  }

  /** `home` says which symbol each id is sent to. */
  ghost predicate SentHome(home: OrderId -> Symbol, es: seq<Event>) {
    forall i :: 0 <= i < |es| && es[i].request.Place? ==> es[i].request.order.symbol == home(es[i].request.order.id)
  }

  ghost predicate AtHome(home: OrderId -> Symbol, e: Engine) {
    forall s, id :: RestsIn(e, s, id) ==> s == home(id)
  }

  lemma {:induction false} HandleKeepsHome(home: OrderId -> Symbol, e: Engine, ev: Event)
    requires BooksOk(e) && RoutingComplete(e) && AtHome(home, e)
    requires ev.request.Place? ==> ev.request.order.symbol == home(ev.request.order.id)
    ensures RoutingComplete(Handle(e, ev).engine) && AtHome(home, Handle(e, ev).engine)
  {
    match ev.request
    case Place(o) =>
      NewOrderKeepsRoutingIff(e, o, ev.ts);
      NewOrderKeepsHome(home, e, o, ev.ts);
    case CancelOf(c) =>
      CancelKeepsRouting(e, c, ev.ts);
      forall s, id | RestsIn(Handle(e, ev).engine, s, id)
        ensures s == home(id)
      {
        if Handle(e, ev).engine.books != e.books && s == Route(e, c).value {
          CancelIds(e.books[s], c.id, ev.ts, id);
        }
        assert RestsIn(e, s, id);
      }
    case ReplaceOf(req) =>
      ReplaceKeepsRouting(e, req, ev.ts);
      forall s, id | RestsIn(Handle(e, ev).engine, s, id)
        ensures s == home(id)
      {
        if s == req.symbol {
          ReplaceIds(e.books[s], req, ev.ts, id);
        }
        assert RestsIn(e, s, id);
      }
  }

  lemma {:induction false} NewOrderKeepsHome(home: OrderId -> Symbol, e: Engine, o: Order, ts: Timestamp)
    requires BooksOk(e) && AtHome(home, e) && o.symbol == home(o.id)
    ensures AtHome(home, NewOrder(e, o, ts).engine)
  {
    forall s, id | RestsIn(NewOrder(e, o, ts).engine, s, id)
      ensures s == home(id)
    {
      if Refusal(e, o) == NoReason && s == o.symbol {
        SubmitIds(e.books[s], o, ts, id);
      }
      assert RestsIn(e, s, id) || (s == o.symbol && id == o.id);
    }
  }

  /** In runs that send each id to one symbol only, routing stays complete, whatever is
      filled, cancelled or replaced on the way. */
  lemma {:induction false} RunKeepsRouting(home: OrderId -> Symbol, e: Engine, es: seq<Event>)
    requires BooksOk(e) && RoutingComplete(e) && AtHome(home, e) && SentHome(home, es)
    ensures BooksOk(RunEngine(e, es)) && RoutingComplete(RunEngine(e, es))
    decreases |es|
  {
    if es != [] {
      HandleKeepsHome(home, e, es[0]);
      HandleKeepsBooks(e, es[0]);
      RunKeepsRouting(home, Handle(e, es[0]).engine, es[1..]);
    }
  }

  /** So a cancel that leaves the symbol open finds every resting order. */
  lemma {:induction false} OpenCancelsFindResting(home: OrderId -> Symbol, symbols: set<Symbol>, risk: Option<Risk>,
                                                  es: seq<Event>, symbol: Symbol, id: OrderId, ts: Timestamp)
    requires SentHome(home, es)
    requires RestsIn(RunEngine(FreshEngine(symbols, risk), es), symbol, id)
    ensures var reply := CancelRouted(RunEngine(FreshEngine(symbols, risk), es), CancelRequest(id, ""), ts);
            reply.report.status.Canceled? && !RestsIn(reply.engine, symbol, id)
  {
    var e := FreshEngine(symbols, risk);
    forall s | s in e.books
      ensures Inv(e.books[s]) && forall i :: !HasId(e.books[s], i)
    {
    }
    RunKeepsRouting(home, e, es);
    CancelKeepsInv(RunEngine(e, es).books[symbol], id, ts);
  }
}
