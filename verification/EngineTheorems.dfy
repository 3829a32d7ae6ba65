/**
 * What one engine request does, spelled out from outside, and what whole runs record: every
 * fill an aggressor is told about, and nothing else, is on its trader's position.
 */
module EngineTheorems {
  import opened Types
  import opened BookSpec
  import opened BookInvariant
  import opened BookTheorems
  import opened RiskSpec
  import opened EngineSpec

  // ---------------------------------------------------------------- new orders

  /** A new order either stops before its book, with the reason of the first check that
      fails, or is submitted to the book of its symbol; no other book notices. */
  lemma {:induction false} NewOrderActs(e: Engine, o: Order, ts: Timestamp)
    ensures var r := NewOrder(e, o, ts);
            var stopped := o.symbol !in e.books || (e.risk.Some? && Verdict(e.risk.value, o) != NoReason);
            && r.engine.orders == e.orders + 1 && r.engine.cancels == e.cancels
            && r.engine.rejects == e.rejects + (if stopped then 1 else 0)
            && r.report.orderId == o.id && r.report.trader == o.trader && r.report.symbol == o.symbol
            && (stopped ==>
                  && r.report.status.Rejected? && r.report.filledQty == 0
                  && r.report.reason
                     == (if o.symbol !in e.books then UnknownSymbol else Verdict(e.risk.value, o))
                  && r.engine.books == e.books && r.engine.routes == e.routes)
            && (!stopped ==>
                  && r.report == Submit(e.books[o.symbol], o, ts).report
                  && r.engine.books == e.books[o.symbol := Submit(e.books[o.symbol], o, ts).book])
  {
  }

  /** A trader's switch, or the global one, stops its orders through any run: nothing of them
      is admitted, and the switch stays where it is. */
  lemma {:induction false} StoppedTraderStaysOut(e: Engine, es: seq<Event>, t: TraderId)
    requires e.risk.Some? && Stopped(e.risk.value, t)
    ensures RunEngine(e, es).risk.Some? && Stopped(RunEngine(e, es).risk.value, t)
    ensures Admitted(e, t, es) == []
    decreases |es|
  {
    if es != [] {
      SwitchesStayInEngine(e, es[0], t);
      if es[0].request.Place? {
        ReasonsIff(e.risk.value, es[0].request.order);
      }
      StoppedTraderStaysOut(Handle(e, es[0]).engine, es[1..], t);
    }
  }

  lemma {:induction false} SwitchesStayInEngine(e: Engine, ev: Event, t: TraderId)
    requires e.risk.Some?
    ensures var r := Handle(e, ev).engine.risk; r.Some? && (Stopped(r.value, t) <==> Stopped(e.risk.value, t))
  {
    if ev.request.Place? {
      var o := ev.request.order;
      var filled := NewOrder(e, o, ev.ts).report.filledQty;
      SwitchesStay(e.risk.value, o, filled, t);
      SwitchesStay(AfterCheck(e.risk.value, o), o, filled, t);
    }
  }

  // ---------------------------------------------------------------- recorded positions

  /** What a report adds to the position of the trader who sent the order. */
  function Effect(o: Order, report: ExecReport): Quantity {
    if o.side.Buy? then report.filledQty else -report.filledQty
  }

  /** Signed sum of the reported fills of a trader's orders, in one symbol or in any. */
  function ReportedIn(e: Engine, t: TraderId, symbol: Symbol, es: seq<Event>): Quantity
    decreases |es|
  {
    if es == [] then 0
    else
      var r, q := Handle(e, es[0]), es[0].request;
      (if ByTrader(q, t) && q.order.symbol == symbol then Effect(q.order, r.report) else 0)
      + ReportedIn(r.engine, t, symbol, es[1..])
  }

  function Reported(e: Engine, t: TraderId, es: seq<Event>): Quantity
    decreases |es|
  {
    if es == [] then 0
    else
      var r, q := Handle(e, es[0]), es[0].request;
      (if ByTrader(q, t) then Effect(q.order, r.report) else 0) + Reported(r.engine, t, es[1..])
  }

  /** One request records what its report says was filled, and nothing else. */
  lemma {:induction false} HandleRecords(e: Engine, ev: Event, t: TraderId, symbol: Symbol)
    requires BooksOk(e) && e.risk.Some?
    ensures var r, q := Handle(e, ev), ev.request;
            && r.engine.risk.Some?
            && Recorded(r.engine.risk.value, t, symbol)
               == Recorded(e.risk.value, t, symbol)
                  + (if ByTrader(q, t) && q.order.symbol == symbol then Effect(q.order, r.report) else 0)
            && RecordedNet(r.engine.risk.value, t)
               == RecordedNet(e.risk.value, t) + (if ByTrader(q, t) then Effect(q.order, r.report) else 0)
  {
    if ev.request.Place? {
      var o := ev.request.order;
      var filled := NewOrder(e, o, ev.ts).report.filledQty;
      FillIsRecorded(e.risk.value, o, filled, t, symbol);
      FillIsRecorded(AfterCheck(e.risk.value, o), o, filled, t, symbol);
      if Refusal(e, o) == NoReason {
        FilledIsBounded(e.books[o.symbol], o, ev.ts);
      }
      hide AfterCheck;
      hide AfterFill;
      hide Recorded;
      hide RecordedNet;
    }
  }

  /** Over any run, recorded positions move by exactly the reported fills. */
  lemma {:induction false} FillsAreRecorded(e: Engine, es: seq<Event>, t: TraderId, symbol: Symbol)
    requires BooksOk(e) && e.risk.Some?
    ensures var r := RunEngine(e, es).risk;
            && r.Some?
            && Recorded(r.value, t, symbol) == Recorded(e.risk.value, t, symbol) + ReportedIn(e, t, symbol, es)
            && RecordedNet(r.value, t) == RecordedNet(e.risk.value, t) + Reported(e, t, es)
    decreases |es|
  {
    if es != [] {
      HandleRecords(e, es[0], t, symbol);
      HandleKeepsBooks(e, es[0]);
      FillsAreRecorded(Handle(e, es[0]).engine, es[1..], t, symbol);
    }
  }

  /** So from a fresh engine the recorded position is the signed sum of the reported fills,
      stays inside the limit, and sums up over the symbols to the net, which is the signed
      sum of the reported fills in all symbols and stays inside its own limit. */
  lemma {:induction false} PositionsAreReportedFills(symbols: set<Symbol>, r: Risk, es: seq<Event>, t: TraderId,
                                                     symbol: Symbol)
    requires LimitsSane(r) && r.states == map[]
    ensures RunEngine(FreshEngine(symbols, Some(r)), es).risk.Some?
    ensures var e := FreshEngine(symbols, Some(r));
            var r' := RunEngine(e, es).risk.value;
            var l := if t in r.limits then r.limits[t] else r.defaults;
            && Recorded(r', t, symbol) == ReportedIn(e, t, symbol, es)
            && RecordedNet(r', t) == Reported(e, t, es)
            && (t in r'.states ==> Total(r'.states[t].positions) == Reported(e, t, es))
            && -l.maxPerSymbol <= ReportedIn(e, t, symbol, es) <= l.maxPerSymbol
            && -l.maxNet <= Reported(e, t, es) <= l.maxNet
  {
    var e := FreshEngine(symbols, Some(r));
    FillsAreRecorded(e, es, t, symbol);
    PositionLimitsHold(e, es);
    RunKeepsLimits(e, es, t);
    var r' := RunEngine(e, es).risk.value;
    assert 0 <= r.LimitsOf(t).maxPerSymbol && 0 <= r.LimitsOf(t).maxNet;
    if t in r'.states {
      assert TraderOk(r'.states[t], r'.LimitsOf(t));
    }
  }

  lemma {:induction false} RunKeepsLimits(e: Engine, es: seq<Event>, t: TraderId)
    requires e.risk.Some?
    ensures RunEngine(e, es).risk.Some? && RunEngine(e, es).risk.value.LimitsOf(t) == e.risk.value.LimitsOf(t)
    decreases |es|
  {
    if es != [] {
      HandleLimiter(e, es[0], t);
      RunKeepsLimits(Handle(e, es[0]).engine, es[1..], t);
    }
  }

  // ---------------------------------------------------------------- cancels

  /** A cancel that goes to `symbol`, because it names it or because it names none and that
      symbol is remembered for its id: it acts on an order that rests there, and only there. */
  lemma {:induction false} CancelActsOn(e: Engine, c: CancelRequest, symbol: Symbol, ts: Timestamp)
    requires BooksOk(e)
    requires if c.symbol != "" then symbol == c.symbol else c.id in e.routes && symbol == e.routes[c.id]
    ensures var r := CancelRouted(e, c, ts);
            && r.report.orderId == c.id
            && (symbol !in e.books ==> r.engine == e && r.report.status.Rejected? && r.report.reason == UnknownSymbol)
            && (symbol in e.books && !RestsIn(e, symbol, c.id) ==>
                  r.engine == e && r.report.status.Rejected? && r.report.reason == NoReason)
            && (RestsIn(e, symbol, c.id) ==> r.report.status.Canceled? && Removed(e, r.engine, symbol, c.id))
  {
    if symbol in e.books {
      var b := e.books[symbol];
      if HasId(b, c.id) {
        CancelTells(b, c.id, ts);
        RemovedByCancel(e, CancelRouted(e, c, ts).engine, symbol, c.id, ts);
      } else {
        assert e.books[symbol := b] == e.books;
      }
    }
  }

  /** The order is gone from that book, and its route with it; all other orders, books and
      routes, the risk records and the other counters are as they were. */
  ghost predicate Removed(e: Engine, e': Engine, symbol: Symbol, id: OrderId) {
    && e'.books.Keys == e.books.Keys && !RestsIn(e', symbol, id)
    && (forall other :: other != id ==> (RestsIn(e', symbol, other) <==> RestsIn(e, symbol, other)))
    && (forall s :: s in e.books && s != symbol ==> e'.books[s] == e.books[s])
    && e'.routes == e.routes - {id}
    && e'.risk == e.risk && e'.cancels == e.cancels + 1 && e'.orders == e.orders && e'.rejects == e.rejects
  }

  lemma {:induction false} RemovedByCancel(e: Engine, e': Engine, symbol: Symbol, id: OrderId, ts: Timestamp)
    requires BooksOk(e) && RestsIn(e, symbol, id)
    requires e' == e.(books := e.books[symbol := Cancel(e.books[symbol], id, ts).book],
                      cancels := e.cancels + 1, routes := e.routes - {id})
    ensures Removed(e, e', symbol, id)
  {
    hide Cancel;
    var b := e.books[symbol];
    CancelKeepsInv(b, id, ts);
    forall other | other != id
      ensures RestsIn(e', symbol, other) <==> RestsIn(e, symbol, other)
    {
      if HasId(b, other) {
        CancelKeepsOthers(b, id, ts, other);
      } else if HasId(e'.books[symbol], other) {
        CancelIds(b, id, ts, other);
      }
    }
  }

  /** A cancel that names no symbol, for an id nobody remembers, is rejected. */
  lemma {:induction false} UnroutedCancel(e: Engine, id: OrderId, ts: Timestamp)
    requires id !in e.routes
    ensures var r := CancelRouted(e, CancelRequest(id, ""), ts);
            r.engine == e && r.report.status.Rejected? && r.report.orderId == id && r.report.reason == NoReason
  {
  }

  // ---------------------------------------------------------------- replaces

  /** A replace acts on an order that rests in the book it names: there the order is taken out
      and the new terms are submitted, on the same side, as a day limit order.  Routes, risk
      records, counters and all other books stay; in every other case everything does. */
  lemma {:induction false} ReplaceActs(e: Engine, req: ReplaceRequest, ts: Timestamp)
    requires BooksOk(e)
    ensures var r := ReplaceRouted(e, req, ts);
            && (req.symbol !in e.books ==>
                  r.engine == e && r.report.status.Rejected? && r.report.reason == UnknownSymbol
                  && r.report.orderId == req.id)
            && (req.symbol in e.books && !RestsIn(e, req.symbol, req.id) ==>
                  r.engine == e && r.report.status.Rejected? && r.report.orderId == req.id)
            && (RestsIn(e, req.symbol, req.id) ==>
                  var b := e.books[req.symbol];
                  var side := if Has(b.bids, req.id) then Buy else Sell;
                  var o := Order(req.id, req.trader, req.symbol, side, Limit, Day, req.newPrice, req.newQty, ts);
                  var s := Submit(Cancel(b, req.id, ts).book, o, ts);
                  && r.engine == e.(books := e.books[req.symbol := s.book])
                  && r.report == s.report && !r.report.status.Rejected?)
  {
    if req.symbol in e.books {
      var b := e.books[req.symbol];
      if HasId(b, req.id) {
        ReplaceIsDeleteThenSubmit(b, req, ts);
      } else {
        RejectionsChangeNothing(b, Replacement(req, Buy, ts), req, ts);
        assert e.books[req.symbol := b] == e.books;
      }
    }
  }
}
