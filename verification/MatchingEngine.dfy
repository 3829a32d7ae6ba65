/** The multi-symbol engine object (src/market/matching_engine.cpp): it owns the books and
    drives them together with the risk engine and the routing index. */
module Matcher {
  import opened Types
  import opened BookSpec
  import opened RiskSpec
  import opened RiskControl
  import opened L3Book
  import opened EngineSpec

  lemma {:induction false} OnlyOneChanged(m: map<Symbol, Book>, m': map<Symbol, Book>, k: Symbol, v: Book)
    requires m.Keys == m'.Keys && k in m && m'[k] == v
    requires forall s :: s in m && s != k ==> m'[s] == m[s]
    ensures m' == m[k := v]
  {
  }

  lemma {:induction false} CanceledNamesItsOrder(b: Book, id: OrderId, ts: Timestamp)
    ensures Cancel(b, id, ts).report.status.Canceled? ==> Cancel(b, id, ts).report.orderId == id
  {
  }

  class MatchingEngine {
    var books: map<Symbol, L3OrderBook>
    var routes: map<OrderId, Symbol>
    var risk: RiskEngine?
    var ordersProcessed: nat
    var cancelsProcessed: nat
    var rejects: nat

    /** The symbols whose books are consistent. */
    ghost function Healthy(): set<Symbol>
      reads this`books, books.Values
    {
      set s | s in books && books[s].Valid()
    }

    /** Every book is consistent, and each symbol has its own. */
    ghost predicate Valid()
      reads this`books, books.Values
    {
      && Healthy() == books.Keys
      && (forall s, t :: s in books && t in books && s != t ==> books[s] != books[t])
    }

    ghost function RiskView(): Option<Risk>
      reads this`risk, if risk == null then {} else {risk}
    {
      if risk == null then None else Some(risk.View())
    }

    ghost function View(): Engine
      reads this, books.Values, if risk == null then {} else {risk}
    {
      Engine(BookViews(), routes, RiskView(), ordersProcessed, cancelsProcessed, rejects)
    }

    ghost function BookViews(): map<Symbol, Book>
      reads this`books, books.Values
    {
      map s | s in books :: books[s].View()
    }

    constructor ()
      ensures Valid() && View() == FreshEngine({}, None)
    {
      books, routes, risk := map[], map[], null;
      ordersProcessed, cancelsProcessed, rejects := 0, 0, 0;
    }

    /** Opens a book for a symbol; a known symbol keeps the book it has. */
    method AddSymbol(symbol: Symbol)
      requires Valid()
      modifies this`books
      ensures Valid()
      ensures View() == if symbol in old(books) then old(View())
                        else old(View()).(books := old(View()).books[symbol := Empty(symbol)])
    {
      hide L3OrderBook.Valid;
      hide L3OrderBook.View;
      if symbol in books {
        return;
      }
      var book := new L3OrderBook(symbol);
      books := books[symbol := book];
    }

    /** Attaches a risk engine; from now on it checks every new order. */
    method SetRiskEngine(r: RiskEngine)
      requires Valid()
      modifies this`risk
      ensures Valid() && View() == old(View()).(risk := Some(r.View()))
    {
      hide L3OrderBook.Valid;
      hide L3OrderBook.View;
      risk := r;
    }

    /** Submits an order: symbol check, risk checks, book, routing, fill booking. */
    method ProcessNewOrder(o: Order, ts: Timestamp) returns (rpt: ExecReport)
      requires Valid()
      modifies this`ordersProcessed, this`rejects, this`routes, books.Values, risk
      ensures Valid()
      ensures EngineReply(View(), rpt) == NewOrder(old(View()), o, ts)
    {
      hide L3OrderBook.Valid;
      hide L3OrderBook.View;
      hide RiskEngine.View;
      hide Submit;
      hide Verdict;
      hide Checked;
      hide Booked;
      ghost var e := View();
      ordersProcessed := ordersProcessed + 1;
      var reason := Admit(o);
      if reason != NoReason {
        rpt := RejectReport(o, reason, ts);
        rejects := rejects + 1;
        return;
      }
      rpt := Execute(o, ts);
    }

    /** Hands an admitted order to its book, and follows up on the report. */
    method Execute(o: Order, ts: Timestamp) returns (rpt: ExecReport)
      requires Valid() && o.symbol in books
      modifies this`routes, books[o.symbol], risk
      ensures Valid()
      ensures var r := Submit(old(BookViews()[o.symbol]), o, ts);
              && rpt == r.report
              && BookViews() == old(BookViews())[o.symbol := r.book]
              && routes == (if Tracked(rpt) then old(routes)[o.id := o.symbol] else old(routes))
              && RiskView() == Booked(old(RiskView()), o, rpt.filledQty)
    {
      hide L3OrderBook.Valid;
      hide L3OrderBook.View;
      hide RiskEngine.View;
      hide Submit;
      hide Booked;
      ghost var views := BookViews();
      rpt := SubmitIn(o.symbol, o, ts);
      OnlyOneChanged(views, BookViews(), o.symbol, Submit(views[o.symbol], o, ts).book);
      Record(o, rpt);
    }

    /** Why the order may not reach its book: an unknown symbol, or the risk engine's verdict. */
    method Admit(o: Order) returns (reason: RejectReason)
      requires Valid()
      modifies risk
      ensures reason == Refusal(old(View()), o)
      ensures RiskView() == if reason == UnknownSymbol then old(RiskView()) else Checked(old(RiskView()), o)
      ensures Valid() && BookViews() == old(BookViews())
    {
      hide L3OrderBook.Valid;
      hide L3OrderBook.View;
      hide Verdict;
      hide AfterCheck;
      if o.symbol !in books {
        return UnknownSymbol;
      }
      reason := NoReason;
      if risk != null {
        PassedOrdersAreSane(risk.View(), o);
        reason := risk.CheckOrder(o);
      }
    }

    /** Remembers the route of an order that may rest, and books what was filled. */
    method Record(o: Order, rpt: ExecReport)
      requires Valid()
      modifies this`routes, risk
      ensures Valid() && BookViews() == old(BookViews())
      ensures routes == if Tracked(rpt) then old(routes)[o.id := o.symbol] else old(routes)
      ensures RiskView() == Booked(old(RiskView()), o, rpt.filledQty)
    {
      hide L3OrderBook.Valid;
      hide L3OrderBook.View;
      hide AfterFill;
      if rpt.status != Rejected && rpt.status != Filled {
        routes := routes[o.id := o.symbol];
      }
      if risk != null && rpt.filledQty > 0 {
        risk.OnFill(o.trader, o.symbol, o.side, rpt.filledQty);
      }
    }

    /** Hands an order to the book of its symbol; the other books do not notice. */
    method SubmitIn(symbol: Symbol, o: Order, ts: Timestamp) returns (rpt: ExecReport)
      requires Valid() && symbol in books
      modifies books[symbol]
      ensures Valid()
      ensures Reply(BookViews()[symbol], rpt) == Submit(old(BookViews()[symbol]), o, ts)
      ensures forall s :: s in books && s != symbol ==> BookViews()[s] == old(BookViews()[s])
    {
      hide L3OrderBook.Valid;
      hide L3OrderBook.View;
      assert symbol in Healthy();
      var book := books[symbol];
      rpt := book.AddOrder(o, ts);
    }

    method CancelIn(symbol: Symbol, id: OrderId, ts: Timestamp) returns (rpt: ExecReport)
      requires Valid() && symbol in books
      modifies books[symbol]
      ensures Valid()
      ensures Reply(BookViews()[symbol], rpt) == Cancel(old(BookViews()[symbol]), id, ts)
      ensures forall s :: s in books && s != symbol ==> BookViews()[s] == old(BookViews()[s])
    {
      hide L3OrderBook.Valid;
      hide L3OrderBook.View;
      assert symbol in Healthy();
      var book := books[symbol];
      rpt := book.CancelOrder(id, ts);
    }

    method ReplaceIn(symbol: Symbol, req: ReplaceRequest, ts: Timestamp) returns (rpt: ExecReport)
      requires Valid() && symbol in books
      modifies books[symbol]
      ensures Valid()
      ensures Reply(BookViews()[symbol], rpt) == Replace(old(BookViews()[symbol]), req, ts)
      ensures forall s :: s in books && s != symbol ==> BookViews()[s] == old(BookViews()[s])
    {
      hide L3OrderBook.Valid;
      hide L3OrderBook.View;
      assert symbol in Healthy();
      var book := books[symbol];
      rpt := book.ReplaceOrder(req, ts);
    }

    /** Cancels in the named book, or in the one the routing index remembers. */
    method ProcessCancel(c: CancelRequest, ts: Timestamp) returns (rpt: ExecReport)
      requires Valid()
      modifies this`routes, this`cancelsProcessed, books.Values
      ensures Valid()
      ensures EngineReply(View(), rpt) == CancelRouted(old(View()), c, ts)
    {
      hide L3OrderBook.Valid;
      hide L3OrderBook.View;
      hide RiskEngine.View;
      hide Cancel;
      var symbol := c.symbol;
      if symbol == "" {
        if c.id !in routes {
          rpt := BLANK_REPORT.(orderId := c.id, status := Rejected, transactTime := ts);
          return;
        }
        symbol := routes[c.id];
      }
      if symbol !in books {
        rpt := BLANK_REPORT.(orderId := c.id, status := Rejected, reason := UnknownSymbol, transactTime := ts);
        return;
      }
      ghost var e := View();
      rpt := CancelIn(symbol, c.id, ts);
      CanceledNamesItsOrder(e.books[symbol], c.id, ts);
      OnlyOneChanged(e.books, BookViews(), symbol, Cancel(e.books[symbol], c.id, ts).book);
      Forget(rpt);
    }

    /** Counts a successful cancel and drops its route. */
    method Forget(rpt: ExecReport)
      requires Valid()
      modifies this`routes, this`cancelsProcessed
      ensures Valid() && BookViews() == old(BookViews()) && RiskView() == old(RiskView())
      ensures cancelsProcessed == old(cancelsProcessed) + (if rpt.status == Canceled then 1 else 0)
      ensures routes == if rpt.status == Canceled then old(routes) - {rpt.orderId} else old(routes)
    {
      hide L3OrderBook.Valid;
      hide L3OrderBook.View;
      if rpt.status == Canceled {
        cancelsProcessed := cancelsProcessed + 1;
        routes := routes - {rpt.orderId};
      }
    }

    /** Cancel-replace in the named book; neither risk nor routing is consulted. */
    method ProcessReplace(req: ReplaceRequest, ts: Timestamp) returns (rpt: ExecReport)
      requires Valid()
      modifies books.Values
      ensures Valid()
      ensures EngineReply(View(), rpt) == ReplaceRouted(old(View()), req, ts)
    {
      hide L3OrderBook.Valid;
      hide L3OrderBook.View;
      if req.symbol !in books {
        rpt := BLANK_REPORT.(orderId := req.id, status := Rejected, reason := UnknownSymbol, transactTime := ts);
        return;
      }
      ghost var e := View();
      rpt := ReplaceIn(req.symbol, req, ts);
      OnlyOneChanged(e.books, BookViews(), req.symbol, Replace(e.books[req.symbol], req, ts).book);
    }
  }
}
