/** What one request does, stated so that a client could check it from outside the book. */
module BookTheorems {
  import opened Types
  import opened PriceTime
  import opened BookSpec
  import opened BookInvariant

  // ---------------------------------------------------------------- fill or kill

  /** Fill-or-kill is all or nothing: it fills completely when the eligible liquidity
      covers it and otherwise leaves the whole book as it was. */
  lemma {:induction false} FillOrKillIsExact(b: Book, o: Order, ts: Timestamp)
    requires Inv(b) && 0 < o.qty && o.tif.FOK? && !HasId(b, o.id)
    ensures var enough := o.qty <= EligibleQty(b.On(o.side.Opposite()), o);
            && (Submit(b, o, ts).report.status.Filled? <==> enough)
            && (enough ==> Submit(b, o, ts).report.filledQty == o.qty
                           && Volume(Match(b, o, ts).trades) == o.qty)
            && (!enough ==> Submit(b, o, ts).book == b && Submit(b, o, ts).report.filledQty == 0)
  {
    var flat := b.On(o.side.Opposite());
    if Fillable(b, o) {
      var a := Aggressor(o, b.symbol, ts);
      WalkExecutes(flat, a, o.qty, |b.tape| + 1);
      WalkConserves(flat, a, o.qty, |b.tape| + 1);
    }
  }

  /** The documentation promises that an unfillable fill-or-kill order is rejected.  The
      code rejects it exactly when it is a limit order: a market order is reported New. */
  lemma {:induction false} UnfillableFokIsRejectedIffLimit(b: Book, o: Order, ts: Timestamp)
    requires Inv(b) && 0 < o.qty && o.tif.FOK? && !HasId(b, o.id)
    requires EligibleQty(b.On(o.side.Opposite()), o) < o.qty
    ensures Submit(b, o, ts).report.status.Rejected? <==> o.kind.Limit?
    ensures Submit(b, o, ts).report.reason == if o.kind.Limit? then InsufficientLiquidity else NoReason
    ensures o.kind.Market? ==> Submit(b, o, ts).report.status.New? && Submit(b, o, ts).report.leavesQty == o.qty
  {
  }

  // ---------------------------------------------------------------- reports

  lemma {:induction false} LeftOver(b: Book, o: Order, ts: Timestamp)
    requires Inv(b)
    ensures var liquidity := EligibleQty(b.On(o.side.Opposite()), o);
            && 0 <= liquidity
            && Match(b, o, ts).left == if 0 < o.qty && Fillable(b, o) then o.qty - Min(o.qty, liquidity) else o.qty
    ensures 0 < o.qty ==> 0 <= Match(b, o, ts).left <= o.qty
  {
    var flat, a := b.On(o.side.Opposite()), Aggressor(o, b.symbol, ts);
    LiquidityPositive(flat[..Reach(flat, o)]);
    if 0 < o.qty && Fillable(b, o) {
      WalkExecutes(flat, a, o.qty, |b.tape| + 1);
      WalkConserves(flat, a, o.qty, |b.tape| + 1);
    }
  }

  /** The report of a fresh order against the tape: the filled quantity is what the new
      trades add up to, the status follows from it, and a partial fill names its last trade. */
  lemma {:induction false} ReportMatchesTape(b: Book, o: Order, ts: Timestamp)
    requires Inv(b) && 0 < o.qty && !HasId(b, o.id)
    ensures var r := Submit(b, o, ts);
            b.tape <= r.book.tape && r.report.filledQty == Volume(r.book.tape[|b.tape|..])
    ensures var r := Submit(b, o, ts).report;
            && (r.status.Filled? <==> r.filledQty == o.qty)
            && (r.status.PartiallyFilled? <==> 0 < r.filledQty < o.qty)
            && (r.status.Canceled? <==> r.filledQty == 0 && o.kind.Limit? && o.tif.IOC?)
            && (r.status.Rejected? <==> r.filledQty == 0 && o.kind.Limit? && o.tif.FOK?)
            && r.reason == (if r.status.Rejected? then InsufficientLiquidity else NoReason)
            && r.leavesQty == (if o.kind.Limit? && (o.tif.IOC? || o.tif.FOK?) then 0 else o.qty - r.filledQty)
            && (!r.status.PartiallyFilled? ==> r.lastQty == r.lastPrice == 0)
    ensures var r := Submit(b, o, ts);
            r.report.status.PartiallyFilled? ==>
              |b.tape| < |r.book.tape|
              && r.report.lastQty == r.book.tape[|r.book.tape| - 1].qty
              && r.report.lastPrice == r.book.tape[|r.book.tape| - 1].price
  {
    var w := Match(b, o, ts);
    LeftOver(b, o, ts);
    SubmitAnatomy(b, o, ts);
    MatchConserves(b, o, ts);
    assert Submit(b, o, ts).report == ReportOf(o, w, ts);
    hide Inv;
    hide Submit;
    hide Match;
    OutcomeReport(o, w, ts);
    assert (b.tape + w.trades)[|b.tape|..] == w.trades;
  }

  lemma {:induction false} OutcomeReport(o: Order, w: Outcome, ts: Timestamp)
    requires 0 <= w.left <= o.qty && 0 < o.qty && Volume(w.trades) == o.qty - w.left
    requires o.tif.FOK? && 0 < w.left ==> w.left == o.qty
    ensures var r := ReportOf(o, w, ts);
            && r.filledQty == Volume(w.trades)
            && (r.status.Filled? <==> r.filledQty == o.qty)
            && (r.status.PartiallyFilled? <==> 0 < r.filledQty < o.qty)
            && (r.status.Canceled? <==> r.filledQty == 0 && o.kind.Limit? && o.tif.IOC?)
            && (r.status.Rejected? <==> r.filledQty == 0 && o.kind.Limit? && o.tif.FOK?)
            && r.reason == (if r.status.Rejected? then InsufficientLiquidity else NoReason)
            && r.leavesQty == (if o.kind.Limit? && (o.tif.IOC? || o.tif.FOK?) then 0 else o.qty - r.filledQty)
            && (!r.status.PartiallyFilled? ==> r.lastQty == r.lastPrice == 0)
            && (r.status.PartiallyFilled? ==>
                  w.trades != []
                  && r.lastQty == w.trades[|w.trades| - 1].qty && r.lastPrice == w.trades[|w.trades| - 1].price)
  {
    if w.trades == [] {
      assert Volume(w.trades) == 0;
    }
  }

  /** Whatever becomes of it, a report repeats the order it is about. */
  lemma {:induction false} ReportRepeatsOrder(b: Book, o: Order, ts: Timestamp)
    ensures var r := Submit(b, o, ts).report;
            && r.orderId == o.id && r.trader == o.trader && r.symbol == o.symbol && r.side == o.side
            && r.kind == o.kind && r.price == o.price && r.orderQty == o.qty && r.transactTime == ts
  {
  }

  /** Every new entry of the tape names both parties the right way round: the k-th one the
      k-th order of the opposite side as the resting party, at that order's price, and the
      submitted order as the incoming one. */
  lemma {:induction false} TradesNameBothParties(b: Book, o: Order, ts: Timestamp)
    requires Inv(b)
    ensures var flat, tape := b.On(o.side.Opposite()), Submit(b, o, ts).book.tape;
            && |b.tape| <= |tape| <= |b.tape| + |flat| && tape[..|b.tape|] == b.tape
            && forall k :: 0 <= k < |tape| - |b.tape| ==>
                 var t, x := tape[|b.tape| + k], flat[k];
                 && t.restingId == x.id && t.restingTrader == x.trader && t.price == x.price
                 && t.incomingId == o.id && t.incomingTrader == o.trader && t.aggressor == o.side
                 && t.symbol == b.symbol && t.ts == ts && t.tradeId == |b.tape| + k + 1
                 && 0 < t.qty <= x.Available()
  {
    if !HasId(b, o.id) {
      SubmitAnatomy(b, o, ts);
      if 0 < o.qty && Fillable(b, o) {
        WalkNamesBothParties(b.On(o.side.Opposite()), Aggressor(o, b.symbol, ts), o.qty, |b.tape| + 1);
      }
      assert (b.tape + Match(b, o, ts).trades)[..|b.tape|] == b.tape;
    }
  }

  lemma {:induction false} WalkNamesBothParties(flat: seq<L3Order>, a: Aggressor, qty: Quantity, tid: nat)
    requires AllLive(flat) && 0 <= qty
    ensures var trades := Walk(flat, a, qty, tid).trades;
            |trades| <= |flat|
            && forall k :: 0 <= k < |trades| ==>
                 var t, x := trades[k], flat[k];
                 && t.restingId == x.id && t.restingTrader == x.trader && t.price == x.price
                 && t.incomingId == a.order.id && t.incomingTrader == a.order.trader && t.aggressor == a.order.side
                 && t.symbol == a.symbol && t.ts == a.ts && t.tradeId == tid + k
                 && 0 < t.qty <= x.Available()
  {
    WalkClosedForm(flat, a, qty, tid);
    forall k | 0 <= k < |Walk(flat, a, qty, tid).trades|
      ensures Walk(flat, a, qty, tid).trades[k] == Expected(flat, a, qty, tid, k)
      ensures Live(flat[k]) && Liquidity(flat[..k]) < qty
    {
    }
  }

  /** A limit order never trades beyond its price, and an order that may trade and is not
      filled has left nothing that it could have taken: a market order nothing at all. */
  lemma {:induction false} TakesWhatItMay(b: Book, o: Order, ts: Timestamp)
    requires Inv(b) && !HasId(b, o.id)
    ensures var tape := Submit(b, o, ts).book.tape;
            forall i :: |b.tape| <= i < |tape| && o.kind.Limit? ==>
              if o.side.Buy? then tape[i].price <= o.price else o.price <= tape[i].price
    ensures var r := Submit(b, o, ts);
            !o.tif.FOK? && r.report.filledQty < o.qty ==>
              forall x :: x in r.book.On(o.side.Opposite()) ==>
                o.kind.Limit? && (if o.side.Buy? then o.price < x.price else x.price < o.price)
  {
    var w, flat, a := Match(b, o, ts), b.On(o.side.Opposite()), Aggressor(o, b.symbol, ts);
    SubmitAnatomy(b, o, ts);
    LeftOver(b, o, ts);
    if 0 < o.qty && Fillable(b, o) {
      WalkPrices(o.side.Opposite(), flat, a, o.qty, |b.tape| + 1);
      if 0 < w.left {
        RemainderIsPassive(b, o, ts);
      }
    }
  }

  /** Available quantity at the prices an order accepts, wherever they stand in the list. */
  function AcceptableQty(flat: seq<L3Order>, o: Order): Quantity {
    if flat == [] then 0
    else
      var p := flat[0].price;
      (if o.kind.Market? || (o.side.Buy? && p <= o.price) || (o.side.Sell? && o.price <= p)
       then flat[0].visible + flat[0].hidden else 0)
      + AcceptableQty(flat[1..], o)
  }

  /** On a sorted side the eligible front holds everything the order accepts. */
  lemma {:induction false} EligibleIsAcceptable(flat: seq<L3Order>, o: Order)
    requires SortedSide(o.side.Opposite(), flat)
    ensures EligibleQty(flat, o) == AcceptableQty(flat, o)
  {
    if flat != [] {
      EligibleIsAcceptable(flat[1..], o);
      if Eligible(o, flat[0].price) {
        assert flat[..Reach(flat, o)][1..] == flat[1..][..Reach(flat[1..], o)];
      } else {
        NothingAcceptable(flat, o);
      }
    }
  }

  lemma {:induction false} NothingAcceptable(flat: seq<L3Order>, o: Order)
    requires SortedSide(o.side.Opposite(), flat) && (flat == [] || !Eligible(o, flat[0].price))
    ensures AcceptableQty(flat, o) == 0
  {
    if 1 < |flat| {
      assert Rank(o.side.Opposite(), flat[0].price) <= Rank(o.side.Opposite(), flat[1].price);
    }
    if flat != [] {
      NothingAcceptable(flat[1..], o);
    }
  }

  /** What the incoming order gained, the resting side lost. */
  lemma {:induction false} MatchConserves(b: Book, o: Order, ts: Timestamp)
    requires Inv(b)
    ensures var w := Match(b, o, ts);
            && Volume(w.trades) == o.qty - w.left
            && Liquidity(w.rest) == Liquidity(b.On(o.side.Opposite())) - Volume(w.trades)
  {
    if 0 < o.qty && Fillable(b, o) {
      WalkConserves(b.On(o.side.Opposite()), Aggressor(o, b.symbol, ts), o.qty, |b.tape| + 1);
    }
  }

  /** A report that says quantity is still open is right exactly for limit orders and for
      orders that the eligible liquidity covers: the unfilled part of a market order is
      reported as open although nothing of it rests. */
  lemma {:induction false} OpenQuantityRestsIff(b: Book, o: Order, ts: Timestamp)
    requires Inv(b) && !HasId(b, o.id)
    ensures var r := Submit(b, o, ts);
            (0 < r.report.leavesQty <==> HasId(r.book, o.id))
            <==> (o.kind.Limit? || o.qty <= EligibleQty(b.On(o.side.Opposite()), o))
  {
    LeftOver(b, o, ts);
    var w := Match(b, o, ts);
    AfterMatchInv(b, o, ts);
    if Rests(o, w.left) {
      RestsAtTheBack(b, o, ts);
    }
  }

  /** Both promises fail for every market order that meets an empty book: fill-or-kill or
      not, it is reported New with its whole quantity open, and nothing of it rests. */
  lemma {:induction false} MarketOrderMeetsNothing(symbol: Symbol, o: Order)
    requires 0 < o.qty && o.kind.Market?
    ensures EligibleQty(Empty(symbol).On(o.side.Opposite()), o) == 0
    ensures var r := Submit(Empty(symbol), o, 0);
            r.report.status.New? && r.report.leavesQty == o.qty && r.book == Empty(symbol) && !HasId(r.book, o.id)
  {
    assert Match(Empty(symbol), o, 0) == Outcome([], [], o.qty);
  }

  /** Where the remainder goes: into its own side, behind every older order at its price,
      carrying exactly the reported open and filled quantities, and with an exact position. */
  lemma {:induction false} RestsAtTheBack(b: Book, o: Order, ts: Timestamp)
    requires Inv(b) && !HasId(b, o.id) && Rests(o, Match(b, o, ts).left)
    ensures var r := Submit(b, o, ts);
            var own := r.book.On(o.side);
            var k := Position(own, o.id);
            && k < |own|
            && own[..k] + own[k + 1..] == b.On(o.side)
            && own[k].trader == o.trader && own[k].side == o.side && own[k].price == o.price
            && own[k].entryTime == ts && own[k].hidden == 0 && !own[k].iceberg
            && own[k].visible == r.report.leavesQty && own[k].filled == r.report.filledQty
            && r.report.leavesQty + r.report.filledQty == o.qty
            && own[k].queuePos == CountAt(own[..k], o.price) == CountAt(b.On(o.side), o.price)
            && LastAtItsPrice(own, o.id, o.price)
  {
    var flat, left := b.On(o.side), Match(b, o, ts).left;
    LeftOver(b, o, ts);
    SubmitAnatomy(b, o, ts);
    BackOfLevel(o.side, flat, NewResting(flat, o, left, ts));
    assert Submit(b, o, ts).report == ReportOf(o, Match(b, o, ts), ts);
  }

  /** An inserted order is last at its price, and the count in front of it is its position. */
  lemma {:induction false} BackOfLevel(side: Side, flat: seq<L3Order>, x: L3Order)
    requires SortedSide(side, flat) && !Has(flat, x.id)
    ensures var own := Insert(side, flat, x);
            var k := Position(own, x.id);
            && k < |own| && own[k] == x
            && own[..k] + own[k + 1..] == flat
            && CountAt(own[..k], x.price) == CountAt(flat, x.price)
            && LastAtItsPrice(own, x.id, x.price)
  {
    InsertedPosition(side, flat, x);
    SlotCount(side, flat, x.price);
    var own, k := Insert(side, flat, x), Slot(side, flat, x.price);
    assert own[..k] == flat[..k];
    forall j | k < j < |own|
      ensures own[j].price != x.price
    {
      InsertAt(side, flat, x, j);
    }
  }

  /** A fresh order is found where it was inserted, and taking it out undoes the insertion. */
  lemma {:induction false} InsertedPosition(side: Side, flat: seq<L3Order>, x: L3Order)
    requires !Has(flat, x.id)
    ensures Position(Insert(side, flat, x), x.id) == Slot(side, flat, x.price)
    ensures |Insert(side, flat, x)| == |flat| + 1 && Insert(side, flat, x)[Slot(side, flat, x.price)] == x
    ensures Drop(Insert(side, flat, x), Slot(side, flat, x.price)) == flat
  {
    var k, r := Slot(side, flat, x.price), Insert(side, flat, x);
    forall i | 0 <= i < |r| && i != k
      ensures r[i].id != x.id
    {
      InsertAt(side, flat, x, i);
    }
    assert r[k] == x;
  }

  // ---------------------------------------------------------------- round trips

  lemma {:induction false} PassiveMatch(b: Book, o: Order, ts: Timestamp)
    requires Inv(b) && 0 < o.qty && o.tif in {Day, GTC}
    requires Reach(b.On(o.side.Opposite()), o) == 0
    ensures Match(b, o, ts) == Outcome([], b.On(o.side.Opposite()), o.qty)
  {
  }

  /** Adding a passive order and cancelling it changes nothing but the stored positions
      at its price, which the cancel renumbers; the cancel reports the whole order back. */
  lemma {:induction false} AddThenCancel(b: Book, o: Order, ts: Timestamp, ts': Timestamp)
    requires Inv(b) && 0 < o.qty && !HasId(b, o.id)
    requires o.kind.Limit? && o.tif in {Day, GTC}
    requires Reach(b.On(o.side.Opposite()), o) == 0
    ensures var c := Cancel(Submit(b, o, ts).book, o.id, ts');
            && c.book == b.With(o.side, Renumber(b.On(o.side), o.price))
            && c.report.status.Canceled? && c.report.orderQty == o.qty && c.report.filledQty == 0
    ensures PositionsExact(b.On(o.side), o.price) ==> Cancel(Submit(b, o, ts).book, o.id, ts').book == b
  {
    PassiveMatch(b, o, ts);
    var flat := b.On(o.side);
    var x := NewResting(flat, o, o.qty, ts);
    assert Submit(b, o, ts).book == b.With(o.side, Insert(o.side, flat, x));
    CancelInserted(b, o.side, x, ts');
    if PositionsExact(flat, o.price) {
      assert Renumber(flat, o.price) == flat;
    }
  }

  lemma {:induction false} CancelInserted(b: Book, side: Side, x: L3Order, ts: Timestamp)
    requires !HasId(b, x.id) && x.side == side
    ensures Cancel(b.With(side, Insert(side, b.On(side), x)), x.id, ts)
         == Reply(b.With(side, Renumber(b.On(side), x.price)), CancelReport(b, x, ts))
  {
    hide Insert;
    hide Renumber;
    hide CountAt;
    InsertedPosition(side, b.On(side), x);
  }

  /** A cancel report describes the order that rested, on the side it rested on. */
  lemma {:induction false} CancelTells(b: Book, id: OrderId, ts: Timestamp)
    requires Inv(b) && HasId(b, id)
    ensures var side := if Has(b.bids, id) then Buy else Sell;
            var x := b.On(side)[Position(b.On(side), id)];
            var r := Cancel(b, id, ts).report;
            && r.status.Canceled? && r.reason == NoReason && r.transactTime == ts && r.symbol == b.symbol
            && r.orderId == id == x.id && r.trader == x.trader && r.side == side && r.price == x.price
            && r.kind.Limit? && r.orderQty == x.visible + x.hidden + x.filled && r.filledQty == x.filled
            && r.lastQty == r.lastPrice == r.leavesQty == 0
  {
    var side := if Has(b.bids, id) then Buy else Sell;
    assert b.On(side)[Position(b.On(side), id)].side == side;
  }

  /** A cancel takes out the one order and leaves everything else where it was: the orders in
      front, the orders behind, the other side, the tape. */
  lemma {:induction false} CancelTakesOneOut(b: Book, id: OrderId, ts: Timestamp)
    requires HasId(b, id)
    ensures var side := if Has(b.bids, id) then Buy else Sell;
            var flat, k := b.On(side), Position(b.On(side), id);
            var r := Cancel(b, id, ts).book;
            && |r.On(side)| == |flat| - 1
            && (forall i :: 0 <= i < |flat| - 1 ==>
                  r.On(side)[i] == flat[if i < k then i else i + 1].(queuePos := r.On(side)[i].queuePos))
            && r.On(side.Opposite()) == b.On(side.Opposite()) && r.tape == b.tape && r.symbol == b.symbol
  {
    CancelAnatomy(b, id, ts);
    var flat := b.On(if Has(b.bids, id) then Buy else Sell);
    forall i | 0 <= i < |flat| - 1
      ensures Removal(flat, id)[i]
           == flat[if i < Position(flat, id) then i else i + 1].(queuePos := Removal(flat, id)[i].queuePos)
    {
      RemovalAt(flat, id, i);
    }
    assert |Removal(flat, id)| == |flat| - 1;
  }

  /** So every other order that rests goes on resting. */
  lemma {:induction false} CancelKeepsOthers(b: Book, id: OrderId, ts: Timestamp, other: OrderId)
    requires HasId(b, id) && HasId(b, other) && other != id
    ensures HasId(Cancel(b, id, ts).book, other)
  {
    hide Cancel;
    CancelTakesOneOut(b, id, ts);
    var side := if Has(b.bids, id) then Buy else Sell;
    if Has(b.On(side), other) {
      OthersRemain(b.On(side), Cancel(b, id, ts).book.On(side), Position(b.On(side), id), other);
    }
  }

  lemma {:induction false} OthersRemain(flat: seq<L3Order>, rest: seq<L3Order>, k: nat, other: OrderId)
    requires k < |flat| && |rest| == |flat| - 1 && Has(flat, other) && flat[k].id != other
    requires forall i :: 0 <= i < |rest| ==> rest[i].id == flat[if i < k then i else i + 1].id
    ensures Has(rest, other)
  {
    var p := Position(flat, other);
    assert rest[if p < k then p else p - 1].id == other;
    HasMeansIn(rest, other);
  }

  /** A cancel of an unknown id, a replace of one, and a second order under an id in use are
      rejected and change nothing. */
  lemma {:induction false} RejectionsChangeNothing(b: Book, o: Order, req: ReplaceRequest, ts: Timestamp)
    ensures !HasId(b, req.id) ==>
              Cancel(b, req.id, ts) == Replace(b, req, ts)
              && Cancel(b, req.id, ts).book == b
              && var r := Cancel(b, req.id, ts).report;
                 r.status.Rejected? && r.orderId == req.id && r.reason == NoReason && r.filledQty == r.leavesQty == 0
    ensures HasId(b, o.id) ==>
              Submit(b, o, ts).book == b
              && var r := Submit(b, o, ts).report;
                 r.status.Rejected? && r.orderId == o.id && r.reason == DuplicateOrderId
                 && r.filledQty == r.leavesQty == 0
  {
  }

  /** A submission for nothing, or for less, changes nothing, and is not refused either:
      it is reported as filled or as a new order. */
  lemma {:induction false} SubmitNothing(b: Book, o: Order, ts: Timestamp)
    requires o.qty <= 0 && !HasId(b, o.id)
    ensures var r := Submit(b, o, ts);
            && r.book == b
            && r.report.status == (if o.qty == 0 then Filled else New)
            && r.report.filledQty == 0 && r.report.leavesQty == o.qty
  {
    IdleMatch(b, o, ts);
    assert b.tape + [] == b.tape;
  }

  /** Replacing a resting order is deleting it and submitting the new terms: never a
      duplicate, and any remainder queues up behind the orders already at the new price.
      It stays on the side it was on, as a day limit order.  Nothing checks the new quantity:
      without a positive one the order is simply deleted. */
  lemma {:induction false} ReplaceIsDeleteThenSubmit(b: Book, req: ReplaceRequest, ts: Timestamp)
    requires Inv(b) && HasId(b, req.id)
    ensures var c := Cancel(b, req.id, ts);
            var side := if Has(b.bids, req.id) then Buy else Sell;
            && Inv(c.book) && !HasId(c.book, req.id)
            && Replace(b, req, ts)
               == Submit(c.book,
                         Order(req.id, req.trader, req.symbol, side, Limit, Day, req.newPrice, req.newQty, ts), ts)
    ensures Replace(b, req, ts).report.reason != DuplicateOrderId
    ensures !Replace(b, req, ts).report.status.Rejected?
    ensures req.newQty <= 0 ==>
              && Replace(b, req, ts).book == Cancel(b, req.id, ts).book
              && Replace(b, req, ts).report.status == (if req.newQty == 0 then Filled else New)
    ensures var side := if Has(b.bids, req.id) then Buy else Sell;
            var r := Replace(b, req, ts);
            && (HasId(r.book, req.id) <==> 0 < r.report.leavesQty)
            && !Has(r.book.On(side.Opposite()), req.id)
            && (HasId(r.book, req.id) ==> LastAtItsPrice(r.book.On(side), req.id, req.newPrice))
  {
    CancelKeepsInv(b, req.id, ts);
    CancelTells(b, req.id, ts);
    var c := Cancel(b, req.id, ts);
    var o := Replacement(req, c.report.side, ts);
    assert Replace(b, req, ts) == Submit(c.book, o, ts);
    DayOrderRests(c.book, o, ts);
    if req.newQty <= 0 {
      SubmitNothing(c.book, o, ts);
    }
  }

  /** A day limit order rests exactly with what its report says is open, on its own side,
      behind the orders at its price. */
  lemma {:induction false} DayOrderRests(b: Book, o: Order, ts: Timestamp)
    requires Inv(b) && !HasId(b, o.id) && o.kind.Limit? && o.tif.Day?
    ensures var r := Submit(b, o, ts);
            && (r.report.status.Filled? || r.report.status.PartiallyFilled? || r.report.status.New?)
            && r.report.reason == NoReason
            && (HasId(r.book, o.id) <==> 0 < r.report.leavesQty)
            && !Has(r.book.On(o.side.Opposite()), o.id)
            && (HasId(r.book, o.id) ==> LastAtItsPrice(r.book.On(o.side), o.id, o.price))
  {
    LeftOver(b, o, ts);
    AfterMatchInv(b, o, ts);
    SubmitAnatomy(b, o, ts);
    if Rests(o, Match(b, o, ts).left) {
      RestsAtTheBack(b, o, ts);
    }
  }

  ghost predicate LastAtItsPrice(flat: seq<L3Order>, id: OrderId, price: Price) {
    && Has(flat, id)
    && flat[Position(flat, id)].price == price
    && forall j :: Position(flat, id) < j < |flat| ==> flat[j].price != price
  }

  // ---------------------------------------------------------------- queue position

  /** No iceberg reserve anywhere; true of every book that requests can build. */
  ghost predicate NoHidden(flat: seq<L3Order>) {
    forall i :: 0 <= i < |flat| ==> flat[i].hidden == 0
  }

  /** Quantity available at strictly better prices. */
  function BetterQty(side: Side, flat: seq<L3Order>, price: Price): Quantity {
    if flat == [] then 0
    else (if Rank(side, flat[0].price) < Rank(side, price) then flat[0].Available() else 0)
         + BetterQty(side, flat[1..], price)
  }

  /** Displayed quantity at one price. */
  function VisibleAt(flat: seq<L3Order>, price: Price): Quantity {
    if flat == [] then 0
    else (if flat[0].price == price then flat[0].visible else 0) + VisibleAt(flat[1..], price)
  }

  /** Quantity held back at one price. */
  function HiddenAt(flat: seq<L3Order>, price: Price): Quantity {
    if flat == [] then 0
    else (if flat[0].price == price then flat[0].hidden else 0) + HiddenAt(flat[1..], price)
  }

  lemma {:induction false} NothingHidden(flat: seq<L3Order>, price: Price)
    requires NoHidden(flat)
    ensures HiddenAt(flat, price) == 0
  {
    if flat != [] {
      NothingHidden(flat[1..], price);
    }
  }

  /** What the book calls the quantity ahead of an order. */
  function QuantityAhead(flat: seq<L3Order>, id: OrderId): Quantity
    requires Has(flat, id)
  {
    VisibleAt(flat[..Position(flat, id)], flat[Position(flat, id)].price)
  }

  lemma {:induction false} AheadSplits(side: Side, flat: seq<L3Order>, price: Price)
    requires forall i :: 0 <= i < |flat| ==> Rank(side, flat[i].price) <= Rank(side, price)
    ensures Liquidity(flat) == BetterQty(side, flat, price) + VisibleAt(flat, price) + HiddenAt(flat, price)
  {
    if flat != [] {
      AheadSplits(side, flat[1..], price);
    }
  }

  lemma {:induction false} BetterQtyPrefix(side: Side, flat: seq<L3Order>, price: Price, k: nat)
    requires k <= |flat|
    requires forall i :: k <= i < |flat| ==> Rank(side, price) <= Rank(side, flat[i].price)
    ensures BetterQty(side, flat[..k], price) == BetterQty(side, flat, price)
  {
    if k == 0 {
      if flat != [] {
        assert flat[1..][..0] == flat[..0];
        BetterQtyPrefix(side, flat[1..], price, 0);
      }
    } else {
      assert flat[..k][1..] == flat[1..][..k - 1];
      BetterQtyPrefix(side, flat[1..], price, k - 1);
    }
  }

  ghost predicate TradesWith(trades: seq<Trade>, id: OrderId) {
    exists t :: 0 <= t < |trades| && trades[t].restingId == id
  }

  /** In any book, icebergs included, an incoming order that can trade at X's price trades
      with X exactly when it is larger than everything at better prices, plus the quantity
      reported ahead of X, plus what the orders ahead of X hold back. */
  lemma {:induction false} QuantityAheadAndHidden(b: Book, o: Order, ts: Timestamp, id: OrderId)
    requires Inv(b) && 0 < o.qty && !o.tif.FOK? && !HasId(b, o.id)
    requires Has(b.On(o.side.Opposite()), id)
    requires Eligible(o, b.On(o.side.Opposite())[Position(b.On(o.side.Opposite()), id)].price)
    ensures var side := o.side.Opposite();
            var flat, k := b.On(side), Position(b.On(side), id);
            TradesWith(Submit(b, o, ts).book.tape[|b.tape|..], id)
            <==> BetterQty(side, flat, flat[k].price) + QuantityAhead(flat, id)
                 + HiddenAt(flat[..k], flat[k].price) < o.qty
  {
    var side := o.side.Opposite();
    var flat := b.On(side);
    assert Submit(b, o, ts).book.tape[|b.tape|..] == Match(b, o, ts).trades;
    WalkTradesWithIff(side, flat, Aggressor(o, b.symbol, ts), o.qty, |b.tape| + 1, Position(flat, id));
    LiquidityAhead(side, flat, Position(flat, id));
  }

  /** So without icebergs queue position means what a trader takes it to mean: everything at
      better prices plus the quantity reported ahead of X. */
  lemma {:induction false} QuantityAheadDecidesFill(b: Book, o: Order, ts: Timestamp, id: OrderId)
    requires Inv(b) && 0 < o.qty && !o.tif.FOK? && !HasId(b, o.id)
    requires NoHidden(b.On(o.side.Opposite())) && Has(b.On(o.side.Opposite()), id)
    requires Eligible(o, b.On(o.side.Opposite())[Position(b.On(o.side.Opposite()), id)].price)
    ensures var side := o.side.Opposite();
            var flat := b.On(side);
            TradesWith(Submit(b, o, ts).book.tape[|b.tape|..], id)
            <==> BetterQty(side, flat, flat[Position(flat, id)].price) + QuantityAhead(flat, id) < o.qty
  {
    var flat := b.On(o.side.Opposite());
    var k := Position(flat, id);
    QuantityAheadAndHidden(b, o, ts, id);
    NothingHidden(flat[..k], flat[k].price);
  }

  lemma {:induction false} LiquidityAhead(side: Side, flat: seq<L3Order>, k: nat)
    requires SortedSide(side, flat) && k < |flat|
    ensures var ahead, p := flat[..k], flat[k].price;
            Liquidity(ahead) == BetterQty(side, flat, p) + VisibleAt(ahead, p) + HiddenAt(ahead, p)
  {
    AheadSplits(side, flat[..k], flat[k].price);
    BetterQtyPrefix(side, flat, flat[k].price, k);
  }

  lemma {:induction false} WalkTradesWithIff(side: Side, flat: seq<L3Order>, a: Aggressor, qty: Quantity,
                                             tid: nat, k: nat)
    requires side == a.order.side.Opposite() && SideOk(side, flat) && DistinctIds(flat) && 0 <= qty && k < |flat|
    ensures TradesWith(Walk(flat, a, qty, tid).trades, flat[k].id)
       <==> Eligible(a.order, flat[k].price) && Liquidity(flat[..k]) < qty
  {
    var trades := Walk(flat, a, qty, tid).trades;
    ReachIsExact(flat, a.order, k);
    WalkReaches(flat, a, qty, tid, k);
    WalkNamesBothParties(flat, a, qty, tid);
    if k < |trades| {
      assert trades[k].restingId == flat[k].id;
    }
  }

  // ---------------------------------------------------------------- stored positions

  ghost predicate AllPositionsExact(flat: seq<L3Order>) {
    forall i :: 0 <= i < |flat| ==> flat[i].queuePos == CountAt(flat[..i], flat[i].price)
  }

  /** The incoming quantity uses up the front of a price level but not the whole level. */
  ghost predicate SplitsALevel(flat: seq<L3Order>, o: Order) {
    exists i :: 0 < i < |flat| && flat[i - 1].price == flat[i].price && Eligible(o, flat[i].price)
                && Liquidity(flat[..i]) <= o.qty < Liquidity(flat[..i + 1])
  }

  /** Matching does not renumber, so exact stored positions survive it exactly when the
      incoming quantity stops short of taking part of a level's orders away. */
  lemma {:induction false} MatchKeepsPositionsIff(b: Book, o: Order, ts: Timestamp)
    requires Inv(b) && 0 < o.qty && Fillable(b, o)
    requires AllPositionsExact(b.On(o.side.Opposite()))
    ensures AllPositionsExact(Match(b, o, ts).rest) <==> !SplitsALevel(b.On(o.side.Opposite()), o)
  {
    WalkKeepsPositionsIff(o.side.Opposite(), b.On(o.side.Opposite()), Aggressor(o, b.symbol, ts), |b.tape| + 1);
  }

  lemma {:induction false} WalkKeepsPositionsIff(side: Side, flat: seq<L3Order>, a: Aggressor, tid: nat)
    requires side == a.order.side.Opposite() && SideOk(side, flat) && 0 < a.order.qty && AllPositionsExact(flat)
    ensures AllPositionsExact(Walk(flat, a, a.order.qty, tid).rest) <==> !SplitsALevel(flat, a.order)
  {
    var n := WalkTrims(flat, a, a.order.qty, tid);
    TrimmedExactIff(side, flat, Walk(flat, a, a.order.qty, tid).rest, n);
    SplitPoint(flat, a, tid, n);
  }

  lemma {:induction false} SplitPoint(flat: seq<L3Order>, a: Aggressor, tid: nat, n: nat)
    requires SortedSide(a.order.side.Opposite(), flat) && AllLive(flat) && 0 < a.order.qty
    requires n == Consumed(flat, a, a.order.qty, tid) <= |flat|
    ensures SplitsALevel(flat, a.order) <==> 0 < n < |flat| && flat[n - 1].price == flat[n].price
  {
    var o := a.order;
    forall i | 0 < i < |flat| && flat[i - 1].price == flat[i].price
      ensures Eligible(o, flat[i].price) && Liquidity(flat[..i]) <= o.qty < Liquidity(flat[..i + 1]) <==> i == n
    {
      WalkConsumes(flat, a, o.qty, tid, i - 1);
      WalkConsumes(flat, a, o.qty, tid, i);
      ReachIsExact(flat, o, i - 1);
      ReachIsExact(flat, o, i);
    }
  }

  lemma {:induction false} TrimmedExactIff(side: Side, flat: seq<L3Order>, rest: seq<L3Order>, n: nat)
    requires SortedSide(side, flat) && AllPositionsExact(flat) && Trimmed(flat, rest, n)
    ensures AllPositionsExact(rest) <==> !(0 < n < |flat| && flat[n - 1].price == flat[n].price)
  {
    if 0 < n < |flat| && flat[n - 1].price == flat[n].price {
      TrimmedLosesCount(side, flat, rest, n, 0);
      assert rest[0].queuePos != CountAt(rest[..0], rest[0].price);
    } else {
      forall i | 0 <= i < |rest|
        ensures rest[i].queuePos == CountAt(rest[..i], rest[i].price)
      {
        TrimmedLosesCount(side, flat, rest, n, i);
      }
    }
  }

  /** An order's stored position is out by the number of removed orders at its price. */
  lemma {:induction false} TrimmedLosesCount(side: Side, flat: seq<L3Order>, rest: seq<L3Order>, n: nat, i: nat)
    requires SortedSide(side, flat) && AllPositionsExact(flat) && Trimmed(flat, rest, n) && i < |rest|
    ensures rest[i].queuePos == CountAt(rest[..i], rest[i].price) + CountAt(flat[..n], rest[i].price)
    ensures 0 < CountAt(flat[..n], rest[i].price) <==> 0 < n && flat[n - 1].price == rest[i].price
  {
    var p := rest[i].price;
    assert Evolved(flat[n + i], rest[i]);
    assert flat[..n + i] == flat[..n] + flat[n..n + i];
    CountAtConcat(flat[..n], flat[n..n + i], p);
    forall k | 0 <= k < i
      ensures rest[..i][k].price == flat[n..n + i][k].price
    {
      assert Evolved(flat[n + k], rest[k]);
    }
    CountAtSamePrices(rest[..i], flat[n..n + i], p);
    if 0 < n && flat[n - 1].price == p {
      assert flat[..n] == flat[..n - 1] + [flat[n - 1]];
      CountAtConcat(flat[..n - 1], [flat[n - 1]], p);
    } else if 0 < n {
      forall k | 0 <= k < n
        ensures flat[..n][k].price != p
      {
        assert Rank(side, flat[k].price) <= Rank(side, flat[n - 1].price) <= Rank(side, flat[n + i].price);
      }
      CountAtNone(flat[..n], p);
    }
  }

  ghost predicate AllExact(b: Book) {
    AllPositionsExact(b.bids) && AllPositionsExact(b.asks)
  }

  lemma {:induction false} InsertKeepsExact(side: Side, flat: seq<L3Order>, x: L3Order)
    requires SortedSide(side, flat) && AllPositionsExact(flat) && x.queuePos == CountAt(flat, x.price)
    ensures AllPositionsExact(Insert(side, flat, x))
  {
    hide CountAt;
    var r := Insert(side, flat, x);
    forall i | 0 <= i < |r|
      ensures r[i].queuePos == CountAt(r[..i], r[i].price)
    {
      InsertPrefixCount(side, flat, x, i);
      InsertAt(side, flat, x, i);
    }
  }

  /** Only a quantity that the eligible orders cover can split a level. */
  lemma {:induction false} SplitIsCovered(flat: seq<L3Order>, o: Order)
    requires SortedSide(o.side.Opposite(), flat) && AllLive(flat) && SplitsALevel(flat, o)
    ensures 0 < o.qty < EligibleQty(flat, o)
  {
    var i :| 0 < i < |flat| && flat[i - 1].price == flat[i].price && Eligible(o, flat[i].price)
             && Liquidity(flat[..i]) <= o.qty < Liquidity(flat[..i + 1]);
    ReachIsExact(flat, o, i);
    LiquidityMonotone(flat, 0, i);
    LiquidityMonotone(flat, i + 1, Reach(flat, o));
  }

  /** A submission keeps all stored positions of the book exact, on both sides, exactly when
      it does not take away part of a level's orders; what comes to rest is always exact. */
  lemma {:induction false} SubmitKeepsPositionsIff(b: Book, o: Order, ts: Timestamp)
    requires Inv(b) && !HasId(b, o.id) && AllExact(b)
    ensures AllExact(Submit(b, o, ts).book) <==> !SplitsALevel(b.On(o.side.Opposite()), o)
  {
    var flat, own := b.On(o.side.Opposite()), b.On(o.side);
    SubmitAnatomy(b, o, ts);
    InsertKeepsExact(o.side, own, NewResting(own, o, Match(b, o, ts).left, ts));
    if SplitsALevel(flat, o) {
      SplitIsCovered(flat, o);
    }
    if 0 < o.qty && Fillable(b, o) {
      MatchKeepsPositionsIff(b, o, ts);
    } else {
      assert Match(b, o, ts).rest == flat;
    }
  }

  /** Dropping an order leaves the counts at all other prices alone. */
  lemma {:induction false} DropCount(flat: seq<L3Order>, k: nat, i: nat, price: Price)
    requires k < |flat| && i < |flat| && price != flat[k].price
    ensures CountAt(Drop(flat, k)[..i], price) == CountAt(flat[..if i < k then i else i + 1], price)
  {
    if i < k {
      assert Drop(flat, k)[..i] == flat[..i];
    } else {
      assert Drop(flat, k)[..i] == flat[..k] + flat[k + 1..i + 1];
      assert flat[..i + 1] == flat[..k] + ([flat[k]] + flat[k + 1..i + 1]);
      CountAtAround(flat[..k], flat[k], flat[k + 1..i + 1], price);
    }
  }

  lemma {:induction false} RemovalKeepsExact(flat: seq<L3Order>, id: OrderId)
    requires AllPositionsExact(flat) && Has(flat, id)
    ensures AllPositionsExact(Removal(flat, id))
  {
    var k := Position(flat, id);
    var d, r := Drop(flat, k), Removal(flat, id);
    forall i | 0 <= i < |r|
      ensures r[i].queuePos == CountAt(r[..i], r[i].price)
    {
      CountAtSamePrices(r[..i], d[..i], r[i].price);
      if d[i].price != flat[k].price {
        DropCount(flat, k, i, d[i].price);
      }
    }
  }

  /** A cancel keeps all stored positions exact. */
  lemma {:induction false} CancelKeepsPositions(b: Book, id: OrderId, ts: Timestamp)
    requires AllExact(b)
    ensures AllExact(Cancel(b, id, ts).book)
  {
    if HasId(b, id) {
      CancelAnatomy(b, id, ts);
      RemovalKeepsExact(b.On(if Has(b.bids, id) then Buy else Sell), id);
    }
  }

  /** Cancelling makes every position at the cancelled order's price exact. */
  lemma {:induction false} CancelMakesPositionsExact(b: Book, id: OrderId, ts: Timestamp)
    requires Inv(b) && HasId(b, id)
    ensures var r := Cancel(b, id, ts);
            PositionsExact(r.book.On(r.report.side), r.report.price)
  {
    var side := if Has(b.bids, id) then Buy else Sell;
    var k := Position(b.On(side), id);
    DropKeepsInv(side, b.On(side), k);
    RenumberKeepsInv(side, Drop(b.On(side), k), b.On(side)[k].price);
  }
}
