/**
 * The order-level book itself: two price ladders of FIFO queues, an id index into them,
 * per-side counters and trade counters, all updated in place.  Every operation is proved
 * to refine the flat book of BookSpec.
 */
module L3Book {
  import opened Types
  import opened PriceTime
  import opened BookSpec
  import opened BookInvariant
  import BookTheorems
  import opened BookQueries
  import opened Ladder
  import opened Matching

  const NO_POSITION: nat := 0xFFFF_FFFF

  function LastPrice(before: Price, trades: seq<Trade>): Price {
    if trades == [] then before else trades[|trades| - 1].price
  }

  /** What stays fixed during one match: the walk to be performed, the incoming order, the
      side not matched, and tape and counters to measure progress from. */
  datatype MatchFrame = MatchFrame(
    goal: Outcome,
    incoming: Aggressor,
    other: seq<L3Order>,
    tape: seq<Trade>,
    surplus: int,
    ownCount: int)

  datatype Top = Top(bid: Option<BookLevel>, ask: Option<BookLevel>, mid: Price, micro: Price, spread: Price)

  /** The book after the remainder of an order has come to rest. */
  ghost function Settled(b: Book, o: Order, left: Quantity, ts: Timestamp): Book {
    b.With(o.side, Insert(o.side, b.On(o.side), NewResting(b.On(o.side), o, left, ts)))
  }

  /** The flat book determines the whole object: levels, queues, index and all counters.  So
      what is said of flat books - restored, left unchanged, the same - holds of objects. */
  lemma {:induction false} ViewDeterminesObject(a: L3OrderBook, b: L3OrderBook)
    requires a.Represents() && b.Represents() && a.View() == b.View()
    ensures a.symbol == b.symbol && a.bids == b.bids && a.asks == b.asks && a.index == b.index
    ensures a.tradeCount == b.tradeCount && a.nextTradeId == b.nextTradeId && a.totalVolume == b.totalVolume
    ensures a.lastTradePrice == b.lastTradePrice && a.bidCount == b.bidCount && a.askCount == b.askCount
  {
    LadderUnique(Buy, a.bids, b.bids);
    LadderUnique(Sell, a.asks, b.asks);
    IndexUnique(a.index, b.index, Flatten(a.bids), Flatten(a.asks));
  }

  class L3OrderBook {
    const symbol: Symbol
    var bids: seq<Level<L3Order>>
    var asks: seq<Level<L3Order>>
    var index: map<OrderId, Location>
    var tradeCount: int
    var nextTradeId: nat
    var totalVolume: Quantity
    var lastTradePrice: Price
    var bidCount: int
    var askCount: int
    /** Every trade handed to the trade callback, in order. */
    ghost var tape: seq<Trade>

    /** The flat book this object stands for. */
    ghost function View(): Book
      reads this
    {
      Book(symbol, Flatten(bids), Flatten(asks), tape)
    }

    ghost predicate CountersOk()
      reads this`tape, this`tradeCount, this`nextTradeId, this`totalVolume, this`lastTradePrice
    {
      && tradeCount == |tape|
      && nextTradeId == |tape| + 1
      && totalVolume == Volume(tape)
      && lastTradePrice == LastPrice(0, tape)
    }

    /** Well-formed ladders, an exact index, exact counters. */
    ghost predicate Represents()
      reads this
    {
      && LadderOk(Buy, bids)
      && LadderOk(Sell, asks)
      && IndexOk(index, Flatten(bids), Flatten(asks))
      && bidCount == |Flatten(bids)|
      && askCount == |Flatten(asks)|
      && CountersOk()
    }

    /** The representation is exact and the book it stands for satisfies the book invariant. */
    ghost predicate Valid()
      reads this
    {
      Represents() && Inv(View())
    }

    constructor (symbol: Symbol)
      ensures Valid()
      ensures View() == Empty(symbol)
    {
      this.symbol := symbol;
      bids, asks, index := [], [], map[];
      tradeCount, nextTradeId, totalVolume, lastTradePrice := 0, 1, 0, 0;
      bidCount, askCount := 0, 0;
      tape := [];
    }

    // -------------------------------------------------------------- matching

    ghost function CountOf(side: Side): int
      reads this`bidCount, this`askCount
    {
      if side.Buy? then bidCount else askCount
    }

    /** What the matching loops keep: the trades made so far and the walk over what remains
        make up the walk from the start; index and counters are exact throughout. */
    ghost predicate Progress(f: MatchFrame, trades: seq<Trade>, flat: seq<L3Order>, left: Quantity)
      reads this
    {
      WalkProgress(f, trades, flat, left) && IndexProgress(f, flat)
    }

    ghost predicate WalkProgress(f: MatchFrame, trades: seq<Trade>, flat: seq<L3Order>, left: Quantity)
      reads this`tape, this`tradeCount, this`nextTradeId, this`totalVolume, this`lastTradePrice
    {
      && f.goal == Prepend(trades, Walk(flat, f.incoming, left, nextTradeId))
      && CountersOk()
      && tape == f.tape + trades
    }

    ghost predicate IndexProgress(f: MatchFrame, flat: seq<L3Order>)
      reads this`index, this`bidCount, this`askCount
    {
      && Unshared(flat, f.other)
      && IndexOk(index, flat, f.other)
      && CountOf(f.incoming.order.side.Opposite()) - |flat| == f.surplus
      && CountOf(f.incoming.order.side) == f.ownCount
    }

    /** Matches the incoming order against one ladder, best level first and oldest order
        first, for any well-formed ladder, icebergs included.  The ladder is passed in and
        handed back; index and counters change in place.  `other` is the opposite side,
        which the index also covers. */
    method MatchAgainst(levels0: seq<Level<L3Order>>, o: Order, qty: Quantity, ts: Timestamp,
                        ghost other: seq<L3Order>)
      returns (levels: seq<Level<L3Order>>, left: Quantity, trades: seq<Trade>)
      requires LadderOk(o.side.Opposite(), levels0)
      requires Unshared(Flatten(levels0), other) && IndexOk(index, Flatten(levels0), other)
      requires CountersOk()
      modifies this`index, this`tradeCount, this`nextTradeId, this`totalVolume, this`lastTradePrice,
               this`bidCount, this`askCount, this`tape
      ensures Outcome(trades, Flatten(levels), left)
           == Walk(Flatten(levels0), Aggressor(o, symbol, ts), qty, old(nextTradeId))
      ensures LadderOk(o.side.Opposite(), levels)
      ensures IndexOk(index, Flatten(levels), other)
      ensures tape == old(tape) + trades && CountersOk()
      ensures CountOf(o.side.Opposite()) - |Flatten(levels)|
           == old(CountOf(o.side.Opposite())) - |Flatten(levels0)|
      ensures CountOf(o.side) == old(CountOf(o.side))
    {
      ghost var side, a := o.side.Opposite(), Aggressor(o, symbol, ts);
      ghost var f := MatchFrame(Walk(Flatten(levels0), a, qty, nextTradeId), a, other, tape,
                                CountOf(side) - |Flatten(levels0)|, CountOf(o.side));
      levels, left, trades := levels0, qty, [];
      var at := 0;
      while 0 < left && at < |levels|
        invariant 0 <= at <= |levels| && (0 < at ==> left == 0)
        invariant LadderOk(side, levels)
        invariant Progress(f, trades, Flatten(levels), left)
        decreases |levels| - at
      {
        var price := levels[at].price;
        if o.kind.Limit? {
          if o.side.Buy? && price > o.price {
            break;
          }
          if o.side.Sell? && price < o.price {
            break;
          }
        }
        ghost var tail := Flatten(levels[1..]);
        var queue;
        queue, left, trades := MatchLevel(levels[at], o, left, ts, trades, tail, f);
        if queue == [] {
          TailOk(side, levels);
          assert levels[..at] + levels[at + 1..] == levels[1..];
          assert queue + tail == tail;
          levels := levels[..at] + levels[at + 1..];
        } else {
          FrontReplaced(side, levels, queue);
          levels := levels[at := Level(price, queue)];
          at := at + 1;
        }
      }
      WalkStops(side, levels, a, left, nextTradeId);
    }

    /** The inner loop: one queue, from the front, while quantity is left. */
    method MatchLevel(level: Level<L3Order>, o: Order, qty: Quantity, ts: Timestamp, trades0: seq<Trade>,
                      ghost tail: seq<L3Order>, ghost f: MatchFrame)
      returns (queue: seq<L3Order>, left: Quantity, trades: seq<Trade>)
      requires f.incoming == Aggressor(o, symbol, ts)
      requires LevelOk(o.side.Opposite(), level) && 0 < qty && Eligible(o, level.price)
      requires Progress(f, trades0, level.queue + tail, qty)
      modifies this`index, this`tradeCount, this`nextTradeId, this`totalVolume, this`lastTradePrice,
               this`bidCount, this`askCount, this`tape
      ensures Progress(f, trades, queue + tail, left)
      ensures 0 <= left && (queue != [] ==> left == 0 && LevelOk(o.side.Opposite(), Level(level.price, queue)))
    {
      hide WalkProgress;
      hide IndexProgress;
      hide Walk;
      queue, left, trades := level.queue, qty, trades0;
      var at := 0;
      while 0 < left && at < |queue|
        invariant 0 <= at <= |queue| && 0 <= left && (0 < at ==> left == 0)
        invariant queue != [] ==> LevelOk(o.side.Opposite(), Level(level.price, queue))
        invariant Progress(f, trades, queue + tail, left)
        decreases |queue| - at
      {
        LevelAfterFill(o.side.Opposite(), level.price, queue, Min(left, queue[0].Available()));
        ghost var next := FrontFilled(queue, Min(left, queue[0].Available()));
        var resting, trade := MatchFront(queue[at], o, level.price, left, ts, trades, queue, tail, f);
        left := left - trade.qty;
        trades := trades + [trade];
        if resting.visible + resting.hidden == 0 {
          queue := queue[..at] + queue[at + 1..];
        } else {
          queue := queue[at := resting];
          at := at + 1;
        }
        assert queue == next;
      }
    }

    /** One trade with the front order; a filled order leaves the index and its side's count. */
    method MatchFront(before: L3Order, o: Order, price: Price, left: Quantity, ts: Timestamp, ghost trades: seq<Trade>,
                      ghost queue: seq<L3Order>, ghost tail: seq<L3Order>, ghost f: MatchFrame)
      returns (resting: L3Order, trade: Trade)
      requires f.incoming == Aggressor(o, symbol, ts)
      requires queue != [] && queue[0] == before && before.price == price && before.side == o.side.Opposite()
      requires Live(before) && 0 < left && Eligible(o, price)
      requires Progress(f, trades, queue + tail, left)
      modifies this`index, this`tradeCount, this`nextTradeId, this`totalVolume, this`lastTradePrice,
               this`bidCount, this`askCount, this`tape
      ensures trade.qty == Min(left, before.Available())
      ensures resting.Available() == 0 <==> trade.qty == before.Available()
      ensures resting.Available() != 0 ==> resting == Hit(before, trade.qty)
      ensures Progress(f, trades + [trade], FrontFilled(queue, trade.qty) + tail, left - trade.qty)
    {
      IndexAfterFill(index, queue, tail, f.other, Min(left, before.Available()));
      resting, trade := Fill(before, o, price, left, ts, trades, queue, tail, f);
      if resting.visible + resting.hidden == 0 {
        Unlink(resting);
      }
    }

    /** A filled order leaves the index and the count of its side. */
    method Unlink(resting: L3Order)
      modifies this`index, this`bidCount, this`askCount
      ensures index == old(index) - {resting.id}
      ensures CountOf(resting.side) == old(CountOf(resting.side)) - 1
      ensures CountOf(resting.side.Opposite()) == old(CountOf(resting.side.Opposite()))
    {
      index := index - {resting.id};
      if resting.side.Buy? {
        bidCount := bidCount - 1;
      } else {
        askCount := askCount - 1;
      }
    }

    /** One trade with one resting order: records it and reduces the resting quantity, with
        iceberg replenishment. */
    method Fill(before: L3Order, o: Order, price: Price, left: Quantity, ts: Timestamp, ghost trades: seq<Trade>,
                ghost queue: seq<L3Order>, ghost tail: seq<L3Order>, ghost f: MatchFrame)
      returns (resting: L3Order, trade: Trade)
      requires f.incoming == Aggressor(o, symbol, ts)
      requires queue != [] && queue[0] == before && price == before.price
      requires Live(before) && 0 < left && Eligible(o, price)
      requires WalkProgress(f, trades, queue + tail, left)
      modifies this`tradeCount, this`nextTradeId, this`totalVolume, this`lastTradePrice, this`tape
      ensures trade.qty == Min(left, before.Available())
      ensures resting.Available() == 0 <==> trade.qty == before.Available()
      ensures trade.qty < before.Available() ==> resting == Hit(before, trade.qty)
      ensures resting.id == before.id && resting.side == before.side
      ensures WalkProgress(f, trades + [trade], FrontFilled(queue, trade.qty) + tail, left - trade.qty)
    {
      hide Walk;
      hide FrontFilled;
      FillAdvances(f.goal, trades, queue, tail, f.incoming, left, nextTradeId);
      resting := before;
      var available := resting.visible + resting.hidden;
      var matched := Min(left, available);
      trade := Trade(nextTradeId, resting.id, o.id, resting.trader, o.trader, symbol, o.side, price, matched, ts);
      nextTradeId := nextTradeId + 1;
      VolumeConcat(tape, [trade]);
      SnocAssociates(f.tape, trades, trade);
      tape := tape + [trade];
      tradeCount := tradeCount + 1;
      totalVolume := totalVolume + matched;
      lastTradePrice := price;
      resting := resting.(filled := resting.filled + matched);
      if matched <= resting.visible {
        resting := resting.(visible := resting.visible - matched);
      } else {
        var fromHidden := matched - resting.visible;
        resting := resting.(visible := 0, hidden := resting.hidden - fromHidden);
      }
      if resting.visible == 0 && resting.hidden > 0 && resting.iceberg {
        var replenish := Min(resting.hidden, 100);
        resting := resting.(visible := replenish, hidden := resting.hidden - replenish);
      }
    }

    // -------------------------------------------------------------- requests

    /** Quantity the order could take from a ladder; the scan stops at the first level out of
        its price, and as soon as it has seen enough. */
    method ScanLiquidity(levels: seq<Level<L3Order>>, o: Order) returns (available: Quantity)
      requires LadderOk(o.side.Opposite(), levels)
      ensures o.qty <= available <==> o.qty <= EligibleQty(Flatten(levels), o)
    {
      available := 0;
      var i := 0;
      EligibleQtyFrom(o.side.Opposite(), levels, o, 0);
      hide LadderOk;
      hide Flatten;
      while i < |levels|
        invariant 0 <= i <= |levels|
        invariant forall k :: 0 <= k < i ==> Eligible(o, levels[k].price)
        invariant available == Liquidity(Flatten(levels[..i]))
      {
        EligibleQtyFrom(o.side.Opposite(), levels, o, i);
        if o.kind.Limit? {
          if o.side.Buy? && levels[i].price > o.price {
            return;
          }
          if o.side.Sell? && levels[i].price < o.price {
            return;
          }
        }
        var atLevel := QueueLiquidity(levels[i].queue);
        available := available + atLevel;
        LiquidityNextLevel(levels, i);
        i := i + 1;
        EligibleQtyFrom(o.side.Opposite(), levels, o, i);
        if available >= o.qty {
          return;
        }
      }
      EligibleQtyFrom(o.side.Opposite(), levels, o, |levels|);
      assert levels[..i] == levels;
    }

    method QueueLiquidity(queue: seq<L3Order>) returns (quantity: Quantity)
      ensures quantity == Liquidity(queue)
    {
      quantity := 0;
      var j := 0;
      while j < |queue|
        invariant 0 <= j <= |queue|
        invariant quantity == Liquidity(queue[..j])
      {
        assert queue[..j + 1] == queue[..j] + [queue[j]];
        LiquidityConcat(queue[..j], [queue[j]]);
        quantity := quantity + queue[j].visible + queue[j].hidden;
        j := j + 1;
      }
      assert queue[..j] == queue;
    }

    /** Matches an order against the opposite side, after the fill-or-kill check. */
    method MatchIncoming(o: Order, ts: Timestamp) returns (left: Quantity, trades: seq<Trade>)
      requires Valid() && !HasId(View(), o.id)
      modifies this
      ensures Represents()
      ensures var w := Match(old(View()), o, ts);
              View() == AfterMatch(old(View()), o, w) && left == w.left && trades == w.trades
    {
      hide Walk;
      hide Inv;
      if o.tif.FOK? {
        var available := ScanLiquidity(if o.side.Buy? then asks else bids, o);
        if available < o.qty {
          assert tape + [] == tape;
          return o.qty, [];
        }
      }
      left, trades := MatchOpposite(o, ts);
    }

    /** Matches an order against the ladder of the opposite side. */
    method MatchOpposite(o: Order, ts: Timestamp) returns (left: Quantity, trades: seq<Trade>)
      requires Valid()
      modifies this
      ensures Represents()
      ensures var b := old(View());
              var w := Walk(b.On(o.side.Opposite()), Aggressor(o, symbol, ts), o.qty, |b.tape| + 1);
              left == w.left && trades == w.trades && View() == AfterMatch(b, o, w)
    {
      IndexSymmetric(index, Flatten(bids), Flatten(asks));
      if o.side.Buy? {
        asks, left, trades := MatchAgainst(asks, o, o.qty, ts, Flatten(bids));
      } else {
        bids, left, trades := MatchAgainst(bids, o, o.qty, ts, Flatten(asks));
      }
      IndexSymmetric(index, Flatten(bids), Flatten(asks));
    }

    /** Puts an order at the back of its price level, creating the level when absent. */
    method Enqueue(side: Side, levels0: seq<Level<L3Order>>, x: L3Order) returns (levels: seq<Level<L3Order>>)
      requires LadderOk(side, levels0) && Live(x) && x.side == side
      ensures LadderOk(side, levels)
      ensures Flatten(levels)
           == Insert(side, Flatten(levels0), x.(queuePos := CountAt(Flatten(levels0), x.price)))
    {
      hide LadderOk;
      hide Flatten;
      hide CountAt;
      hide Insert;
      LevelCount(side, levels0, x.price);
      ghost var y := x.(queuePos := CountAt(Flatten(levels0), x.price));
      JoinedInserts(side, levels0, y);
      JoinedOk(side, levels0, y);
      levels := levels0;
      var k := Seek(side, levels, x.price);
      if !(k < |levels| && levels[k].price == x.price) {
        levels := levels[..k] + [Level(x.price, [])] + levels[k..];
      }
      var queue := levels[k].queue + [x];
      queue := queue[|queue| - 1 := x.(queuePos := |queue| - 1)];
      assert queue == levels[k].queue + [y];
      levels := levels[k := Level(x.price, queue)];
      if k < |levels0| && levels0[k].price == x.price {
        assert levels == levels0[..k] + [Level(x.price, levels0[k].queue + [y])] + levels0[k + 1..];
      } else {
        assert queue == [y];
        assert levels == levels0[..k] + [Level(x.price, [y])] + levels0[k..];
      }
    }

    /** Rests what is left of an order at the back of its price level. */
    method AddRestingOrder(o: Order, left: Quantity, ts: Timestamp)
      requires LadderOk(Buy, bids) && LadderOk(Sell, asks) && 0 < left <= o.qty
      modifies this`bids, this`asks, this`index, this`bidCount, this`askCount
      ensures LadderOk(Buy, bids) && LadderOk(Sell, asks)
      ensures var own := old(View()).On(o.side);
              View() == old(View()).With(o.side, Insert(o.side, own, NewResting(own, o, left, ts)))
      ensures index == old(index)[o.id := Location(o.side, o.price)]
      ensures CountOf(o.side) == old(CountOf(o.side)) + 1
      ensures CountOf(o.side.Opposite()) == old(CountOf(o.side.Opposite()))
    {
      var x := L3Order(o.id, o.trader, o.side, o.price, left, 0, o.qty - left, ts, 0, false);
      if o.side.Buy? {
        bids := Enqueue(Buy, bids, x);
        bidCount := bidCount + 1;
      } else {
        asks := Enqueue(Sell, asks, x);
        askCount := askCount + 1;
      }
      index := index[o.id := Location(o.side, o.price)];
    }

    lemma {:induction false} NewIndexEntry(own: seq<L3Order>, other: seq<L3Order>, y: L3Order)
      requires IndexOk(index, own, other) || IndexOk(index, other, own)
      requires !Has(own, y.id) && !Has(other, y.id)
      ensures var index' := index[y.id := Location(y.side, y.price)];
              IndexOk(index', Insert(y.side, own, y), other) && IndexOk(index', other, Insert(y.side, own, y))
      ensures |Insert(y.side, own, y)| == |own| + 1
    {
      IndexSymmetric(index, own, other);
      IndexFinds(index, own, other, y.id);
      IndexInserts(index, y.side, own, other, y);
      IndexSymmetric(index[y.id := Location(y.side, y.price)], Insert(y.side, own, y), other);
    }

    /** Resting the remainder keeps the representation exact. */
    method Settle(o: Order, left: Quantity, ts: Timestamp)
      requires Represents() && 0 < left <= o.qty && !HasId(View(), o.id)
      modifies this`bids, this`asks, this`index, this`bidCount, this`askCount
      ensures Represents() && View() == Settled(old(View()), o, left, ts)
    {
      ghost var own, other := View().On(o.side), View().On(o.side.Opposite());
      NewIndexEntry(own, other, NewResting(own, o, left, ts));
      AddRestingOrder(o, left, ts);
    }

    /** Submits an order: duplicate check, matching, report, and resting the remainder. */
    method AddOrder(o: Order, ts: Timestamp) returns (rpt: ExecReport)
      requires Valid()
      modifies this
      ensures Valid()
      ensures Reply(View(), rpt) == Submit(old(View()), o, ts)
    {
      ghost var b := View();
      SubmitKeepsInv(b, o, ts);
      rpt := BLANK_REPORT.(orderId := o.id, trader := o.trader, symbol := o.symbol, side := o.side, kind := o.kind,
                           price := o.price, orderQty := o.qty, transactTime := ts);
      IndexFinds(index, Flatten(bids), Flatten(asks), o.id);
      if o.id in index {
        rpt := rpt.(status := Rejected, reason := DuplicateOrderId, leavesQty := 0);
        return;
      }
      AfterMatchInv(b, o, ts);
      BookTheorems.LeftOver(b, o, ts);
      var left, trades := MatchIncoming(o, ts);
      rpt := Judge(rpt, o, left, trades);
      assert rpt == ReportOf(o, Match(b, o, ts), ts);
      if left > 0 && o.kind.Limit? && (o.tif.Day? || o.tif.GTC?) {
        Settle(o, left, ts);
      }
      assert View() == Submit(b, o, ts).book;
    }

    /** Fills in the outcome of matching, then what happens to the remainder of a limit order. */
    method Judge(rpt0: ExecReport, o: Order, left: Quantity, trades: seq<Trade>) returns (rpt: ExecReport)
      requires rpt0 == BLANK_REPORT.(orderId := o.id, trader := o.trader, symbol := o.symbol, side := o.side,
                                     kind := o.kind, price := o.price, orderQty := o.qty,
                                     transactTime := rpt0.transactTime)
      requires if o.qty <= 0 then left == o.qty
               else 0 <= left <= o.qty && (o.tif.FOK? && o.kind.Limit? && 0 < left ==> left == o.qty)
      ensures forall rest :: rpt == ReportOf(o, Outcome(trades, rest, left), rpt0.transactTime)
    {
      rpt := rpt0;
      var filled := o.qty - left;
      rpt := rpt.(filledQty := filled, leavesQty := left);
      if left == 0 {
        rpt := rpt.(status := Filled);
      } else if filled > 0 {
        rpt := rpt.(status := PartiallyFilled);
        if trades != [] {
          rpt := rpt.(lastQty := trades[|trades| - 1].qty, lastPrice := trades[|trades| - 1].price);
        }
      } else {
        rpt := rpt.(status := New);
      }
      if left > 0 && o.kind.Limit? {
        if o.tif.Day? || o.tif.GTC? {
        } else if o.tif.IOC? {
          rpt := rpt.(status := if filled > 0 then PartiallyFilled else Canceled, leavesQty := 0);
        } else if o.tif.FOK? {
          rpt := rpt.(status := Rejected, reason := InsufficientLiquidity, filledQty := 0, leavesQty := 0);
        }
      }
    }

    /** Renumbers the queue at a price 0, 1, 2, ... */
    method UpdateQueuePositions(queue0: seq<L3Order>) returns (queue: seq<L3Order>)
      ensures queue == Numbered(queue0)
    {
      queue := queue0;
      var pos := 0;
      while pos < |queue|
        invariant 0 <= pos <= |queue| == |queue0|
        invariant forall j :: 0 <= j < pos ==> queue[j] == queue0[j].(queuePos := j)
        invariant forall j :: pos <= j < |queue| ==> queue[j] == queue0[j]
      {
        queue := queue[pos := queue[pos].(queuePos := pos)];
        pos := pos + 1;
      }
    }

    /** Takes one order out of a ladder, through its index entry. */
    method Erase(side: Side, levels0: seq<Level<L3Order>>, price: Price, id: OrderId)
      returns (levels: seq<Level<L3Order>>)
      requires LadderOk(side, levels0) && Has(Flatten(levels0), id)
      requires price == Flatten(levels0)[Position(Flatten(levels0), id)].price
      ensures LadderOk(side, levels)
      ensures Flatten(levels) == Removal(Flatten(levels0), id)
    {
      var k := Seek(side, levels0, price);
      Locate(side, levels0, id);
      hide Flatten;
      var j := Position(levels0[k].queue, id);
      LeftRemoves(side, levels0, k, j);
      levels := EraseAt(levels0, k, j);
    }

    /** Takes one entry out of its queue: the others are renumbered, an emptied level goes. */
    method EraseAt(levels0: seq<Level<L3Order>>, k: nat, j: nat) returns (levels: seq<Level<L3Order>>)
      requires k < |levels0| && j < |levels0[k].queue|
      ensures levels == Left(levels0, k, j)
    {
      levels := levels0;
      var queue := levels[k].queue[..j] + levels[k].queue[j + 1..];
      if queue == [] {
        levels := levels[..k] + levels[k + 1..];
      } else {
        queue := UpdateQueuePositions(queue);
        levels := levels[k := Level(levels[k].price, queue)];
      }
    }

    /** Cancels a resting order; anything else is rejected and changes nothing. */
    method CancelOrder(id: OrderId, ts: Timestamp) returns (rpt: ExecReport)
      requires Valid()
      modifies this
      ensures Valid()
      ensures Reply(View(), rpt) == Cancel(old(View()), id, ts)
    {
      hide LadderOk;
      hide Removal;
      hide Flatten;
      hide SortedSide;
      hide AllLive;
      hide PositionsBound;
      hide Uncrossed;
      hide TapeOk;
      hide CountersOk;
      hide Indexed;
      hide Liquidity;
      rpt := BLANK_REPORT.(orderId := id, transactTime := ts);
      IndexFinds(index, Flatten(bids), Flatten(asks), id);
      if id !in index {
        rpt := rpt.(status := Rejected);
        return;
      }
      ghost var b := View();
      CancelKeepsInv(b, id, ts);
      CancelAnatomy(b, id, ts);
      var loc := index[id];
      DetachedIndex(id, loc);
      var x := Entry(id, loc);
      rpt := rpt.(trader := x.trader, symbol := symbol, side := x.side, price := x.price,
                  orderQty := x.visible + x.hidden + x.filled, filledQty := x.filled, leavesQty := 0,
                  status := Canceled);
      Detach(id, loc);
      assert View() == Cancel(b, id, ts).book;
    }

    /** Removes an indexed order, keeping the representation exact. */
    method Detach(id: OrderId, loc: Location)
      requires Represents() && id in index && loc == index[id]
      requires Unshared(Flatten(bids), Flatten(asks)) && Unshared(Flatten(asks), Flatten(bids))
      modifies this`bids, this`asks, this`index, this`bidCount, this`askCount
      ensures Represents()
      ensures var flat := old(View()).On(loc.side);
              Has(flat, id) && View() == old(View()).With(loc.side, Removal(flat, id))
    {
      DetachedIndex(id, loc);
      Unhook(id, loc);
    }

    /** The state change of a cancel: the ladder, the index, and the count of the side. */
    method Unhook(id: OrderId, loc: Location)
      requires LadderOk(Buy, bids) && LadderOk(Sell, asks)
      requires var flat := View().On(loc.side); Has(flat, id) && loc.price == flat[Position(flat, id)].price
      modifies this`bids, this`asks, this`index, this`bidCount, this`askCount
      ensures LadderOk(Buy, bids) && LadderOk(Sell, asks)
      ensures View() == old(View()).With(loc.side, Removal(old(View()).On(loc.side), id))
      ensures index == old(index) - {id}
      ensures CountOf(loc.side) == old(CountOf(loc.side)) - 1
      ensures CountOf(loc.side.Opposite()) == old(CountOf(loc.side.Opposite()))
    {
      hide LadderOk;
      hide Removal;
      hide Flatten;
      if loc.side.Buy? {
        bids := Erase(Buy, bids, loc.price, id);
        bidCount := bidCount - 1;
      } else {
        asks := Erase(Sell, asks, loc.price, id);
        askCount := askCount - 1;
      }
      index := index - {id};
    }

    lemma {:induction false} DetachedIndex(id: OrderId, loc: Location)
      requires Represents() && id in index && loc == index[id]
      requires Unshared(Flatten(bids), Flatten(asks)) && Unshared(Flatten(asks), Flatten(bids))
      ensures var flat, other := View().On(loc.side), View().On(loc.side.Opposite());
              && Has(flat, id)
              && loc.price == flat[Position(flat, id)].price
              && |Removal(flat, id)| == |flat| - 1
              && IndexOk(index - {id}, Removal(flat, id), other)
              && IndexOk(index - {id}, other, Removal(flat, id))
      ensures loc.side == if Has(Flatten(bids), id) then Buy else Sell
    {
      FlatSideOk(Buy, bids);
      FlatSideOk(Sell, asks);
      IndexFinds(index, Flatten(bids), Flatten(asks), id);
      IndexSymmetric(index, Flatten(bids), Flatten(asks));
      var flat, other := View().On(loc.side), View().On(loc.side.Opposite());
      IndexRemoves(index, flat, other, id);
      IndexSymmetric(index - {id}, Removal(flat, id), other);
    }

    /** The order an index entry points to. */
    method Entry(id: OrderId, loc: Location) returns (x: L3Order)
      requires Represents() && id in index && loc == index[id]
      ensures var flat := View().On(loc.side); Has(flat, id) && x == flat[Position(flat, id)]
    {
      FlatSideOk(Buy, bids);
      FlatSideOk(Sell, asks);
      IndexFinds(index, Flatten(bids), Flatten(asks), id);
      var levels := if loc.side.Buy? then bids else asks;
      Locate(loc.side, levels, id);
      var k := Seek(loc.side, levels, loc.price);
      x := levels[k].queue[Position(levels[k].queue, id)];
    }

    /** Cancel-replace under the same id. */
    method ReplaceOrder(req: ReplaceRequest, ts: Timestamp) returns (rpt: ExecReport)
      requires Valid()
      modifies this
      ensures Valid()
      ensures Reply(View(), rpt) == Replace(old(View()), req, ts)
    {
      rpt := CancelOrder(req.id, ts);
      if rpt.status != Canceled {
        rpt := rpt.(status := Rejected);
        return;
      }
      var o := Order(req.id, req.trader, req.symbol, rpt.side, Limit, Day, req.newPrice, req.newQty, ts);
      rpt := AddOrder(o, ts);
    }

    // -------------------------------------------------------------- queries

    ghost function Flat(side: Side): seq<L3Order>
      reads this`bids, this`asks
    {
      Flatten(Levels(side))
    }

    function Levels(side: Side): seq<Level<L3Order>>
      reads this`bids, this`asks
    {
      if side.Buy? then bids else asks
    }

    /** Displayed quantity and length of one queue. */
    method Total(l: Level<L3Order>) returns (level: BookLevel)
      requires forall j :: 0 <= j < |l.queue| ==> l.queue[j].price == l.price
      ensures level == BookLevel(l.price, BookTheorems.VisibleAt(l.queue, l.price), |l.queue|)
    {
      var total, count := 0, 0;
      while count < |l.queue|
        invariant 0 <= count <= |l.queue|
        invariant total == BookTheorems.VisibleAt(l.queue[..count], l.price)
      {
        assert l.queue[..count + 1] == l.queue[..count] + [l.queue[count]];
        VisibleConcat(l.queue[..count], [l.queue[count]], l.price);
        total := total + l.queue[count].visible;
        count := count + 1;
      }
      assert l.queue[..count] == l.queue;
      level := BookLevel(l.price, total, count);
    }

    /** Best bid or best ask. */
    method Best(side: Side) returns (best: Option<BookLevel>)
      requires LadderOk(side, Levels(side))
      ensures BestOk(Flat(side), best)
    {
      var levels := Levels(side);
      if levels == [] {
        return None;
      }
      assert LevelOk(side, levels[0]);
      var l := Total(levels[0]);
      LevelsGiveBest(side, levels, l);
      best := Some(l);
    }

    /** The best `n` levels of a side. */
    method Depth(side: Side, n: nat) returns (depth: seq<BookLevel>)
      requires LadderOk(side, Levels(side))
      ensures DepthOk(side, Flat(side), n, depth)
    {
      var levels := Levels(side);
      depth := [];
      while |depth| < |levels| && |depth| < n
        invariant |depth| <= |levels| && |depth| <= n
        invariant forall i :: 0 <= i < |depth| ==>
                    depth[i] == BookLevel(levels[i].price,
                                          BookTheorems.VisibleAt(levels[i].queue, levels[i].price),
                                          |levels[i].queue|)
        decreases |levels| - |depth|
      {
        assert LevelOk(side, levels[|depth|]);
        var l := Total(levels[|depth|]);
        depth := depth + [l];
      }
      LevelsGiveDepth(side, levels, n, depth);
    }

    /** Best prices, mid, spread and microprice. */
    method TopOfBook() returns (top: Top)
      requires Valid()
      ensures BestOk(View().bids, top.bid) && BestOk(View().asks, top.ask)
      ensures top.bid.Some? && top.ask.Some? ==>
                var b, a := top.bid.value.price, top.ask.value.price;
                && b < a && top.spread == a - b > 0
                && top.mid == TruncDiv(b + a, 2) && b <= top.mid <= a
                && b <= top.micro <= a
                && (0 < top.bid.value.qty + top.ask.value.qty ==>
                      top.micro == TruncDiv(b * top.ask.value.qty + a * top.bid.value.qty,
                                            top.bid.value.qty + top.ask.value.qty))
      ensures top.bid.Some? && top.ask.None? ==> top.mid == top.bid.value.price && top.micro == top.spread == 0
      ensures top.bid.None? && top.ask.Some? ==> top.mid == top.ask.value.price && top.micro == top.spread == 0
      ensures top.bid.None? && top.ask.None? ==> top.mid == top.micro == top.spread == 0
    {
      var bid := Best(Buy);
      var ask := Best(Sell);
      top := Top(bid, ask, 0, 0, 0);
      if bid.Some? && ask.Some? {
        var b, a := bid.value, ask.value;
        assert Uncrossed(Flatten(bids), Flatten(asks));
        VisibleNonNegative(Flatten(bids), b.price);
        VisibleNonNegative(Flatten(asks), a.price);
        top := top.(mid := TruncDiv(b.price + a.price, 2), spread := a.price - b.price);
        TruncBetween(b.price + a.price, 2, b.price, a.price);
        var micro := MicroPrice(b, a, top.mid);
        top := top.(micro := micro);
      } else if bid.Some? {
        top := top.(mid := bid.value.price);
      } else if ask.Some? {
        top := top.(mid := ask.value.price);
      }
    }

    /** Size-weighted mid; the plain mid when nothing is displayed. */
    method MicroPrice(b: BookLevel, a: BookLevel, mid: Price) returns (micro: Price)
      requires b.price <= mid <= a.price && 0 <= b.qty && 0 <= a.qty
      ensures b.price <= micro <= a.price
      ensures micro == if b.qty + a.qty > 0
                       then TruncDiv(b.price * a.qty + a.price * b.qty, b.qty + a.qty) else mid
    {
      var total := b.qty + a.qty;
      if total > 0 {
        WeightedBetween(b.price, a.price, b.qty, a.qty);
        micro := TruncDiv(b.price * a.qty + a.price * b.qty, total);
      } else {
        micro := mid;
      }
    }

    /** The stored position of an order, or a marker for an unknown id. */
    method QueuePosition(id: OrderId) returns (pos: nat)
      requires Valid()
      ensures !HasId(View(), id) ==> pos == NO_POSITION == 0xFFFF_FFFF
      ensures forall side :: Has(View().On(side), id) ==>
                var flat := View().On(side);
                var k := Position(flat, id);
                pos == flat[k].queuePos && CountAt(flat[..k], flat[k].price) <= pos
    {
      IndexFinds(index, Flatten(bids), Flatten(asks), id);
      if id !in index {
        return NO_POSITION;
      }
      var x := Entry(id, index[id]);
      pos := x.queuePos;
    }

    /** Displayed quantity in front of an order in its own queue. */
    method QuantityAhead(id: OrderId) returns (ahead: Quantity)
      requires Valid()
      ensures !HasId(View(), id) ==> ahead == 0
      ensures forall side :: Has(View().On(side), id) ==> ahead == BookTheorems.QuantityAhead(View().On(side), id)
    {
      hide Flatten;
      hide SortedSide;
      hide AllLive;
      hide PositionsBound;
      hide Uncrossed;
      hide TapeOk;
      IndexFinds(index, Flatten(bids), Flatten(asks), id);
      ahead := 0;
      if id !in index {
        return;
      }
      var loc := index[id];
      var x := Entry(id, loc);
      AheadInLevel(loc.side, Levels(loc.side), id);
      var k := Seek(loc.side, Levels(loc.side), loc.price);
      assert LevelOk(loc.side, Levels(loc.side)[k]);
      ahead := AheadIn(Levels(loc.side)[k], id);
    }

    method AheadIn(l: Level<L3Order>, id: OrderId) returns (ahead: Quantity)
      requires Has(l.queue, id) && forall j :: 0 <= j < |l.queue| ==> l.queue[j].price == l.price
      ensures ahead == BookTheorems.VisibleAt(l.queue[..Position(l.queue, id)], l.price)
    {
      ahead := 0;
      var j := 0;
      while j < |l.queue|
        invariant 0 <= j <= Position(l.queue, id)
        invariant ahead == BookTheorems.VisibleAt(l.queue[..j], l.price)
      {
        if l.queue[j].id == id {
          break;
        }
        assert l.queue[..j + 1] == l.queue[..j] + [l.queue[j]];
        VisibleConcat(l.queue[..j], [l.queue[j]], l.price);
        ahead := ahead + l.queue[j].visible;
        j := j + 1;
      }
    }
  }
}
