/** The simple limit order book (src/market/order_book.cpp): ladders and index updated in place. */
module SimpleLimitBook {
  import opened Types
  import opened PriceTime
  import opened BookSpec
  import opened BookInvariant
  import opened Ladder
  import opened Matching
  import opened SimpleSpec

  function LiftLevels(levels: seq<Level<BookOrder>>): (r: seq<Level<L3Order>>)
    ensures |r| == |levels|
  {
    seq(|levels|, i requires 0 <= i < |levels| => Level(levels[i].price, LiftAll(levels[i].queue)))
  }

  /** Well-formed ladders, as for the order-level book: a simple order is one fully displayed. */
  ghost predicate SimpleLadderOk(side: Side, levels: seq<Level<BookOrder>>) {
    LadderOk(side, LiftLevels(levels))
  }

  ghost predicate SimpleLevelOk(side: Side, l: Level<BookOrder>) {
    LevelOk(side, Level(l.price, LiftAll(l.queue)))
  }

  lemma {:induction false} LiftConcat(a: seq<BookOrder>, b: seq<BookOrder>)
    ensures LiftAll(a + b) == LiftAll(a) + LiftAll(b)
  {
  }

  lemma {:induction false} FlattenLifts(levels: seq<Level<BookOrder>>)
    ensures Flatten(LiftLevels(levels)) == LiftAll(Flatten(levels))
  {
    if levels != [] {
      assert LiftLevels(levels)[1..] == LiftLevels(levels[1..]);
      FlattenLifts(levels[1..]);
      LiftConcat(levels[0].queue, Flatten(levels[1..]));
    }
  }

  lemma {:induction false} SeekLifts(side: Side, levels: seq<Level<BookOrder>>, price: Price)
    ensures Seek(side, LiftLevels(levels), price) == Seek(side, levels, price)
  {
    if levels != [] {
      assert LiftLevels(levels)[1..] == LiftLevels(levels[1..]);
      SeekLifts(side, levels[1..], price);
    }
  }

  // ---------------------------------------------------------------- one step of matching

  function SimplePrepend(trades: seq<Trade>, w: SimpleOutcome): SimpleOutcome {
    SimpleOutcome(trades + w.trades, w.rest, w.left)
  }

  function SimpleFrontFilled(queue: seq<BookOrder>, m: Quantity): seq<BookOrder>
    requires queue != []
  {
    if m == queue[0].qty then queue[1..] else queue[0 := queue[0].(qty := queue[0].qty - m)]
  }

  lemma {:induction false} SimpleFillAdvances(goal: SimpleOutcome, trades: seq<Trade>, queue: seq<BookOrder>,
                                              tail: seq<BookOrder>, n: BookOrder, symbol: Symbol, ts: Timestamp,
                                              left: Quantity)
    requires queue != [] && 0 < queue[0].qty && 0 < left && SimpleEligible(n, queue[0].price)
    requires goal == SimplePrepend(trades, SimpleWalk(queue + tail, n, symbol, ts, left))
    ensures var m := Min(left, queue[0].qty);
            goal == SimplePrepend(trades + [SimpleTrade(queue[0], n, symbol, ts, m)],
                                  SimpleWalk(SimpleFrontFilled(queue, m) + tail, n, symbol, ts, left - m))
  {
    var m := Min(left, queue[0].qty);
    var t := SimpleTrade(queue[0], n, symbol, ts, m);
    var flat, flat' := queue + tail, SimpleFrontFilled(queue, m) + tail;
    assert flat[1..] == queue[1..] + tail;
    if m < queue[0].qty {
      assert flat' == [queue[0].(qty := queue[0].qty - m)] + flat[1..];
      assert SimpleWalk(flat[1..], n, symbol, ts, 0) == SimpleOutcome([], flat[1..], 0);
    }
    var w := SimpleWalk(flat', n, symbol, ts, left - m);
    assert SimpleWalk(flat, n, symbol, ts, left) == SimplePrepend([t], w);
    assert trades + ([t] + w.trades) == (trades + [t]) + w.trades;
  }

  /** Index exactness is about ids, sides and prices, so it carries over to simple orders. */
  ghost predicate SimpleIndexOk(index: map<OrderId, Location>, mine: seq<BookOrder>, other: seq<BookOrder>) {
    IndexOk(index, LiftAll(mine), LiftAll(other))
  }

  ghost predicate SimpleUnshared(mine: seq<BookOrder>, other: seq<BookOrder>) {
    Unshared(LiftAll(mine), LiftAll(other))
  }

  lemma {:induction false} SimpleIndexAfterFill(index: map<OrderId, Location>, queue: seq<BookOrder>,
                                                tail: seq<BookOrder>, other: seq<BookOrder>, m: Quantity)
    requires queue != [] && 0 < m <= queue[0].qty
    requires SimpleUnshared(queue + tail, other) && SimpleIndexOk(index, queue + tail, other)
    ensures SimpleUnshared(SimpleFrontFilled(queue, m) + tail, other)
    ensures SimpleIndexOk(if m == queue[0].qty then index - {queue[0].id} else index,
                          SimpleFrontFilled(queue, m) + tail, other)
  {
    var flat := queue + tail;
    LiftTail(flat);
    if m == queue[0].qty {
      IndexDropsFront(index, LiftAll(flat), LiftAll(other));
      assert queue[1..] + tail == flat[1..];
    } else {
      var x := queue[0].(qty := queue[0].qty - m);
      SimpleIndexKeepsFront(index, flat, x, other);
      assert queue[0 := x] + tail == [x] + flat[1..];
    }
  }

  lemma {:induction false} SimpleIndexKeepsFront(index: map<OrderId, Location>, flat: seq<BookOrder>, x: BookOrder,
                                                 other: seq<BookOrder>)
    requires flat != [] && SimpleUnshared(flat, other) && SimpleIndexOk(index, flat, other)
    requires x == flat[0].(qty := x.qty)
    ensures SimpleUnshared([x] + flat[1..], other) && SimpleIndexOk(index, [x] + flat[1..], other)
  {
    IndexKeepsFront(index, LiftAll(flat), Lift(x), LiftAll(other));
    LiftTail(flat);
    LiftCons(x, flat[1..]);
  }

  lemma {:induction false} LiftCons(x: BookOrder, flat: seq<BookOrder>)
    ensures LiftAll([x] + flat) == [Lift(x)] + LiftAll(flat)
  {
  }

  lemma {:induction false} LiftTail(flat: seq<BookOrder>)
    requires flat != []
    ensures LiftAll(flat)[1..] == LiftAll(flat[1..])
  {
  }

  lemma {:induction false} SimpleLevelAfterFill(side: Side, price: Price, queue: seq<BookOrder>, m: Quantity)
    requires queue != [] && SimpleLevelOk(side, Level(price, queue)) && 0 < m <= queue[0].qty
    ensures var r := SimpleFrontFilled(queue, m); r != [] ==> SimpleLevelOk(side, Level(price, r))
  {
    var r := SimpleFrontFilled(queue, m);
    forall j | 0 <= j < |r|
      ensures LiftAll(r)[j].price == price && LiftAll(r)[j].side == side && Live(LiftAll(r)[j])
    {
      var k := if m == queue[0].qty then j + 1 else j;
      assert LiftAll(queue)[k] == Lift(queue[k]);
    }
  }

  /** What the matching loops keep. */
  datatype SimpleFrame = SimpleFrame(
    goal: SimpleOutcome,
    incoming: BookOrder,
    symbol: Symbol,
    ts: Timestamp,
    other: seq<BookOrder>)

  ghost predicate SimpleProgress(f: SimpleFrame, index: map<OrderId, Location>, trades: seq<Trade>,
                                 flat: seq<BookOrder>, left: Quantity)
  {
    && f.goal == SimplePrepend(trades, SimpleWalk(flat, f.incoming, f.symbol, f.ts, left))
    && SimpleUnshared(flat, f.other)
    && SimpleIndexOk(index, flat, f.other)
  }

  // ---------------------------------------------------------------- ladders of simple orders

  lemma {:induction false} SimpleLevelAt(side: Side, levels: seq<Level<BookOrder>>, k: nat)
    requires SimpleLadderOk(side, levels) && k < |levels|
    ensures SimpleLevelOk(side, levels[k])
    ensures levels[k].queue != []
    ensures forall j :: 0 <= j < |levels[k].queue| ==>
              && levels[k].queue[j].price == levels[k].price
              && levels[k].queue[j].side == side && 0 < levels[k].queue[j].qty
  {
    assert LevelOk(side, LiftLevels(levels)[k]);
    forall j | 0 <= j < |levels[k].queue|
      ensures levels[k].queue[j].price == levels[k].price
      ensures levels[k].queue[j].side == side && 0 < levels[k].queue[j].qty
    {
      assert LiftLevels(levels)[k].queue[j] == Lift(levels[k].queue[j]);
    }
  }

  lemma {:induction false} SimpleTailOk(side: Side, levels: seq<Level<BookOrder>>)
    requires levels != [] && SimpleLadderOk(side, levels)
    ensures SimpleLadderOk(side, levels[1..])
  {
    TailOk(side, LiftLevels(levels));
    assert LiftLevels(levels)[1..] == LiftLevels(levels[1..]);
  }

  lemma {:induction false} SimpleFrontReplaced(side: Side, levels: seq<Level<BookOrder>>, queue: seq<BookOrder>)
    requires levels != [] && SimpleLadderOk(side, levels) && SimpleLevelOk(side, Level(levels[0].price, queue))
    ensures var r := [Level(levels[0].price, queue)] + levels[1..];
            SimpleLadderOk(side, r) && Flatten(r) == queue + Flatten(levels[1..])
  {
    var r := [Level(levels[0].price, queue)] + levels[1..];
    FrontReplaced(side, LiftLevels(levels), LiftAll(queue));
    assert LiftLevels(r) == LiftLevels(levels)[0 := Level(levels[0].price, LiftAll(queue))];
    assert r[1..] == levels[1..];
  }

  /** Nothing eligible in front, or no quantity left: the walk is over. */
  lemma {:induction false} SimpleWalkStops(side: Side, levels: seq<Level<BookOrder>>, n: BookOrder, symbol: Symbol,
                                           ts: Timestamp, left: Quantity)
    requires SimpleLadderOk(side, levels)
    requires left <= 0 || levels == [] || !SimpleEligible(n, levels[0].price)
    ensures SimpleWalk(Flatten(levels), n, symbol, ts, left) == SimpleOutcome([], Flatten(levels), left)
  {
    if levels != [] {
      SimpleLevelAt(side, levels, 0);
      assert Flatten(levels)[0] == levels[0].queue[0];
    }
  }

  // ---------------------------------------------------------------- adding and cancelling

  /** The ladder after `x` joins the back of its price level. */
  function SimpleJoined(side: Side, levels: seq<Level<BookOrder>>, x: BookOrder): seq<Level<BookOrder>> {
    var k := Seek(side, levels, x.price);
    if k < |levels| && levels[k].price == x.price
    then levels[..k] + [Level(x.price, levels[k].queue + [x])] + levels[k + 1..]
    else levels[..k] + [Level(x.price, [x])] + levels[k..]
  }

  lemma {:induction false} JoinedLifts(side: Side, levels: seq<Level<BookOrder>>, x: BookOrder)
    ensures LiftLevels(SimpleJoined(side, levels, x)) == Joined(side, LiftLevels(levels), Lift(x))
  {
    hide LiftAll;
    hide Seek;
    hide Rank;
    SeekLifts(side, levels, x.price);
    var k := Seek(side, levels, x.price);
    LiftOne(x);
    if k < |levels| && levels[k].price == x.price {
      LiftConcat(levels[k].queue, [x]);
      SpliceLifts(levels, k, k + 1, Level(x.price, levels[k].queue + [x]));
    } else {
      SpliceLifts(levels, k, k, Level(x.price, [x]));
    }
  }

  lemma {:induction false} LiftOne(x: BookOrder)
    ensures LiftAll([x]) == [Lift(x)]
  {
  }

  lemma {:induction false} SpliceLifts(levels: seq<Level<BookOrder>>, k: nat, j: nat, l: Level<BookOrder>)
    requires k <= j <= |levels|
    ensures LiftLevels(levels[..k] + [l] + levels[j..])
         == LiftLevels(levels)[..k] + [Level(l.price, LiftAll(l.queue))] + LiftLevels(levels)[j..]
  {
  }

  lemma {:induction false} SliceLifts(levels: seq<Level<BookOrder>>, k: nat, j: nat)
    requires k <= j <= |levels|
    ensures LiftLevels(levels)[k..j] == LiftLevels(levels[k..j])
    ensures Flatten(LiftLevels(levels)[k..j]) == LiftAll(Flatten(levels[k..j]))
  {
    assert LiftLevels(levels)[k..j] == LiftLevels(levels[k..j]);
    FlattenLifts(levels[k..j]);
  }

  /** Where a new order goes in the flat list: after the better levels and its own. */
  lemma {:induction false} SimpleSlot(side: Side, levels: seq<Level<BookOrder>>, price: Price, j: nat)
    requires SimpleLadderOk(side, levels) && j <= |levels|
    requires forall i :: 0 <= i < j ==> Rank(side, levels[i].price) <= Rank(side, price)
    requires forall i :: j <= i < |levels| ==> Rank(side, price) < Rank(side, levels[i].price)
    ensures Slot(side, LiftAll(Flatten(levels)), price) == |Flatten(levels[..j])|
    ensures Flatten(levels) == Flatten(levels[..j]) + Flatten(levels[j..])
  {
    var lifted := LiftLevels(levels);
    FlattenSplit(levels, j);
    SliceLifts(levels, 0, j);
    SliceLifts(levels, j, |levels|);
    var a, b := LiftAll(Flatten(levels[..j])), LiftAll(Flatten(levels[j..]));
    SliceOk(side, lifted, 0, j);
    FlatRankBelow(side, lifted[..j], Rank(side, price) + 1);
    SliceOk(side, lifted, j, |levels|);
    FlatRankAbove(side, lifted[j..|levels|], Rank(side, price));
    LiftConcat(Flatten(levels[..j]), Flatten(levels[j..]));
    assert levels[j..] == levels[j..|levels|];
    SlotIs(side, a, b, price);
  }

  lemma {:induction false} SimpleJoinedInserts(side: Side, levels: seq<Level<BookOrder>>, x: BookOrder)
    requires SimpleLadderOk(side, levels) && x.side == side
    ensures SimpleLadderOk(side, SimpleJoined(side, levels, x)) <==> 0 < x.qty
    ensures Flatten(SimpleJoined(side, levels, x)) == SimpleInsert(side, Flatten(levels), x)
  {
    SimpleJoinedOkIff(side, levels, x);
    hide LadderOk;
    hide Insert;
    var k := Seek(side, levels, x.price);
    if k < |levels| {
      RanksApart(side, levels, k);
    }
    if k < |levels| && levels[k].price == x.price {
      JoinsQueue(side, levels, x, k);
    } else {
      OpensLevel(side, levels, x, k);
    }
  }

  /** A resting order without quantity is what a well-formed ladder never holds. */
  lemma {:induction false} SimpleJoinedOkIff(side: Side, levels: seq<Level<BookOrder>>, x: BookOrder)
    requires SimpleLadderOk(side, levels) && x.side == side
    ensures SimpleLadderOk(side, SimpleJoined(side, levels, x)) <==> 0 < x.qty
  {
    var r, k := SimpleJoined(side, levels, x), Seek(side, levels, x.price);
    if 0 < x.qty {
      JoinedLifts(side, levels, x);
      JoinedOk(side, LiftLevels(levels), Lift(x));
    } else {
      assert r[k].queue[|r[k].queue| - 1] == x;
      if SimpleLadderOk(side, r) {
        SimpleLevelAt(side, r, k);
      }
    }
  }

  lemma {:induction false} JoinsQueue(side: Side, levels: seq<Level<BookOrder>>, x: BookOrder, k: nat)
    requires SimpleLadderOk(side, levels) && k < |levels| && levels[k].price == x.price
    requires forall i :: 0 <= i < k ==> Rank(side, levels[i].price) < Rank(side, x.price)
    requires forall i :: k < i < |levels| ==> Rank(side, x.price) < Rank(side, levels[i].price)
    ensures Flatten(levels[..k] + [Level(x.price, levels[k].queue + [x])] + levels[k + 1..])
         == SimpleInsert(side, Flatten(levels), x)
  {
    var q := levels[k].queue;
    SimpleSlot(side, levels, x.price, k + 1);
    FlattenThrough(levels, k);
    FlattenSplice(levels, k, k + 1, [Level(x.price, q + [x])]);
    FlattenOne(Level(x.price, q + [x]));
    hide *;
    SnocInside(Flatten(levels[..k]), q, Flatten(levels[k + 1..]), x);
  }

  lemma {:induction false} FlattenThrough(levels: seq<Level<BookOrder>>, k: nat)
    requires k < |levels|
    ensures Flatten(levels[..k + 1]) == Flatten(levels[..k]) + levels[k].queue
  {
    assert levels[..k + 1] == levels[..k] + [levels[k]];
    FlattenConcat(levels[..k], [levels[k]]);
    FlattenOne(levels[k]);
  }

  lemma {:induction false} OpensLevel(side: Side, levels: seq<Level<BookOrder>>, x: BookOrder, k: nat)
    requires SimpleLadderOk(side, levels) && k <= |levels|
    requires forall i :: 0 <= i < k ==> Rank(side, levels[i].price) < Rank(side, x.price)
    requires forall i :: k <= i < |levels| ==> Rank(side, x.price) < Rank(side, levels[i].price)
    ensures Flatten(levels[..k] + [Level(x.price, [x])] + levels[k..]) == SimpleInsert(side, Flatten(levels), x)
  {
    hide SimpleLadderOk;
    hide Flatten;
    hide Slot;
    hide LiftAll;
    SimpleSlot(side, levels, x.price, k);
    FlattenSplice(levels, k, k, [Level(x.price, [x])]);
    FlattenOne(Level(x.price, [x]));
    SnocInside(Flatten(levels[..k]), [], Flatten(levels[k..]), x);
  }

  lemma {:induction false} RanksApart(side: Side, levels: seq<Level<BookOrder>>, k: nat)
    requires SimpleLadderOk(side, levels) && k < |levels|
    ensures forall i :: 0 <= i < k ==> Rank(side, levels[i].price) < Rank(side, levels[k].price)
    ensures forall i :: k < i < |levels| ==> Rank(side, levels[k].price) < Rank(side, levels[i].price)
  {
    forall i, j | 0 <= i < j < |levels|
      ensures Rank(side, levels[i].price) < Rank(side, levels[j].price)
    {
      assert LiftLevels(levels)[i].price == levels[i].price && LiftLevels(levels)[j].price == levels[j].price;
    }
  }

  lemma {:induction false} SnocInside(a: seq<BookOrder>, q: seq<BookOrder>, b: seq<BookOrder>, x: BookOrder)
    ensures a + ((q + [x]) + b) == ((a + q) + b)[..|a| + |q|] + [x] + ((a + q) + b)[|a| + |q|..]
  {
    assert ((a + q) + b)[..|a| + |q|] == a + q;
    assert ((a + q) + b)[|a| + |q|..] == b;
  }

  lemma {:induction false} InsertLifts(side: Side, flat: seq<BookOrder>, x: BookOrder)
    ensures LiftAll(SimpleInsert(side, flat, x)) == Insert(side, LiftAll(flat), Lift(x))
  {
    var k := Slot(side, LiftAll(flat), x.price);
    LiftConcat(flat[..k] + [x], flat[k..]);
    LiftConcat(flat[..k], [x]);
    assert LiftAll([x]) == [Lift(x)];
    assert LiftAll(flat[..k]) == LiftAll(flat)[..k];
    assert LiftAll(flat[k..]) == LiftAll(flat)[k..];
  }

  /** Adding keeps ids unique exactly when the id is new. */
  lemma {:induction false} InsertUnsharedIff(side: Side, flat: seq<L3Order>, other: seq<L3Order>, x: L3Order)
    requires Unshared(flat, other)
    ensures Unshared(Insert(side, flat, x), other) <==> !Has(flat, x.id) && !Has(other, x.id)
  {
    var r, k := Insert(side, flat, x), Slot(side, flat, x.price);
    InsertAt(side, flat, x, k);
    if Has(flat, x.id) {
      var p := Position(flat, x.id);
      InsertAt(side, flat, x, if p < k then p else p + 1);
    } else if Has(other, x.id) {
      assert r[k].id == other[Position(other, x.id)].id;
    } else {
      HasMeansIn(flat, x.id);
      HasMeansIn(other, x.id);
      forall i, j | 0 <= i < j < |r|
        ensures r[i].id != r[j].id
      {
        InsertAt(side, flat, x, i);
        InsertAt(side, flat, x, j);
      }
      forall i, j | 0 <= i < |r| && 0 <= j < |other|
        ensures r[i].id != other[j].id
      {
        InsertAt(side, flat, x, i);
      }
    }
  }

  /** The index entry and the id lead to the order, in its level and in the flat list. */
  lemma {:induction false} SimpleLocate(side: Side, levels: seq<Level<BookOrder>>, id: OrderId, price: Price)
    requires SimpleLadderOk(side, levels) && SimpleHas(Flatten(levels), id)
    requires price == Flatten(levels)[Position(LiftAll(Flatten(levels)), id)].price
    ensures var k := Seek(side, levels, price);
            && k < |levels| && levels[k].price == price && SimpleHas(levels[k].queue, id)
            && Position(LiftAll(Flatten(levels)), id)
            == |Flatten(levels[..k])| + Position(LiftAll(levels[k].queue), id)
  {
    FlattenLifts(levels);
    SeekLifts(side, levels, price);
    Locate(side, LiftLevels(levels), id);
    SliceLifts(levels, 0, Seek(side, levels, price));
  }

  /** Taking entry `j` of level `k` out of the ladder takes it out of the flat list. */
  lemma {:induction false} SimpleLeft(side: Side, levels: seq<Level<BookOrder>>, k: nat, j: nat)
    requires SimpleLadderOk(side, levels) && k < |levels| && j < |levels[k].queue|
    ensures var queue := levels[k].queue[..j] + levels[k].queue[j + 1..];
            var mid := if queue == [] then [] else [Level(levels[k].price, queue)];
            var r := levels[..k] + mid + levels[k + 1..];
            var at := |Flatten(levels[..k])| + j;
            && SimpleLadderOk(side, r)
            && at < |Flatten(levels)|
            && Flatten(r) == Flatten(levels)[..at] + Flatten(levels)[at + 1..]
  {
    var q := levels[k].queue;
    var queue := q[..j] + q[j + 1..];
    var mid := if queue == [] then [] else [Level(levels[k].price, queue)];
    FlattenAround(levels, k);
    FlattenSplice(levels, k, k + 1, mid);
    if queue != [] {
      FlattenOne(mid[0]);
    }
    SimpleLeftOk(side, levels, k, j, mid);
    hide *;
    DropInside(Flatten(levels[..k]), q, Flatten(levels[k + 1..]), j);
  }

  lemma {:induction false} DropInside(a: seq<BookOrder>, q: seq<BookOrder>, b: seq<BookOrder>, j: nat)
    requires j < |q|
    ensures var flat, at := a + (q + b), |a| + j;
            a + ((q[..j] + q[j + 1..]) + b) == flat[..at] + flat[at + 1..]
  {
  }

  lemma {:induction false} SimpleLeftOk(side: Side, levels: seq<Level<BookOrder>>, k: nat, j: nat,
                                        mid: seq<Level<BookOrder>>)
    requires SimpleLadderOk(side, levels) && k < |levels| && j < |levels[k].queue|
    requires var queue := levels[k].queue[..j] + levels[k].queue[j + 1..];
             mid == if queue == [] then [] else [Level(levels[k].price, queue)]
    ensures SimpleLadderOk(side, levels[..k] + mid + levels[k + 1..])
  {
    var lifted := LiftLevels(levels);
    assert LevelOk(side, lifted[k]);
    if mid != [] {
      var l := Level(levels[k].price, LiftAll(mid[0].queue));
      forall i | 0 <= i < |l.queue|
        ensures l.queue[i] == lifted[k].queue[if i < j then i else i + 1]
      {
      }
      SpliceOk(side, lifted, k, [l]);
      assert LiftLevels(levels[..k] + mid + levels[k + 1..]) == lifted[..k] + [l] + lifted[k + 1..];
    } else {
      SpliceOk(side, lifted, k, []);
      assert LiftLevels(levels[..k] + mid + levels[k + 1..]) == lifted[..k] + [] + lifted[k + 1..];
    }
  }

  class OrderBook {
    const symbol: Symbol
    var bids: seq<Level<BookOrder>>
    var asks: seq<Level<BookOrder>>
    var index: map<OrderId, Location>

    ghost function View(): SimpleBook
      reads this
    {
      SimpleBook(Flatten(bids), Flatten(asks))
    }

    /** Well-formed ladders, no id twice, and an exact index. */
    ghost predicate Valid()
      reads this
    {
      && SimpleLadderOk(Buy, bids)
      && SimpleLadderOk(Sell, asks)
      && SimpleUnshared(Flatten(bids), Flatten(asks))
      && SimpleUnshared(Flatten(asks), Flatten(bids))
      && SimpleIndexOk(index, Flatten(bids), Flatten(asks))
    }

    constructor (symbol: Symbol)
      ensures Valid() && View() == SimpleBook([], [])
    {
      this.symbol := symbol;
      bids, asks, index := [], [], map[];
    }

    /** Matches against the book; the trades are handed back, nothing is added to the book. */
    method MatchIncoming(n: BookOrder, ts: Timestamp) returns (trades: seq<Trade>, left: Quantity)
      requires Valid()
      modifies this
      ensures Valid()
      ensures var side := n.side.Opposite();
              var w := SimpleWalk(old(View()).On(side), n, symbol, ts, n.qty);
              trades == w.trades && left == w.left && View() == old(View()).With(side, w.rest)
    {
      IndexSymmetric(index, LiftAll(Flatten(bids)), LiftAll(Flatten(asks)));
      if n.side.Buy? {
        asks, trades, left := MatchSide(asks, n, ts, Flatten(bids));
      } else {
        bids, trades, left := MatchSide(bids, n, ts, Flatten(asks));
      }
      IndexSymmetric(index, LiftAll(Flatten(bids)), LiftAll(Flatten(asks)));
    }

    /** Best level first, front order first, while quantity is left. */
    method MatchSide(levels0: seq<Level<BookOrder>>, n: BookOrder, ts: Timestamp, ghost other: seq<BookOrder>)
      returns (levels: seq<Level<BookOrder>>, trades: seq<Trade>, left: Quantity)
      requires SimpleLadderOk(n.side.Opposite(), levels0)
      requires SimpleUnshared(Flatten(levels0), other) && SimpleIndexOk(index, Flatten(levels0), other)
      modifies this`index
      ensures SimpleOutcome(trades, Flatten(levels), left) == SimpleWalk(Flatten(levels0), n, symbol, ts, n.qty)
      ensures SimpleLadderOk(n.side.Opposite(), levels)
      ensures SimpleUnshared(Flatten(levels), other) && SimpleIndexOk(index, Flatten(levels), other)
    {
      ghost var side := n.side.Opposite();
      ghost var f := SimpleFrame(SimpleWalk(Flatten(levels0), n, symbol, ts, n.qty), n, symbol, ts, other);
      levels, trades, left := levels0, [], n.qty;
      while left > 0 && levels != []
        invariant SimpleLadderOk(side, levels)
        invariant SimpleProgress(f, index, trades, Flatten(levels), left)
        decreases left, |levels|
      {
        var price := levels[0].price;
        SimpleLevelAt(side, levels, 0);
        if n.kind.Limit? {
          if n.side.Buy? && price > n.price {
            break;
          }
          if n.side.Sell? && price < n.price {
            break;
          }
        }
        ghost var tail := Flatten(levels[1..]);
        var queue;
        queue, trades, left := MatchQueue(levels[0], n, ts, trades, left, tail, f);
        SimpleTailOk(side, levels);
        if queue == [] {
          assert queue + tail == tail;
          levels := levels[1..];
        } else {
          SimpleFrontReplaced(side, levels, queue);
          levels := [Level(price, queue)] + levels[1..];
        }
      }
      SimpleWalkStops(side, levels, n, symbol, ts, left);
    }

    method MatchQueue(level: Level<BookOrder>, n: BookOrder, ts: Timestamp, trades0: seq<Trade>, left0: Quantity,
                      ghost tail: seq<BookOrder>, ghost f: SimpleFrame)
      returns (queue: seq<BookOrder>, trades: seq<Trade>, left: Quantity)
      requires f.incoming == n && f.symbol == symbol && f.ts == ts
      requires SimpleLevelOk(n.side.Opposite(), level) && 0 < left0 && SimpleEligible(n, level.price)
      requires SimpleProgress(f, index, trades0, level.queue + tail, left0)
      modifies this`index
      ensures SimpleProgress(f, index, trades, queue + tail, left)
      ensures 0 <= left < left0
      ensures queue != [] ==> left == 0 && SimpleLevelOk(n.side.Opposite(), Level(level.price, queue))
    {
      queue, trades, left := level.queue, trades0, left0;
      while left > 0 && queue != []
        invariant 0 <= left <= left0 && (queue == level.queue || left < left0)
        invariant queue != [] ==> SimpleLevelOk(n.side.Opposite(), Level(level.price, queue))
        invariant SimpleProgress(f, index, trades, queue + tail, left)
        decreases left
      {
        var resting := queue[0];
        assert LiftAll(queue)[0] == Lift(resting);
        var matched := Min(left, resting.qty);
        SimpleFillAdvances(f.goal, trades, queue, tail, n, symbol, ts, left);
        SimpleIndexAfterFill(index, queue, tail, f.other, matched);
        SimpleLevelAfterFill(n.side.Opposite(), level.price, queue, matched);
        ghost var next := SimpleFrontFilled(queue, matched);
        trades := trades + [Trade(0, resting.id, n.id, 0, 0, symbol, n.side, level.price, matched, ts)];
        left := left - matched;
        resting := resting.(qty := resting.qty - matched);
        if resting.qty == 0 {
          index := index - {resting.id};
          queue := queue[1..];
        } else {
          queue := [resting] + queue[1..];
        }
        assert queue == next;
      }
    }

    /** Puts an order into the book without matching it and without looking for its id. */
    method AddOrder(x: BookOrder)
      requires Valid()
      modifies this
      ensures View() == old(View()).With(x.side, SimpleInsert(x.side, old(View()).On(x.side), x))
      ensures index == old(index)[x.id := Location(x.side, x.price)]
      // Nothing is checked: a second order under one id cannot be told apart by the index,
      // and an order without quantity would never leave by being filled.  So the book stays
      // consistent exactly when the quantity is positive and the id is new.
      ensures Valid() <==>
              0 < x.qty && !SimpleHas(old(View()).bids, x.id) && !SimpleHas(old(View()).asks, x.id)
    {
      ghost var own, other := View().On(x.side), View().On(x.side.Opposite());
      AddedIndex(own, other, x);
      if x.side.Buy? {
        bids := Enqueue(Buy, bids, x);
      } else {
        asks := Enqueue(Sell, asks, x);
      }
      index := index[x.id := Location(x.side, x.price)];
    }

    method Enqueue(side: Side, levels0: seq<Level<BookOrder>>, x: BookOrder) returns (levels: seq<Level<BookOrder>>)
      requires SimpleLadderOk(side, levels0) && x.side == side
      ensures SimpleLadderOk(side, levels) <==> 0 < x.qty
      ensures Flatten(levels) == SimpleInsert(side, Flatten(levels0), x)
    {
      SimpleJoinedInserts(side, levels0, x);
      levels := levels0;
      var k := Seek(side, levels, x.price);
      if !(k < |levels| && levels[k].price == x.price) {
        levels := levels[..k] + [Level(x.price, [])] + levels[k..];
        assert levels[k].queue + [x] == [x];
      }
      levels := levels[k := Level(x.price, levels[k].queue + [x])];
      assert levels == SimpleJoined(side, levels0, x);
    }

    lemma {:induction false} AddedIndex(own: seq<BookOrder>, other: seq<BookOrder>, x: BookOrder)
      requires SimpleUnshared(own, other) && SimpleUnshared(other, own)
      requires SimpleIndexOk(index, own, other) || SimpleIndexOk(index, other, own)
      ensures var r, index' := SimpleInsert(x.side, own, x), index[x.id := Location(x.side, x.price)];
              var isNew := !SimpleHas(own, x.id) && !SimpleHas(other, x.id);
              && (SimpleUnshared(r, other) <==> isNew)
              && (isNew ==>
                    SimpleUnshared(other, r) && SimpleIndexOk(index', r, other) && SimpleIndexOk(index', other, r))
    {
      InsertLifts(x.side, own, x);
      InsertUnsharedIff(x.side, LiftAll(own), LiftAll(other), Lift(x));
      IndexSymmetric(index, LiftAll(own), LiftAll(other));
      if !SimpleHas(own, x.id) && !SimpleHas(other, x.id) {
        var index' := index[x.id := Location(x.side, x.price)];
        IndexFinds(index, LiftAll(own), LiftAll(other), x.id);
        IndexInserts(index, x.side, LiftAll(own), LiftAll(other), Lift(x));
        IndexSymmetric(index', LiftAll(SimpleInsert(x.side, own, x)), LiftAll(other));
      }
    }

    /** Removes an order by id; the answer says whether it was there. */
    method CancelOrder(id: OrderId) returns (found: bool)
      requires Valid()
      modifies this
      ensures Valid()
      ensures found <==> SimpleHas(old(View()).bids, id) || SimpleHas(old(View()).asks, id)
      ensures View() == SimpleCancel(old(View()), id)
    {
      IndexFinds(index, LiftAll(Flatten(bids)), LiftAll(Flatten(asks)), id);
      if id !in index {
        return false;
      }
      var loc := index[id];
      RemovedIndex(id);
      if loc.side.Buy? {
        bids := Erase(Buy, bids, loc.price, id);
      } else {
        asks := Erase(Sell, asks, loc.price, id);
      }
      index := index - {id};
      found := true;
    }

    method Erase(side: Side, levels0: seq<Level<BookOrder>>, price: Price, id: OrderId)
      returns (levels: seq<Level<BookOrder>>)
      requires SimpleLadderOk(side, levels0) && SimpleHas(Flatten(levels0), id)
      requires price == Flatten(levels0)[Position(LiftAll(Flatten(levels0)), id)].price
      ensures SimpleLadderOk(side, levels)
      ensures Flatten(levels) == SimpleRemoval(Flatten(levels0), id)
    {
      levels := levels0;
      SimpleLocate(side, levels, id, price);
      var k := Seek(side, levels, price);
      var j := Position(LiftAll(levels[k].queue), id);
      SimpleLeft(side, levels, k, j);
      var queue := levels[k].queue[..j] + levels[k].queue[j + 1..];
      if queue == [] {
        levels := levels[..k] + levels[k + 1..];
        assert levels == levels0[..k] + [] + levels0[k + 1..];
      } else {
        levels := levels[k := Level(price, queue)];
        assert levels == levels0[..k] + [Level(price, queue)] + levels0[k + 1..];
      }
    }

    lemma {:induction false} RemovedIndex(id: OrderId)
      requires Valid() && id in index
      ensures var loc := index[id];
              var own, other := View().On(loc.side), View().On(loc.side.Opposite());
              && loc.side == (if SimpleHas(View().bids, id) then Buy else Sell)
              && SimpleHas(own, id)
              && loc.price == own[Position(LiftAll(own), id)].price
              && SimpleUnshared(SimpleRemoval(own, id), other) && SimpleUnshared(other, SimpleRemoval(own, id))
              && SimpleIndexOk(index - {id}, SimpleRemoval(own, id), other)
              && SimpleIndexOk(index - {id}, other, SimpleRemoval(own, id))
    {
      FlattenLifts(bids);
      FlattenLifts(asks);
      FlatSideOk(Buy, LiftLevels(bids));
      FlatSideOk(Sell, LiftLevels(asks));
      IndexFinds(index, LiftAll(Flatten(bids)), LiftAll(Flatten(asks)), id);
      IndexSymmetric(index, LiftAll(Flatten(bids)), LiftAll(Flatten(asks)));
      RemovalIndex(index, View().On(index[id].side), View().On(index[id].side.Opposite()), id);
    }
  }

  /** Erasing an order and its index entry together keeps the index exact. */
  lemma {:induction false} RemovalIndex(index: map<OrderId, Location>, own: seq<BookOrder>, other: seq<BookOrder>,
                                        id: OrderId)
    requires SimpleUnshared(own, other) && SimpleUnshared(other, own)
    requires SimpleIndexOk(index, own, other) && SimpleHas(own, id)
    ensures var r := SimpleRemoval(own, id);
            && SimpleUnshared(r, other) && SimpleUnshared(other, r)
            && SimpleIndexOk(index - {id}, r, other) && SimpleIndexOk(index - {id}, other, r)
  {
    var r := SimpleRemoval(own, id);
    var k := Position(LiftAll(own), id);
    forall i | 0 <= i < |r|
      ensures LiftAll(r)[i] == LiftAll(own)[if i < k then i else i + 1]
    {
    }
    IndexRemoves(index, LiftAll(own), LiftAll(other), id);
    forall i | 0 <= i < |r|
      ensures Removal(LiftAll(own), id)[i].id == LiftAll(r)[i].id
      ensures Removal(LiftAll(own), id)[i].price == LiftAll(r)[i].price
      ensures Removal(LiftAll(own), id)[i].side == LiftAll(r)[i].side
    {
      RemovalAt(LiftAll(own), id, i);
    }
    IndexSame(index - {id}, Removal(LiftAll(own), id), LiftAll(r), LiftAll(other));
    IndexSymmetric(index - {id}, LiftAll(r), LiftAll(other));
  }

  lemma {:induction false} IndexSame(index: map<OrderId, Location>, a: seq<L3Order>, b: seq<L3Order>,
                                     other: seq<L3Order>)
    requires |a| == |b|
    requires forall i :: 0 <= i < |a| ==> a[i].id == b[i].id && a[i].price == b[i].price && a[i].side == b[i].side
    requires IndexOk(index, a, other)
    ensures IndexOk(index, b, other)
  {
    forall id | id in index
      ensures Has(b, id) || Has(other, id)
    {
      if Has(a, id) {
        assert b[Position(a, id)].id == id;
        HasMeansIn(b, id);
      }
    }
  }

  /** Adding one order twice is accepted, and leaves two orders behind one index entry. */
  method AddTwice(x: BookOrder) returns (b: OrderBook)
    requires 0 < x.qty
    ensures b.View().On(x.side) == [x, x] && b.index.Keys == {x.id} && !b.Valid()
  {
    b := new OrderBook("");
    b.AddOrder(x);
    b.AddOrder(x);
    InsertTwice(x);
  }

  lemma {:induction false} InsertTwice(x: BookOrder)
    ensures SimpleInsert(x.side, [], x) == [x]
    ensures SimpleInsert(x.side, [x], x) == [x, x]
    ensures SimpleHas([x], x.id)
  {
    assert LiftAll([x]) == [Lift(x)];
    assert [Lift(x)][1..] == [];
    assert Slot(x.side, [Lift(x)], x.price) == 1;
  }
}
