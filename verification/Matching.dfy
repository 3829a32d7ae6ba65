/** Facts the matching loops need about one step of the greedy walk. */
module Matching {
  import opened Types
  import opened PriceTime
  import opened BookSpec
  import opened BookInvariant
  import opened Ladder

  function Prepend(trades: seq<Trade>, w: Outcome): Outcome {
    Outcome(trades + w.trades, w.rest, w.left)
  }

  lemma {:induction false} PrependTwice(a: seq<Trade>, b: seq<Trade>, w: Outcome)
    ensures Prepend(a, Prepend(b, w)) == Prepend(a + b, w)
  {
    assert a + (b + w.trades) == (a + b) + w.trades;
  }

  /** The list after the front order lost `m` units. */
  function AfterFill(flat: seq<L3Order>, m: Quantity): seq<L3Order>
    requires flat != []
  {
    if m == flat[0].Available() then flat[1..] else [Hit(flat[0], m)] + flat[1..]
  }

  /** One trade with the front order, then the walk over what remains. */
  lemma {:induction false} WalkStep(flat: seq<L3Order>, a: Aggressor, qty: Quantity, tid: nat)
    requires flat != [] && Live(flat[0]) && 0 < qty && Eligible(a.order, flat[0].price)
    ensures var m := Min(qty, flat[0].Available());
            Walk(flat, a, qty, tid) ==
              Prepend([MakeTrade(flat[0], a, tid, m)], Walk(AfterFill(flat, m), a, qty - m, tid + 1))
  {
    var m := Min(qty, flat[0].Available());
    if m < flat[0].Available() {
      ClosedFormLast(flat, a, qty, tid);
      assert [MakeTrade(flat[0], a, tid, qty)] + [] == [MakeTrade(flat[0], a, tid, qty)];
    }
  }

  lemma {:induction false} SnocAssociates(a: seq<Trade>, b: seq<Trade>, t: Trade)
    ensures a + b + [t] == a + (b + [t])
  {
  }

  /** The queue after its front order lost `m` units. */
  function FrontFilled(queue: seq<L3Order>, m: Quantity): seq<L3Order>
    requires queue != []
  {
    if m == queue[0].Available() then queue[1..] else queue[0 := Hit(queue[0], m)]
  }

  /** Progress of the matching loops: trades done so far, then the walk over the rest. */
  lemma {:induction false} FillAdvances(goal: Outcome, trades: seq<Trade>, queue: seq<L3Order>, tail: seq<L3Order>,
                                        a: Aggressor, left: Quantity, tid: nat)
    requires queue != [] && Live(queue[0]) && 0 < left && Eligible(a.order, queue[0].price)
    requires goal == Prepend(trades, Walk(queue + tail, a, left, tid))
    ensures var m := Min(left, queue[0].Available());
            goal == Prepend(trades + [MakeTrade(queue[0], a, tid, m)],
                            Walk(FrontFilled(queue, m) + tail, a, left - m, tid + 1))
  {
    var m := Min(left, queue[0].Available());
    WalkStep(queue + tail, a, left, tid);
    assert (queue + tail)[0] == queue[0];
    assert AfterFill(queue + tail, m) == FrontFilled(queue, m) + tail;
    PrependTwice(trades, [MakeTrade(queue[0], a, tid, m)], Walk(FrontFilled(queue, m) + tail, a, left - m, tid + 1));
  }

  /** Filling the front of a well-formed level leaves a well-formed level, or none. */
  lemma {:induction false} LevelAfterFill(side: Side, price: Price, queue: seq<L3Order>, m: Quantity)
    requires LevelOk(side, Level(price, queue)) && 0 < m <= queue[0].Available()
    ensures var r := FrontFilled(queue, m);
            && (r != [] ==> LevelOk(side, Level(price, r)))
            && |r| == if m == queue[0].Available() then |queue| - 1 else |queue|
  {
    if m < queue[0].Available() {
      HitConserves(queue[0], m);
    }
  }

  // ---------------------------------------------------------------- the id index

  datatype Location = Location(side: Side, price: Price)

  ghost predicate Indexed(index: map<OrderId, Location>, flat: seq<L3Order>) {
    forall i :: 0 <= i < |flat| ==>
      flat[i].id in index && index[flat[i].id] == Location(flat[i].side, flat[i].price)
  }

  /** The index knows exactly the orders of the two lists, each where it rests. */
  ghost predicate IndexOk(index: map<OrderId, Location>, mine: seq<L3Order>, other: seq<L3Order>) {
    && Indexed(index, mine)
    && Indexed(index, other)
    && forall id :: id in index ==> Has(mine, id) || Has(other, id)
  }

  /** The index is determined by the resting orders. */
  lemma {:induction false} IndexUnique(i1: map<OrderId, Location>, i2: map<OrderId, Location>,
                                       mine: seq<L3Order>, other: seq<L3Order>)
    requires IndexOk(i1, mine, other) && IndexOk(i2, mine, other)
    ensures i1 == i2
  {
    forall id
      ensures id in i1 <==> id in i2
      ensures id in i1 ==> i1[id] == i2[id]
    {
      if Has(mine, id) {
        assert mine[Position(mine, id)].id == id;
      } else if Has(other, id) {
        assert other[Position(other, id)].id == id;
      }
    }
  }

  ghost predicate Unshared(flat: seq<L3Order>, other: seq<L3Order>) {
    DistinctIds(flat) && Disjoint(flat, other)
  }

  /** Removing the front order and its index entry together keeps the index exact. */
  lemma {:induction false} IndexDropsFront(index: map<OrderId, Location>, flat: seq<L3Order>, other: seq<L3Order>)
    requires flat != [] && Unshared(flat, other) && IndexOk(index, flat, other)
    ensures Unshared(flat[1..], other) && IndexOk(index - {flat[0].id}, flat[1..], other)
  {
    forall id | id in index - {flat[0].id}
      ensures Has(flat[1..], id) || Has(other, id)
    {
      assert flat == [flat[0]] + flat[1..];
      HasMeansIn(flat, id);
      HasMeansIn(flat[1..], id);
      if Has(flat, id) {
        assert flat[1..][Position(flat, id) - 1].id == id;
      }
    }
  }

  /** A partial fill moves nobody. */
  lemma {:induction false} IndexKeepsFront(index: map<OrderId, Location>, flat: seq<L3Order>, x: L3Order,
                                           other: seq<L3Order>)
    requires flat != [] && Unshared(flat, other) && IndexOk(index, flat, other)
    requires x.id == flat[0].id && x.price == flat[0].price && x.side == flat[0].side
    ensures Unshared([x] + flat[1..], other) && IndexOk(index, [x] + flat[1..], other)
  {
    var r := [x] + flat[1..];
    assert forall i :: 0 <= i < |flat| ==>
             r[i].id == flat[i].id && r[i].price == flat[i].price && r[i].side == flat[i].side;
    forall id | id in index
      ensures Has(r, id) || Has(other, id)
    {
      if Has(flat, id) {
        assert r[Position(flat, id)].id == id;
        HasMeansIn(r, id);
      }
    }
  }

  lemma {:induction false} IndexAfterFill(index: map<OrderId, Location>, queue: seq<L3Order>, tail: seq<L3Order>,
                                          other: seq<L3Order>, m: Quantity)
    requires queue != [] && Live(queue[0]) && 0 < m <= queue[0].Available()
    requires Unshared(queue + tail, other) && IndexOk(index, queue + tail, other)
    ensures Unshared(FrontFilled(queue, m) + tail, other)
    ensures IndexOk(if m == queue[0].Available() then index - {queue[0].id} else index,
                    FrontFilled(queue, m) + tail, other)
  {
    if m == queue[0].Available() {
      IndexDropsFront(index, queue + tail, other);
      assert (queue + tail)[1..] == queue[1..] + tail;
    } else {
      IndexKeepsFront(index, queue + tail, Hit(queue[0], m), other);
      assert [Hit(queue[0], m)] + (queue + tail)[1..] == queue[0 := Hit(queue[0], m)] + tail;
    }
  }

  lemma {:induction false} IndexSymmetric(index: map<OrderId, Location>, a: seq<L3Order>, b: seq<L3Order>)
    ensures IndexOk(index, a, b) <==> IndexOk(index, b, a)
  {
  }

  /** The index answers whether an id rests in the book, and where. */
  lemma {:induction false} IndexFinds(index: map<OrderId, Location>, a: seq<L3Order>, b: seq<L3Order>, id: OrderId)
    requires IndexOk(index, a, b)
    ensures id in index <==> Has(a, id) || Has(b, id)
    ensures Has(a, id) ==> index[id] == Location(a[Position(a, id)].side, a[Position(a, id)].price)
    ensures Has(b, id) ==> index[id] == Location(b[Position(b, id)].side, b[Position(b, id)].price)
  {
  }

  lemma {:induction false} IndexInserts(index: map<OrderId, Location>, side: Side, flat: seq<L3Order>,
                                        other: seq<L3Order>, x: L3Order)
    requires IndexOk(index, flat, other) && x.id !in index
    ensures IndexOk(index[x.id := Location(x.side, x.price)], Insert(side, flat, x), other)
  {
    var r, index' := Insert(side, flat, x), index[x.id := Location(x.side, x.price)];
    forall i | 0 <= i < |r|
      ensures r[i].id in index' && index'[r[i].id] == Location(r[i].side, r[i].price)
    {
      InsertAt(side, flat, x, i);
    }
    forall id | id in index'
      ensures Has(r, id) || Has(other, id)
    {
      InsertHas(side, flat, x, id);
    }
  }

  lemma {:induction false} InsertHas(side: Side, flat: seq<L3Order>, x: L3Order, id: OrderId)
    ensures Has(Insert(side, flat, x), id) <==> Has(flat, id) || id == x.id
  {
    var r, k := Insert(side, flat, x), Slot(side, flat, x.price);
    HasMeansIn(r, id);
    HasMeansIn(flat, id);
    if Has(flat, id) {
      var p := Position(flat, id);
      assert r[if p < k then p else p + 1] == flat[p];
    }
    if id == x.id {
      assert r[k] == x;
    }
    if Has(r, id) && id != x.id {
      InsertAt(side, flat, x, Position(r, id));
    }
  }

  lemma {:induction false} IndexRemoves(index: map<OrderId, Location>, flat: seq<L3Order>, other: seq<L3Order>,
                                        id: OrderId)
    requires Unshared(flat, other) && IndexOk(index, flat, other) && Has(flat, id)
    ensures IndexOk(index - {id}, Removal(flat, id), other)
  {
    var r, k := Removal(flat, id), Position(flat, id);
    forall i | 0 <= i < |r|
      ensures r[i].id in index - {id} && index[r[i].id] == Location(r[i].side, r[i].price)
    {
      RemovalAt(flat, id, i);
      assert flat[if i < k then i else i + 1].id != flat[k].id;
    }
    forall i | i in index - {id}
      ensures Has(r, i) || Has(other, i)
    {
      if Has(flat, i) {
        RemovalHas(flat, id, i);
      }
    }
  }

  lemma {:induction false} RemovalHas(flat: seq<L3Order>, id: OrderId, i: OrderId)
    requires Has(flat, id) && i != id && Has(flat, i)
    ensures Has(Removal(flat, id), i)
  {
    var p, k := Position(flat, i), Position(flat, id);
    RemovalAt(flat, id, if p < k then p else p - 1);
    HasMeansIn(Removal(flat, id), i);
  }

  // ---------------------------------------------------------------- counting one level

  /** A level holds exactly the orders at its price. */
  lemma {:induction false} LevelCount(side: Side, levels: seq<Level<L3Order>>, price: Price)
    requires LadderOk(side, levels)
    ensures var k := Seek(side, levels, price);
            CountAt(Flatten(levels), price) ==
              if k < |levels| && levels[k].price == price then |levels[k].queue| else 0
  {
    var k := Seek(side, levels, price);
    BetterPrefix(side, levels, k, price);
    CountAtNone(Flatten(levels[..k]), price);
    if k < |levels| && levels[k].price == price {
      FlattenAround(levels, k);
      WorseSuffix(side, levels, k + 1, price);
      assert LevelOk(side, levels[k]);
      CountInMiddle(Flatten(levels[..k]), levels[k].queue, Flatten(levels[k + 1..]), price);
    } else {
      FlattenSplit(levels, k);
      WorseSuffix(side, levels, k, price);
      CountInMiddle(Flatten(levels[..k]), [], Flatten(levels[k..]), price);
      assert [] + Flatten(levels[k..]) == Flatten(levels[k..]);
    }
  }

  lemma {:induction false} CountInMiddle(a: seq<L3Order>, q: seq<L3Order>, b: seq<L3Order>, price: Price)
    requires CountAt(a, price) == 0
    requires forall i :: 0 <= i < |q| ==> q[i].price == price
    requires forall i :: 0 <= i < |b| ==> b[i].price != price
    ensures CountAt(a + (q + b), price) == |q|
  {
    CountAtConcat(a, q + b, price);
    CountAtConcat(q, b, price);
    CountAtAll(q, price);
    CountAtNone(b, price);
  }

  // ---------------------------------------------------------------- eligible liquidity by levels

  lemma {:induction false} EligibleQtyConcat(a: seq<L3Order>, b: seq<L3Order>, o: Order)
    requires forall i :: 0 <= i < |a| ==> Eligible(o, a[i].price)
    ensures EligibleQty(a + b, o) == Liquidity(a) + EligibleQty(b, o)
  {
    ReachConcat(a, b, o);
    assert (a + b)[..|a| + Reach(b, o)] == a + b[..Reach(b, o)];
    LiquidityConcat(a, b[..Reach(b, o)]);
  }

  lemma {:induction false} ReachConcat(a: seq<L3Order>, b: seq<L3Order>, o: Order)
    requires forall i :: 0 <= i < |a| ==> Eligible(o, a[i].price)
    ensures Reach(a + b, o) == |a| + Reach(b, o)
  {
    if a == [] {
      assert a + b == b;
    } else {
      assert (a + b)[1..] == a[1..] + b;
      ReachConcat(a[1..], b, o);
    }
  }

  /** A scan that has counted the eligible levels before `k` knows what is left to count. */
  lemma {:induction false} EligibleQtyFrom(side: Side, levels: seq<Level<L3Order>>, o: Order, k: nat)
    requires LadderOk(side, levels) && k <= |levels|
    requires forall i :: 0 <= i < k ==> Eligible(o, levels[i].price)
    ensures EligibleQty(Flatten(levels), o)
         == Liquidity(Flatten(levels[..k])) + EligibleQty(Flatten(levels[k..]), o)
    ensures k < |levels| && !Eligible(o, levels[k].price) ==> EligibleQty(Flatten(levels[k..]), o) == 0
    ensures k == |levels| ==> EligibleQty(Flatten(levels[k..]), o) == 0
    ensures 0 <= EligibleQty(Flatten(levels[k..]), o)
  {
    FlattenSplit(levels, k);
    SliceOk(side, levels, 0, k);
    SliceOk(side, levels, k, |levels|);
    var a, b := Flatten(levels[..k]), Flatten(levels[k..]);
    forall i | 0 <= i < |a|
      ensures Eligible(o, a[i].price)
    {
      var l := FlatHome(side, levels[..k], i);
    }
    EligibleQtyConcat(a, b, o);
    FlatSideOk(side, levels[k..]);
    LiquidityPositive(b[..Reach(b, o)]);
    if k < |levels| {
      assert LevelOk(side, levels[k]);
      assert b[0] == levels[k].queue[0];
    }
  }

  lemma {:induction false} LiquidityNextLevel(levels: seq<Level<L3Order>>, k: nat)
    requires k < |levels|
    ensures Liquidity(Flatten(levels[..k + 1])) == Liquidity(Flatten(levels[..k])) + Liquidity(levels[k].queue)
  {
    assert levels[..k + 1] == levels[..k] + [levels[k]];
    FlattenConcat(levels[..k], [levels[k]]);
    FlattenOne(levels[k]);
    LiquidityConcat(Flatten(levels[..k]), levels[k].queue);
  }

  // ---------------------------------------------------------------- the outer loop

  /** The first level, part-filled, back in its ladder. */
  lemma {:induction false} FrontReplaced(side: Side, levels: seq<Level<L3Order>>, queue: seq<L3Order>)
    requires levels != [] && LadderOk(side, levels) && LevelOk(side, Level(levels[0].price, queue))
    ensures var r := levels[0 := Level(levels[0].price, queue)];
            LadderOk(side, r) && Flatten(r) == queue + Flatten(levels[1..])
  {
    var r := levels[0 := Level(levels[0].price, queue)];
    assert r[1..] == levels[1..];
  }

  /** With no quantity left, or nothing eligible in front, the walk is over. */
  lemma {:induction false} WalkStops(side: Side, levels: seq<Level<L3Order>>, a: Aggressor, left: Quantity, tid: nat)
    requires LadderOk(side, levels)
    requires left <= 0 || levels == [] || !Eligible(a.order, levels[0].price)
    ensures Walk(Flatten(levels), a, left, tid) == Outcome([], Flatten(levels), left)
  {
    if levels != [] {
      assert LevelOk(side, levels[0]);
      assert Flatten(levels)[0] == levels[0].queue[0];
    }
  }
}
