/** Market-data queries: what depth, best prices and prices derived from them must be. */
module BookQueries {
  import opened Types
  import opened PriceTime
  import opened BookSpec
  import opened BookInvariant
  import opened BookTheorems
  import opened Ladder
  import opened Matching

  datatype BookLevel = BookLevel(price: Price, qty: Quantity, count: nat)

  /** The report of one price: displayed quantity and number of orders there. */
  ghost predicate Summarises(flat: seq<L3Order>, l: BookLevel) {
    l.qty == VisibleAt(flat, l.price) && l.count == CountAt(flat, l.price) && 0 < l.count
  }

  /** `depth` lists the best `n` prices of a side, in order, each with its exact totals. */
  ghost predicate DepthOk(side: Side, flat: seq<L3Order>, n: nat, depth: seq<BookLevel>) {
    && |depth| <= n
    && (forall i, j :: 0 <= i < j < |depth| ==> Rank(side, depth[i].price) < Rank(side, depth[j].price))
    && (forall i :: 0 <= i < |depth| ==> Summarises(flat, depth[i]))
    && (forall x :: x in flat ==> Listed(depth, x.price) || (|depth| == n && WorseThanAll(side, depth, x.price)))
  }

  ghost predicate Listed(depth: seq<BookLevel>, price: Price) {
    exists i :: 0 <= i < |depth| && depth[i].price == price
  }

  ghost predicate WorseThanAll(side: Side, depth: seq<BookLevel>, price: Price) {
    forall i :: 0 <= i < |depth| ==> Rank(side, depth[i].price) < Rank(side, price)
  }

  /** The best price of a side with its totals, or nothing for an empty side. */
  ghost predicate BestOk(flat: seq<L3Order>, best: Option<BookLevel>) {
    match best
    case None => flat == []
    case Some(l) => flat != [] && l.price == flat[0].price && Summarises(flat, l)
  }

  lemma {:induction false} SummaryHasOrder(flat: seq<L3Order>, l: BookLevel)
    requires Summarises(flat, l)
    ensures exists i :: 0 <= i < |flat| && flat[i].price == l.price
  {
    if forall i :: 0 <= i < |flat| ==> flat[i].price != l.price {
      CountAtNone(flat, l.price);
    }
  }

  /** The best price is the first entry of any depth report. */
  lemma {:induction false} BestHeadsDepth(side: Side, flat: seq<L3Order>, n: nat, depth: seq<BookLevel>,
                                          best: Option<BookLevel>)
    requires SortedSide(side, flat) && 0 < n && DepthOk(side, flat, n, depth) && BestOk(flat, best)
    ensures best == if depth == [] then None else Some(depth[0])
  {
    if flat != [] {
      assert flat[0] in flat;
      if !Listed(depth, flat[0].price) {
        SummaryHasOrder(flat, depth[0]);
      }
      var i :| 0 <= i < |depth| && depth[i].price == flat[0].price;
      SummaryHasOrder(flat, depth[0]);
      var k :| 0 <= k < |flat| && flat[k].price == depth[0].price;
      assert Rank(side, flat[0].price) <= Rank(side, flat[k].price);
      assert i == 0;
    } else if depth != [] {
      SummaryHasOrder(flat, depth[0]);
    }
  }

  /** Depth reports are determined by the book: any two correct ones are equal. */
  lemma {:induction false} DepthDetermined(side: Side, flat: seq<L3Order>, n: nat, d1: seq<BookLevel>,
                                           d2: seq<BookLevel>)
    requires DepthOk(side, flat, n, d1) && DepthOk(side, flat, n, d2)
    ensures d1 == d2
  {
    DepthPrefix(side, flat, n, d1, d2, |d1|);
    DepthPrefix(side, flat, n, d2, d1, |d2|);
    assert d1 == d1[..|d1|] && d2 == d2[..|d2|];
  }

  lemma {:induction false} DepthPrefix(side: Side, flat: seq<L3Order>, n: nat, d1: seq<BookLevel>,
                                       d2: seq<BookLevel>, k: nat)
    requires DepthOk(side, flat, n, d1) && DepthOk(side, flat, n, d2)
    requires k <= |d1|
    ensures k <= |d2| && d1[..k] == d2[..k]
    decreases k
  {
    if 0 < k {
      DepthPrefix(side, flat, n, d1, d2, k - 1);
      assert d1[..k - 1] == d2[..k - 1];
      assert forall i :: 0 <= i < k - 1 ==> d1[i] == d1[..k - 1][i] == d2[i];
      NextAgrees(side, flat, n, d1, d2, k - 1);
      assert d1[..k] == d1[..k - 1] + [d1[k - 1]];
      assert d2[..k] == d2[..k - 1] + [d2[k - 1]];
    }
  }

  lemma {:induction false} NextAgrees(side: Side, flat: seq<L3Order>, n: nat, d1: seq<BookLevel>,
                                      d2: seq<BookLevel>, j: nat)
    requires DepthOk(side, flat, n, d1) && DepthOk(side, flat, n, d2)
    requires j < |d1| && j <= |d2| && forall i :: 0 <= i < j ==> d1[i] == d2[i]
    ensures j < |d2| && d2[j] == d1[j]
  {
    var i2 := FindListed(side, flat, n, d1, d2, j);
    if j < i2 {
      var i1 := FindListed(side, flat, n, d2, d1, j);
    }
  }

  /** The j-th price of one report appears in the other no earlier than position j. */
  lemma {:induction false} FindListed(side: Side, flat: seq<L3Order>, n: nat, d1: seq<BookLevel>,
                                      d2: seq<BookLevel>, j: nat)
    returns (i2: nat)
    requires DepthOk(side, flat, n, d1) && DepthOk(side, flat, n, d2)
    requires j < |d1| && j <= |d2| && forall i :: 0 <= i < j ==> d1[i] == d2[i]
    ensures j < |d2|
    ensures j <= i2 && (i2 < |d2| ==> d2[i2] == d1[j]) && (i2 >= |d2| ==> WorseThanAll(side, d2, d1[j].price))
  {
    SummaryHasOrder(flat, d1[j]);
    var k :| 0 <= k < |flat| && flat[k].price == d1[j].price;
    assert flat[k] in flat;
    if Listed(d2, d1[j].price) {
      i2 :| 0 <= i2 < |d2| && d2[i2].price == d1[j].price;
    } else {
      i2 := |d2|;
    }
  }

  // ---------------------------------------------------------------- from levels to the flat side

  lemma {:induction false} VisibleConcat(a: seq<L3Order>, b: seq<L3Order>, price: Price)
    ensures VisibleAt(a + b, price) == VisibleAt(a, price) + VisibleAt(b, price)
  {
    if a == [] {
      assert a + b == b;
    } else {
      assert (a + b)[1..] == a[1..] + b;
      VisibleConcat(a[1..], b, price);
    }
  }

  lemma {:induction false} VisibleNone(a: seq<L3Order>, price: Price)
    requires forall i :: 0 <= i < |a| ==> a[i].price != price
    ensures VisibleAt(a, price) == 0
  {
    if a != [] {
      VisibleNone(a[1..], price);
    }
  }

  lemma {:induction false} VisibleNonNegative(a: seq<L3Order>, price: Price)
    requires AllLive(a)
    ensures 0 <= VisibleAt(a, price)
  {
    if a != [] {
      VisibleNonNegative(a[1..], price);
    }
  }

  /** What a level displays is what the side displays at its price. */
  lemma {:induction false} LevelSummary(side: Side, levels: seq<Level<L3Order>>, k: nat)
    requires LadderOk(side, levels) && k < |levels|
    ensures VisibleAt(Flatten(levels), levels[k].price) == VisibleAt(levels[k].queue, levels[k].price)
    ensures CountAt(Flatten(levels), levels[k].price) == |levels[k].queue| > 0
  {
    var p := levels[k].price;
    BetterPrefix(side, levels, k, p);
    WorseSuffix(side, levels, k + 1, p);
    FlattenAround(levels, k);
    VisibleNone(Flatten(levels[..k]), p);
    VisibleNone(Flatten(levels[k + 1..]), p);
    VisibleConcat(Flatten(levels[..k]), levels[k].queue + Flatten(levels[k + 1..]), p);
    VisibleConcat(levels[k].queue, Flatten(levels[k + 1..]), p);
    assert LevelOk(side, levels[k]);
    LevelCount(side, levels, p);
    SeekHits(side, levels, k);
  }

  lemma {:induction false} SeekHits(side: Side, levels: seq<Level<L3Order>>, k: nat)
    requires Ranked(side, levels) && k < |levels|
    ensures Seek(side, levels, levels[k].price) == k
  {
  }

  lemma {:induction false} LevelsGiveDepth(side: Side, levels: seq<Level<L3Order>>, n: nat, depth: seq<BookLevel>)
    requires LadderOk(side, levels) && |depth| == Min(n, |levels|)
    requires forall i :: 0 <= i < |depth| ==>
               depth[i] == BookLevel(levels[i].price, VisibleAt(levels[i].queue, levels[i].price), |levels[i].queue|)
    ensures DepthOk(side, Flatten(levels), n, depth)
  {
    forall i | 0 <= i < |depth|
      ensures Summarises(Flatten(levels), depth[i])
    {
      LevelSummary(side, levels, i);
    }
    forall x | x in Flatten(levels)
      ensures Listed(depth, x.price) || (|depth| == n && WorseThanAll(side, depth, x.price))
    {
      var i :| 0 <= i < |Flatten(levels)| && Flatten(levels)[i] == x;
      var k := FlatHome(side, levels, i);
      if k < |depth| {
        assert depth[k].price == x.price;
      }
    }
  }

  lemma {:induction false} LevelsGiveBest(side: Side, levels: seq<Level<L3Order>>, l: BookLevel)
    requires LadderOk(side, levels) && levels != []
    requires l == BookLevel(levels[0].price, VisibleAt(levels[0].queue, levels[0].price), |levels[0].queue|)
    ensures BestOk(Flatten(levels), Some(l))
  {
    LevelSummary(side, levels, 0);
    assert LevelOk(side, levels[0]);
    assert Flatten(levels)[0] == levels[0].queue[0];
  }

  /** The quantity ahead of an order is what its own queue displays before it. */
  lemma {:induction false} AheadInLevel(side: Side, levels: seq<Level<L3Order>>, id: OrderId)
    requires LadderOk(side, levels) && Has(Flatten(levels), id)
    ensures var flat := Flatten(levels);
            var p := flat[Position(flat, id)].price;
            var k := Seek(side, levels, p);
            && k < |levels| && levels[k].price == p && Has(levels[k].queue, id)
            && QuantityAhead(flat, id) == VisibleAt(levels[k].queue[..Position(levels[k].queue, id)], p)
  {
    hide LadderOk;
    hide Flatten;
    hide VisibleAt;
    hide Seek;
    var flat := Flatten(levels);
    var p := flat[Position(flat, id)].price;
    var k := Seek(side, levels, p);
    Locate(side, levels, id);
    var j := Position(levels[k].queue, id);
    BetterPrefix(side, levels, k, p);
    FlattenAround(levels, k);
    assert flat[..Position(flat, id)] == Flatten(levels[..k]) + levels[k].queue[..j];
    VisibleConcat(Flatten(levels[..k]), levels[k].queue[..j], p);
    VisibleNone(Flatten(levels[..k]), p);
  }

  // ---------------------------------------------------------------- mid and micro price

  /** Division as the source's integers divide: toward zero. */
  function TruncDiv(a: int, b: int): int
    requires 0 < b
  {
    if 0 <= a then a / b else -((-a) / b)
  }

  /** Toward zero: the remainder has the sign of the dividend and is smaller than the divisor. */
  lemma {:induction false} TruncTowardZero(a: int, d: int)
    requires 0 < d
    ensures var r := a - TruncDiv(a, d) * d;
            if 0 <= a then 0 <= r < d else -d < r <= 0
  {
    if a < 0 {
      assert -a == (-a) / d * d + (-a) % d;
    }
  }

  lemma {:induction false} DivBetween(a: nat, d: nat, lo: int, hi: int)
    requires 0 < d && lo * d <= a <= hi * d
    ensures lo <= a / d <= hi
  {
    var q := a / d;
    assert q * d <= a < (q + 1) * d;
    if q < lo {
      ProductMonotone(q + 1, lo, d);
    }
    if hi < q {
      ProductMonotone(hi + 1, q, d);
    }
  }

  /** Truncating division stays between integer bounds, for dividends of any sign. */
  lemma {:induction false} TruncBetween(a: int, d: int, lo: int, hi: int)
    requires 0 < d && lo * d <= a <= hi * d
    ensures lo <= TruncDiv(a, d) <= hi
  {
    if 0 <= a {
      DivBetween(a, d, lo, hi);
    } else {
      assert (-hi) * d == -(hi * d) && (-lo) * d == -(lo * d);
      DivBetween(-a, d, -hi, -lo);
    }
  }

  /** A size-weighted average of two prices lies between them. */
  lemma {:induction false} WeightedBetween(bid: Price, ask: Price, bidQty: Quantity, askQty: Quantity)
    requires bid <= ask && 0 <= bidQty && 0 <= askQty && 0 < bidQty + askQty
    ensures bid <= TruncDiv(bid * askQty + ask * bidQty, bidQty + askQty) <= ask
  {
    var sum, total := bid * askQty + ask * bidQty, bidQty + askQty;
    assert sum - bid * total == (ask - bid) * bidQty by {
      assert bid * total == bid * bidQty + bid * askQty;
      assert (ask - bid) * bidQty == ask * bidQty - bid * bidQty;
    }
    assert ask * total - sum == (ask - bid) * askQty by {
      assert ask * total == ask * bidQty + ask * askQty;
      assert (ask - bid) * askQty == ask * askQty - bid * askQty;
    }
    ProductNonNegative(ask - bid, bidQty);
    ProductNonNegative(ask - bid, askQty);
    TruncBetween(sum, total, bid, ask);
  }

  lemma {:induction false} ProductNonNegative(a: int, b: int)
    requires 0 <= a && 0 <= b
    ensures 0 <= a * b
  {
  }
}
