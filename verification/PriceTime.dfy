/**
 * The reference meaning of matching: one greedy walk over a flat list of resting
 * orders, best price first and oldest first inside a price.  The books store price
 * levels of queues and match with nested loops over iterators; they are proved
 * against the walk of this module, and the walk itself is characterised here by
 * prefix sums, without recursion.
 */
module PriceTime {
  import opened Types

  const REPLENISH: Quantity := 100

  /** Smaller rank means better price: cheapest ask first, dearest bid first. */
  function Rank(side: Side, price: Price): int {
    if side.Sell? then price else -price
  }

  /** May the incoming order trade at this price? */
  predicate Eligible(o: Order, price: Price) {
    o.kind.Market? || (if o.side.Buy? then price <= o.price else o.price <= price)
  }

  predicate Live(x: L3Order) {
    0 <= x.visible && 0 <= x.hidden && 0 <= x.filled && 0 < x.Available()
  }

  ghost predicate SortedSide(side: Side, flat: seq<L3Order>) {
    forall i, j :: 0 <= i < j < |flat| ==> Rank(side, flat[i].price) <= Rank(side, flat[j].price)
  }

  ghost predicate AllLive(flat: seq<L3Order>) {
    forall i :: 0 <= i < |flat| ==> Live(flat[i])
  }

  ghost predicate SideOk(side: Side, flat: seq<L3Order>) {
    && SortedSide(side, flat)
    && AllLive(flat)
    && forall i :: 0 <= i < |flat| ==> flat[i].side == side
  }

  ghost predicate DistinctIds(flat: seq<L3Order>) {
    forall i, j :: 0 <= i < j < |flat| ==> flat[i].id != flat[j].id
  }

  // ---------------------------------------------------------------- one partial fill

  /** A resting order after losing `m` units, with iceberg replenishment. */
  function Hit(x: L3Order, m: Quantity): L3Order {
    var visible := if m <= x.visible then x.visible - m else 0;
    var hidden := if m <= x.visible then x.hidden else x.hidden - (m - x.visible);
    var refill := if visible == 0 && 0 < hidden && x.iceberg then Min(hidden, REPLENISH) else 0;
    x.(visible := visible + refill, hidden := hidden - refill, filled := x.filled + m)
  }

  /** No quantity appears or disappears in a fill; displayed quantity goes first; an iceberg
      that has used up its face shows the next hundred of what it has left. */
  lemma {:induction false} HitConserves(x: L3Order, m: Quantity)
    requires Live(x) && 0 < m < x.Available()
    ensures Live(Hit(x, m))
    ensures Hit(x, m).Available() == x.Available() - m
    ensures Hit(x, m).Available() + Hit(x, m).filled == x.Available() + x.filled
    ensures x.iceberg ==> 0 < Hit(x, m).visible
    ensures m < x.visible ==> Hit(x, m).visible == x.visible - m && Hit(x, m).hidden == x.hidden
    ensures x.visible <= m ==> Hit(x, m).visible == if x.iceberg then Min(100, x.Available() - m) else 0
    ensures Hit(x, m).hidden <= x.hidden
    ensures Hit(x, m) == x.(visible := Hit(x, m).visible, hidden := Hit(x, m).hidden, filled := x.filled + m)
  {
  }

  // ---------------------------------------------------------------- the greedy walk

  /** The incoming order together with what the book stamps on its trades. */
  datatype Aggressor = Aggressor(order: Order, symbol: Symbol, ts: Timestamp)

  datatype Outcome = Outcome(trades: seq<Trade>, rest: seq<L3Order>, left: Quantity)

  function MakeTrade(x: L3Order, a: Aggressor, tid: nat, qty: Quantity): Trade {
    Trade(tid, x.id, a.order.id, x.trader, a.order.trader, a.symbol, a.order.side, x.price, qty, a.ts)
  }

  /** Fill from the front while there is quantity left and the front is eligible. */
  function Walk(flat: seq<L3Order>, a: Aggressor, qty: Quantity, tid: nat): Outcome
    decreases |flat|
  {
    if qty <= 0 || flat == [] || !Eligible(a.order, flat[0].price) then
      Outcome([], flat, qty)
    else
      var m := Min(qty, flat[0].Available());
      var w := Walk(flat[1..], a, qty - m, tid + 1);
      Outcome(
        [MakeTrade(flat[0], a, tid, m)] + w.trades,
        if m == flat[0].Available() then w.rest else [Hit(flat[0], m)] + w.rest,
        w.left)
  }

  // ---------------------------------------------------------------- sums and prefixes

  function Liquidity(flat: seq<L3Order>): Quantity {
    if flat == [] then 0 else flat[0].Available() + Liquidity(flat[1..])
  }

  function Volume(trades: seq<Trade>): Quantity {
    if trades == [] then 0 else trades[0].qty + Volume(trades[1..])
  }

  /** Length of the longest eligible prefix. */
  function Reach(flat: seq<L3Order>, o: Order): (n: nat)
    ensures n <= |flat|
    ensures forall i :: 0 <= i < n ==> Eligible(o, flat[i].price)
    ensures n < |flat| ==> !Eligible(o, flat[n].price)
  {
    if flat == [] || !Eligible(o, flat[0].price) then 0 else 1 + Reach(flat[1..], o)
  }

  /** Everything the incoming order could take from this side. */
  function EligibleQty(flat: seq<L3Order>, o: Order): Quantity {
    Liquidity(flat[..Reach(flat, o)])
  }

  lemma {:induction false} LiquidityConcat(a: seq<L3Order>, b: seq<L3Order>)
    ensures Liquidity(a + b) == Liquidity(a) + Liquidity(b)
  {
    if a == [] {
      assert a + b == b;
    } else {
      assert (a + b)[1..] == a[1..] + b;
      LiquidityConcat(a[1..], b);
    }
  }

  lemma {:induction false} VolumeConcat(a: seq<Trade>, b: seq<Trade>)
    ensures Volume(a + b) == Volume(a) + Volume(b)
  {
    if a == [] {
      assert a + b == b;
    } else {
      assert (a + b)[1..] == a[1..] + b;
      VolumeConcat(a[1..], b);
    }
  }

  lemma {:induction false} LiquidityPositive(flat: seq<L3Order>)
    requires AllLive(flat)
    ensures 0 <= Liquidity(flat)
    ensures flat != [] ==> 0 < Liquidity(flat)
  {
    if flat != [] {
      LiquidityPositive(flat[1..]);
    }
  }

  lemma {:induction false} LiquidityMonotone(flat: seq<L3Order>, i: nat, j: nat)
    requires AllLive(flat) && i <= j <= |flat|
    ensures Liquidity(flat[..i]) <= Liquidity(flat[..j])
    ensures i < j ==> Liquidity(flat[..i]) < Liquidity(flat[..j])
  {
    assert flat[..j] == flat[..i] + flat[i..j];
    LiquidityConcat(flat[..i], flat[i..j]);
    LiquidityPositive(flat[i..j]);
  }

  /** On a sorted side eligibility is exactly membership of the eligible prefix. */
  lemma {:induction false} ReachIsExact(flat: seq<L3Order>, o: Order, k: nat)
    requires SortedSide(o.side.Opposite(), flat)
    requires k < |flat|
    ensures Eligible(o, flat[k].price) <==> k < Reach(flat, o)
  {
    var n := Reach(flat, o);
    if n < k {
      assert Rank(o.side.Opposite(), flat[n].price) <= Rank(o.side.Opposite(), flat[k].price);
    }
  }

  // ---------------------------------------------------------------- what the walk does

  /** What trade number `k` must be: with the k-th best order and its trader on the resting
      side, for what the better ones left over. */
  function Expected(flat: seq<L3Order>, a: Aggressor, qty: Quantity, tid: nat, k: nat): Trade
    requires k < |flat|
  {
    Trade(
      tradeId := tid + k,
      restingId := flat[k].id,
      incomingId := a.order.id,
      restingTrader := flat[k].trader,
      incomingTrader := a.order.trader,
      symbol := a.symbol,
      aggressor := a.order.side,
      price := flat[k].price,
      qty := Min(flat[k].Available(), qty - Liquidity(flat[..k])),
      ts := a.ts)
  }

  ghost predicate ClosedForm(flat: seq<L3Order>, a: Aggressor, qty: Quantity, tid: nat, w: Outcome) {
    var n := |w.trades|;
    && n <= Reach(flat, a.order)
    && (forall k :: 0 <= k < n ==> Liquidity(flat[..k]) < qty && w.trades[k] == Expected(flat, a, qty, tid, k))
    && (n == Reach(flat, a.order) || qty <= Liquidity(flat[..n]))
    && w.left == Max(0, qty - Liquidity(flat[..n]))
    && w.rest == Untaken(flat, qty, n)
  }

  /** The residue: nothing of the first n orders, except that the last of them keeps
      what exceeds the incoming quantity. */
  function Untaken(flat: seq<L3Order>, qty: Quantity, n: nat): seq<L3Order>
    requires n <= |flat|
  {
    if n == 0 || Liquidity(flat[..n]) <= qty then flat[n..]
    else [Hit(flat[n - 1], qty - Liquidity(flat[..n - 1]))] + flat[n..]
  }

  /** The greedy walk in closed form: trade k is with the k-th order of the eligible
      prefix for min(available, quantity minus everything better), the walk stops only
      when the quantity or the prefix is exhausted, and the residue is the rest of
      the list with at most its front order partly filled. */
  lemma {:induction false} WalkClosedForm(flat: seq<L3Order>, a: Aggressor, qty: Quantity, tid: nat)
    requires AllLive(flat) && 0 <= qty
    ensures ClosedForm(flat, a, qty, tid, Walk(flat, a, qty, tid))
    decreases |flat|
  {
    hide ClosedForm;
    if qty <= 0 || flat == [] || !Eligible(a.order, flat[0].price) {
      ClosedFormNone(flat, a, qty, tid);
    } else if qty < flat[0].Available() {
      ClosedFormLast(flat, a, qty, tid);
    } else {
      var q1 := qty - flat[0].Available();
      WalkClosedForm(flat[1..], a, q1, tid + 1);
      ClosedFormStep(flat, a, qty, tid, Walk(flat[1..], a, q1, tid + 1));
    }
  }

  lemma {:induction false} ClosedFormNone(flat: seq<L3Order>, a: Aggressor, qty: Quantity, tid: nat)
    requires 0 <= qty && (qty == 0 || flat == [] || !Eligible(a.order, flat[0].price))
    ensures ClosedForm(flat, a, qty, tid, Outcome([], flat, qty))
  {
    assert flat[..0] == [];
  }

  lemma {:induction false} ClosedFormLast(flat: seq<L3Order>, a: Aggressor, qty: Quantity, tid: nat)
    requires flat != [] && Eligible(a.order, flat[0].price) && 0 < qty < flat[0].Available()
    ensures Walk(flat, a, qty, tid)
         == Outcome([MakeTrade(flat[0], a, tid, qty)], [Hit(flat[0], qty)] + flat[1..], 0)
    ensures ClosedForm(flat, a, qty, tid, Walk(flat, a, qty, tid))
  {
    var w := Walk(flat, a, qty, tid);
    assert Walk(flat[1..], a, 0, tid + 1) == Outcome([], flat[1..], 0);
    assert w.trades == [MakeTrade(flat[0], a, tid, qty)];
    PrefixLiquidity(flat, 1);
    assert w.rest == Untaken(flat, qty, 1);
  }

  lemma {:induction false} PrefixLiquidity(flat: seq<L3Order>, k: nat)
    requires 1 <= k <= |flat|
    ensures Liquidity(flat[..k]) == flat[0].Available() + Liquidity(flat[1..][..k - 1])
  {
    assert flat[..k][1..] == flat[1..][..k - 1];
  }

  /** The closed form survives putting one fully consumed order in front. */
  lemma {:induction false} ClosedFormStep(flat: seq<L3Order>, a: Aggressor, qty: Quantity, tid: nat, w: Outcome)
    requires flat != [] && AllLive(flat) && Eligible(a.order, flat[0].price) && flat[0].Available() <= qty
    requires ClosedForm(flat[1..], a, qty - flat[0].Available(), tid + 1, w)
    ensures ClosedForm(flat, a, qty, tid,
                       Outcome([MakeTrade(flat[0], a, tid, flat[0].Available())] + w.trades, w.rest, w.left))
  {
    var n := |w.trades| + 1;
    StepTrades(flat, a, qty, tid, w);
    StepRest(flat, qty, n, w.rest);
    PrefixLiquidity(flat, n);
    hide Untaken;
    hide Expected;
  }

  lemma {:induction false} StepTrades(flat: seq<L3Order>, a: Aggressor, qty: Quantity, tid: nat, w: Outcome)
    requires flat != [] && AllLive(flat) && Eligible(a.order, flat[0].price) && flat[0].Available() <= qty
    requires ClosedForm(flat[1..], a, qty - flat[0].Available(), tid + 1, w)
    ensures var trades := [MakeTrade(flat[0], a, tid, flat[0].Available())] + w.trades;
            |trades| <= |flat|
            && forall k :: 0 <= k < |trades| ==>
                 Liquidity(flat[..k]) < qty && trades[k] == Expected(flat, a, qty, tid, k)
  {
    var avail, tail := flat[0].Available(), flat[1..];
    var trades := [MakeTrade(flat[0], a, tid, avail)] + w.trades;
    forall k | 0 <= k < |trades|
      ensures Liquidity(flat[..k]) < qty && trades[k] == Expected(flat, a, qty, tid, k)
    {
      if 0 < k {
        PrefixLiquidity(flat, k);
        assert w.trades[k - 1] == Expected(tail, a, qty - avail, tid + 1, k - 1);
        assert Liquidity(tail[..k - 1]) < qty - avail;
      }
    }
  }

  lemma {:induction false} StepRest(flat: seq<L3Order>, qty: Quantity, n: nat, rest: seq<L3Order>)
    requires 1 <= n <= |flat| && flat[0].Available() <= qty
    requires rest == Untaken(flat[1..], qty - flat[0].Available(), n - 1)
    ensures rest == Untaken(flat, qty, n)
  {
    PrefixLiquidity(flat, n);
    assert flat[n..] == flat[1..][n - 1..];
    if 1 < n {
      PrefixLiquidity(flat, n - 1);
    }
  }

  // ---------------------------------------------------------------- consequences

  /** Executed quantity is min(order quantity, eligible liquidity). */
  lemma {:induction false} WalkExecutes(flat: seq<L3Order>, a: Aggressor, qty: Quantity, tid: nat)
    requires AllLive(flat) && 0 <= qty
    ensures qty - Walk(flat, a, qty, tid).left == Min(qty, EligibleQty(flat, a.order))
  {
    WalkClosedForm(flat, a, qty, tid);
    var n := |Walk(flat, a, qty, tid).trades|;
    LiquidityMonotone(flat, n, Reach(flat, a.order));
    LiquidityPositive(flat[..Reach(flat, a.order)]);
  }

  /** A quantity left over means that nothing eligible is left to trade with. */
  lemma {:induction false} WalkExhausts(flat: seq<L3Order>, a: Aggressor, qty: Quantity, tid: nat)
    requires AllLive(flat) && 0 <= qty && 0 < Walk(flat, a, qty, tid).left
    ensures Walk(flat, a, qty, tid).rest == flat[Reach(flat, a.order)..]
  {
    WalkClosedForm(flat, a, qty, tid);
  }

  /** The k-th order trades exactly when it is eligible and the better orders cannot
      absorb the whole incoming quantity. */
  lemma {:induction false} WalkReaches(flat: seq<L3Order>, a: Aggressor, qty: Quantity, tid: nat, k: nat)
    requires AllLive(flat) && 0 <= qty && k < |flat|
    ensures k < |Walk(flat, a, qty, tid).trades| <==> k < Reach(flat, a.order) && Liquidity(flat[..k]) < qty
  {
    WalkClosedForm(flat, a, qty, tid);
    var n := |Walk(flat, a, qty, tid).trades|;
    if n <= k {
      LiquidityMonotone(flat, n, k);
    }
  }

  /** Every unit the incoming order gains is lost by the resting side and appears on the tape. */
  lemma {:induction false} WalkConserves(flat: seq<L3Order>, a: Aggressor, qty: Quantity, tid: nat)
    requires AllLive(flat) && 0 <= qty
    ensures var w := Walk(flat, a, qty, tid);
            && Volume(w.trades) == qty - w.left
            && Liquidity(w.rest) == Liquidity(flat) - Volume(w.trades)
            && 0 <= w.left <= qty
    decreases |flat|
  {
    if qty <= 0 || flat == [] || !Eligible(a.order, flat[0].price) {
    } else if qty < flat[0].Available() {
      ClosedFormLast(flat, a, qty, tid);
      HitConserves(flat[0], qty);
      assert ([Hit(flat[0], qty)] + flat[1..])[1..] == flat[1..];
    } else {
      WalkConserves(flat[1..], a, qty - flat[0].Available(), tid + 1);
    }
  }

  /** `y` is `x` after zero or more fills that did not exhaust it. */
  ghost predicate Evolved(x: L3Order, y: L3Order) {
    && Live(y)
    && y == x.(visible := y.visible, hidden := y.hidden, filled := y.filled)
    && y.Available() + y.filled == x.Available() + x.filled
    && y.Available() <= x.Available() && y.hidden <= x.hidden
  }

  /** `rest` is `flat` without its first `n` orders, the new front possibly part-filled. */
  ghost predicate Trimmed(flat: seq<L3Order>, rest: seq<L3Order>, n: nat) {
    && n + |rest| == |flat|
    && (forall i :: 0 <= i < |rest| ==> Evolved(flat[n + i], rest[i]))
    && (forall i :: 0 < i < |rest| ==> rest[i] == flat[n + i])
  }

  /** How many resting orders the walk uses up completely. */
  function Consumed(flat: seq<L3Order>, a: Aggressor, qty: Quantity, tid: nat): (n: nat) {
    var trades := |Walk(flat, a, qty, tid).trades|;
    if 0 < trades <= |flat| && qty < Liquidity(flat[..trades]) then trades - 1 else trades
  }

  /** Matching removes orders from the front only and part-fills at most the new front;
      a part-filled front means that the incoming quantity is used up. */
  lemma {:induction false} WalkTrims(flat: seq<L3Order>, a: Aggressor, qty: Quantity, tid: nat) returns (n: nat)
    requires AllLive(flat) && 0 <= qty
    ensures n == Consumed(flat, a, qty, tid) <= |flat|
    ensures var w := Walk(flat, a, qty, tid);
            && Trimmed(flat, w.rest, n)
            && n <= |w.trades| <= n + 1
            && (|w.trades| == n + 1 ==> w.left == 0)
            && (|w.trades| == n ==> w.rest == flat[n..])
  {
    WalkClosedForm(flat, a, qty, tid);
    n := |Walk(flat, a, qty, tid).trades|;
    if 0 < n && qty < Liquidity(flat[..n]) {
      assert Liquidity(flat[..n - 1]) < qty;
      UntakenHit(flat, qty, n);
      n := n - 1;
    } else {
      assert Walk(flat, a, qty, tid).rest == flat[n..];
      SuffixTrimmed(flat, n);
    }
  }

  lemma {:induction false} SuffixTrimmed(flat: seq<L3Order>, n: nat)
    requires AllLive(flat) && n <= |flat|
    ensures Trimmed(flat, flat[n..], n)
  {
    forall i | 0 <= i < |flat| - n
      ensures Evolved(flat[n + i], flat[n..][i])
    {
      assert flat[n..][i] == flat[n + i];
    }
  }

  /** The walk uses up exactly the eligible orders that the quantity covers entirely. */
  lemma {:induction false} WalkConsumes(flat: seq<L3Order>, a: Aggressor, qty: Quantity, tid: nat, k: nat)
    requires AllLive(flat) && 0 <= qty && k < |flat|
    ensures k < Consumed(flat, a, qty, tid) <==> k < Reach(flat, a.order) && Liquidity(flat[..k + 1]) <= qty
  {
    WalkClosedForm(flat, a, qty, tid);
    var n := |Walk(flat, a, qty, tid).trades|;
    if k + 1 < n {
      LiquidityMonotone(flat, k + 1, n - 1);
    } else if n < k + 1 {
      LiquidityMonotone(flat, n, k + 1);
    }
  }

  lemma {:induction false} UntakenHit(flat: seq<L3Order>, qty: Quantity, n: nat)
    requires AllLive(flat) && 0 < n <= |flat|
    requires Liquidity(flat[..n - 1]) < qty < Liquidity(flat[..n])
    ensures Trimmed(flat, Untaken(flat, qty, n), n - 1)
  {
    assert flat[..n] == flat[..n - 1] + [flat[n - 1]];
    LiquidityConcat(flat[..n - 1], [flat[n - 1]]);
    var m := qty - Liquidity(flat[..n - 1]);
    HitConserves(flat[n - 1], m);
    assert Evolved(flat[n - 1], Hit(flat[n - 1], m));
    var rest := Untaken(flat, qty, n);
    assert rest == [Hit(flat[n - 1], m)] + flat[n..];
  }

  /** Trimming keeps a side sorted, live, on its side and free of duplicates. */
  lemma {:induction false} TrimmedKeepsSide(side: Side, flat: seq<L3Order>, rest: seq<L3Order>, n: nat)
    requires SideOk(side, flat) && Trimmed(flat, rest, n)
    ensures SideOk(side, rest)
    ensures DistinctIds(flat) ==> DistinctIds(rest)
  {
    forall i | 0 <= i < |rest|
      ensures Evolved(flat[n + i], rest[i]) && rest[i].side == side && Live(rest[i])
    {
    }
    forall i, j | 0 <= i < j < |rest|
      ensures Rank(side, rest[i].price) <= Rank(side, rest[j].price)
      ensures DistinctIds(flat) ==> rest[i].id != rest[j].id
    {
      assert Evolved(flat[n + i], rest[i]) && Evolved(flat[n + j], rest[j]);
    }
  }

  /** Trades come in price priority, each at its resting order's own price and never beyond
      the incoming order's limit. */
  lemma {:induction false} WalkPrices(side: Side, flat: seq<L3Order>, a: Aggressor, qty: Quantity, tid: nat)
    requires side == a.order.side.Opposite() && SideOk(side, flat) && 0 <= qty
    ensures var trades := Walk(flat, a, qty, tid).trades;
            && (forall k :: 0 <= k < |trades| ==> k < |flat| && trades[k].price == flat[k].price
                                                  && Eligible(a.order, trades[k].price) && 0 < trades[k].qty)
            && (forall j, k :: 0 <= j < k < |trades| ==> Rank(side, trades[j].price) <= Rank(side, trades[k].price))
  {
    WalkClosedForm(flat, a, qty, tid);
    var trades := Walk(flat, a, qty, tid).trades;
    forall k | 0 <= k < |trades|
      ensures k < |flat| && trades[k].price == flat[k].price && Eligible(a.order, trades[k].price) && 0 < trades[k].qty
    {
      assert trades[k] == Expected(flat, a, qty, tid, k);
    }
  }
}
