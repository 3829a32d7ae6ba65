/** Pre-trade risk: what the checks decide, and what they guarantee over any history. */
module RiskSpec {
  import opened Types

  const U64: int := 0x1_0000_0000_0000_0000
  const NS_PER_MS: int := 1_000_000

  datatype Limits = Limits(maxPerSymbol: Quantity, maxNet: Quantity, maxRate: nat, windowMs: nat)

  datatype TraderState = TraderState(
    positions: map<Symbol, Quantity>,
    stamps: seq<Timestamp>,
    net: Quantity,
    killed: bool)

  const NEW_TRADER := TraderState(map[], [], 0, false)

  datatype Risk = Risk(
    defaults: Limits,
    limits: map<TraderId, Limits>,
    states: map<TraderId, TraderState>,
    globalKill: bool)
  {
    function LimitsOf(t: TraderId): Limits {
      if t in limits then limits[t] else defaults
    }

    function StateOf(t: TraderId): TraderState {
      if t in states then states[t] else NEW_TRADER
    }
  }

  function PositionIn(st: TraderState, symbol: Symbol): Quantity {
    if symbol in st.positions then st.positions[symbol] else 0
  }

  function Abs(x: int): int {
    if x < 0 then -x else x
  }

  function Signed(side: Side, qty: Quantity): Quantity {
    if side.Buy? then qty else -qty
  }

  // ---------------------------------------------------------------- the rate limiter

  /** Age of a stamp as 64-bit unsigned subtraction computes it. */
  function Age(now: Timestamp, stamp: Timestamp): int {
    (now - stamp) % U64
  }

  predicate Expired(now: Timestamp, stamp: Timestamp, windowNs: int) {
    windowNs < Age(now, stamp)
  }

  /** The stamps left after dropping expired ones from the front. */
  function Trim(stamps: seq<Timestamp>, now: Timestamp, windowNs: int): seq<Timestamp> {
    if stamps == [] || !Expired(now, stamps[0], windowNs) then stamps
    else Trim(stamps[1..], now, windowNs)
  }

  function WindowNs(l: Limits): int {
    l.windowMs * NS_PER_MS
  }

  predicate RateAllows(stamps: seq<Timestamp>, now: Timestamp, l: Limits) {
    |Trim(stamps, now, WindowNs(l))| < l.maxRate
  }

  function AfterRate(stamps: seq<Timestamp>, now: Timestamp, l: Limits): seq<Timestamp> {
    Trim(stamps, now, WindowNs(l)) + (if RateAllows(stamps, now, l) then [now] else [])
  }

  // ---------------------------------------------------------------- the check

  predicate WithinLimits(st: TraderState, o: Order, l: Limits) {
    && Abs(PositionIn(st, o.symbol) + Signed(o.side, o.qty)) <= l.maxPerSymbol
    && Abs(st.net + Signed(o.side, o.qty)) <= l.maxNet
  }

  /** The first check to fail, in the order of the checks. */
  function Verdict(r: Risk, o: Order): RejectReason {
    var st, l := r.StateOf(o.trader), r.LimitsOf(o.trader);
    if r.globalKill || st.killed then KillSwitchActive
    else if o.kind.Limit? && o.price <= 0 then InvalidPrice
    else if o.qty <= 0 then InvalidQuantity
    else if !WithinLimits(st, o, l) then PositionLimit
    else if !RateAllows(st.stamps, o.submitTime, l) then RateLimit
    else NoReason
  }

  /** Orders that pass have a positive quantity and, if limit orders, a positive price; the
      risk engine never gives a reason that is not its own. */
  lemma {:induction false} PassedOrdersAreSane(r: Risk, o: Order)
    ensures Verdict(r, o) == NoReason ==> 0 < o.qty && (o.kind.Limit? ==> 0 < o.price)
    ensures Verdict(r, o) in
              {NoReason, KillSwitchActive, InvalidPrice, InvalidQuantity, PositionLimit, RateLimit}
  {
  }

  /** Has somebody thrown a switch on this trader? */
  predicate Stopped(r: Risk, t: TraderId) {
    r.globalKill || (t in r.states && r.states[t].killed)
  }

  /** Recorded position in one symbol, and over all of them: nothing recorded is zero. */
  function Recorded(r: Risk, t: TraderId, symbol: Symbol): Quantity {
    if t in r.states && symbol in r.states[t].positions then r.states[t].positions[symbol] else 0
  }

  function RecordedNet(r: Risk, t: TraderId): Quantity {
    if t in r.states then r.states[t].net else 0
  }

  /** Would the order, filled entirely, leave the limits of its trader?  Positions up to and
      including the limit, long or short, are inside. */
  predicate Oversized(r: Risk, o: Order) {
    var l := if o.trader in r.limits then r.limits[o.trader] else r.defaults;
    var change := if o.side.Buy? then o.qty else -o.qty;
    || Recorded(r, o.trader, o.symbol) + change < -l.maxPerSymbol
    || l.maxPerSymbol < Recorded(r, o.trader, o.symbol) + change
    || RecordedNet(r, o.trader) + change < -l.maxNet
    || l.maxNet < RecordedNet(r, o.trader) + change
  }

  /** Each reason exactly when: the first check that fails gives it, and an order that
      violates nothing passes. */
  lemma {:induction false} ReasonsIff(r: Risk, o: Order)
    ensures var v := Verdict(r, o);
            var priced := !(o.kind.Limit? && o.price <= 0);
            var room := RateAllows(if o.trader in r.states then r.states[o.trader].stamps else [], o.submitTime,
                                   if o.trader in r.limits then r.limits[o.trader] else r.defaults);
            && (v == KillSwitchActive <==> Stopped(r, o.trader))
            && (v == InvalidPrice <==> !Stopped(r, o.trader) && !priced)
            && (v == InvalidQuantity <==> !Stopped(r, o.trader) && priced && o.qty <= 0)
            && (v == PositionLimit <==> !Stopped(r, o.trader) && priced && 0 < o.qty && Oversized(r, o))
            && (v == RateLimit <==> !Stopped(r, o.trader) && priced && 0 < o.qty && !Oversized(r, o) && !room)
            && (v == NoReason <==> !Stopped(r, o.trader) && priced && 0 < o.qty && !Oversized(r, o) && room)
  {
  }

  /** Neither checks nor fills throw or release a switch. */
  lemma {:induction false} SwitchesStay(r: Risk, o: Order, filled: Quantity, t: TraderId)
    ensures Stopped(AfterCheck(r, o), t) <==> Stopped(r, t)
    ensures Stopped(AfterFill(r, o.trader, o.symbol, o.side, filled), t) <==> Stopped(r, t)
  {
  }

  /** A check records no position; a fill records itself, on its trader and symbol only. */
  lemma {:induction false} FillIsRecorded(r: Risk, o: Order, filled: Quantity, t: TraderId, symbol: Symbol)
    ensures Recorded(AfterCheck(r, o), t, symbol) == Recorded(r, t, symbol)
    ensures RecordedNet(AfterCheck(r, o), t) == RecordedNet(r, t)
    ensures var r' := AfterFill(r, o.trader, o.symbol, o.side, filled);
            var change := if o.side.Buy? then filled else -filled;
            && Recorded(r', t, symbol)
               == Recorded(r, t, symbol) + (if t == o.trader && symbol == o.symbol then change else 0)
            && RecordedNet(r', t) == RecordedNet(r, t) + (if t == o.trader then change else 0)
  {
  }

  /** A check touches a trader's record only from the position check on, and its stamps only
      if the order gets as far as the rate limiter. */
  function AfterCheck(r: Risk, o: Order): Risk {
    var st, v := r.StateOf(o.trader), Verdict(r, o);
    if v in {KillSwitchActive, InvalidPrice, InvalidQuantity} then r
    else if v == PositionLimit then r.(states := r.states[o.trader := st])
    else r.(states := r.states[o.trader := st.(stamps := AfterRate(st.stamps, o.submitTime, r.LimitsOf(o.trader)))])
  }

  function AfterFill(r: Risk, t: TraderId, symbol: Symbol, side: Side, qty: Quantity): Risk {
    var st := r.StateOf(t);
    r.(states := r.states[t := st.(
      positions := st.positions[symbol := PositionIn(st, symbol) + Signed(side, qty)],
      net := st.net + Signed(side, qty))])
  }

  // ---------------------------------------------------------------- positions

  /** Sum of the values of a map. */
  ghost function Total(m: map<Symbol, Quantity>): Quantity
    decreases |m|
  {
    if m == map[] then 0
    else
      var k :| k in m;
      m[k] + Total(m - {k})
  }

  /** The sum does not depend on the order in which the entries are taken. */
  lemma {:induction false} TotalTakes(m: map<Symbol, Quantity>, k: Symbol)
    requires k in m
    ensures Total(m) == m[k] + Total(m - {k})
    decreases |m|
  {
    var c :| c in m && Total(m) == m[c] + Total(m - {c});
    if c != k {
      TotalTakes(m - {c}, k);
      TotalTakes(m - {k}, c);
      assert m - {c} - {k} == m - {k} - {c};
    }
  }

  lemma {:induction false} TotalUpdates(m: map<Symbol, Quantity>, k: Symbol, v: Quantity)
    ensures Total(m[k := v]) == Total(m) - (if k in m then m[k] else 0) + v
  {
    var m' := m[k := v];
    TotalTakes(m', k);
    if k in m {
      TotalTakes(m, k);
      assert m' - {k} == m - {k};
    } else {
      assert m' - {k} == m;
    }
  }

  ghost predicate TraderOk(st: TraderState, l: Limits) {
    && (forall s :: s in st.positions ==> Abs(st.positions[s]) <= l.maxPerSymbol)
    && Abs(st.net) <= l.maxNet
    && st.net == Total(st.positions)
  }

  ghost predicate LimitsSane(r: Risk) {
    forall t :: 0 <= r.LimitsOf(t).maxPerSymbol && 0 <= r.LimitsOf(t).maxNet
  }

  /** Every trader is inside the limits, and nets to the sum of the symbol positions. */
  ghost predicate PositionsOk(r: Risk) {
    LimitsSane(r) && forall t :: t in r.states ==> TraderOk(r.states[t], r.LimitsOf(t))
  }

  lemma {:induction false} CheckKeepsPositions(r: Risk, o: Order)
    requires PositionsOk(r)
    ensures PositionsOk(AfterCheck(r, o))
  {
    NewTraderOk(r, o.trader);
    var r' := AfterCheck(r, o);
    assert forall t :: r'.LimitsOf(t) == r.LimitsOf(t);
  }

  lemma {:induction false} NewTraderOk(r: Risk, t: TraderId)
    requires PositionsOk(r)
    ensures TraderOk(r.StateOf(t), r.LimitsOf(t))
  {
    assert 0 <= r.LimitsOf(t).maxPerSymbol;
  }

  /** A fill of no more than the checked quantity stays inside the limits: positions move
      between two points that are both inside. */
  lemma {:induction false} CheckedFillKeepsPositions(r: Risk, o: Order, filled: Quantity)
    requires PositionsOk(r) && Verdict(r, o) == NoReason && 0 <= filled <= o.qty
    ensures PositionsOk(AfterFill(AfterCheck(r, o), o.trader, o.symbol, o.side, filled))
  {
    NewTraderOk(r, o.trader);
    CheckKeepsPositions(r, o);
    FillKeepsPositions(AfterCheck(r, o), o.trader, o.symbol, o.side, filled);
  }

  lemma {:induction false} FillKeepsPositions(r: Risk, t: TraderId, symbol: Symbol, side: Side, qty: Quantity)
    requires PositionsOk(r)
    requires Abs(PositionIn(r.StateOf(t), symbol) + Signed(side, qty)) <= r.LimitsOf(t).maxPerSymbol
    requires Abs(r.StateOf(t).net + Signed(side, qty)) <= r.LimitsOf(t).maxNet
    ensures PositionsOk(AfterFill(r, t, symbol, side, qty))
  {
    NewTraderOk(r, t);
    var st, r' := r.StateOf(t), AfterFill(r, t, symbol, side, qty);
    TotalUpdates(st.positions, symbol, PositionIn(st, symbol) + Signed(side, qty));
    assert forall u :: r'.LimitsOf(u) == r.LimitsOf(u);
  }

  // ---------------------------------------------------------------- the window property

  ghost predicate NonDecreasing(times: seq<Timestamp>) {
    forall i, j :: 0 <= i < j < |times| ==> times[i] <= times[j]
  }

  /** The limiter's memory is the recent end of the history of passed orders, cut exactly
      where orders are older than the window at the last check; and no window of the whole
      history holds more than the limit. */
  ghost predicate LimiterOk(stamps: seq<Timestamp>, passed: seq<Timestamp>, last: Timestamp, l: Limits) {
    var cut := |passed| - |stamps|;
    && 0 <= cut && stamps == passed[cut..]
    && NonDecreasing(passed)
    && (forall i :: 0 <= i < |passed| ==> passed[i] <= last < U64)
    && (forall i :: 0 <= i < |passed| ==> (cut <= i <==> last - passed[i] <= WindowNs(l)))
    && (forall i, j :: 0 <= i && j == i + l.maxRate && j < |passed| ==> WindowNs(l) < passed[j] - passed[i])
  }

  lemma {:induction false} NoWrap(now: Timestamp, stamp: Timestamp)
    requires stamp <= now < U64
    ensures Age(now, stamp) == now - stamp
  {
  }

  /** Dropping from the front drops exactly the expired stamps. */
  lemma {:induction false} TrimIsSuffix(stamps: seq<Timestamp>, now: Timestamp, w: int) returns (n: nat)
    requires NonDecreasing(stamps) && now < U64 && forall i :: 0 <= i < |stamps| ==> stamps[i] <= now
    ensures n <= |stamps| && Trim(stamps, now, w) == stamps[n..]
    ensures forall i :: 0 <= i < |stamps| ==> (n <= i <==> now - stamps[i] <= w)
  {
    n := 0;
    if stamps != [] {
      NoWrap(now, stamps[0]);
      if Expired(now, stamps[0], w) {
        n := TrimIsSuffix(stamps[1..], now, w);
        n := n + 1;
        assert forall i :: 1 <= i < |stamps| ==> stamps[i] == stamps[1..][i - 1];
      }
    }
  }

  lemma {:induction false} TrimKeepsLimiter(stamps: seq<Timestamp>, passed: seq<Timestamp>, last: Timestamp,
                                            now: Timestamp, l: Limits)
    requires LimiterOk(stamps, passed, last, l) && last <= now < U64
    ensures LimiterOk(Trim(stamps, now, WindowNs(l)), passed, now, l)
  {
    var cut := |passed| - |stamps|;
    assert forall i :: 0 <= i < |stamps| ==> stamps[i] == passed[cut + i];
    var n := TrimIsSuffix(stamps, now, WindowNs(l));
    SuffixKeepsLimiter(stamps, passed, last, now, l, n);
  }

  lemma {:induction false} SuffixKeepsLimiter(stamps: seq<Timestamp>, passed: seq<Timestamp>, last: Timestamp,
                                              now: Timestamp, l: Limits, n: nat)
    requires LimiterOk(stamps, passed, last, l) && last <= now < U64 && n <= |stamps|
    requires forall i :: 0 <= i < |stamps| ==> (n <= i <==> now - stamps[i] <= WindowNs(l))
    ensures LimiterOk(stamps[n..], passed, now, l)
  {
    hide WindowNs;
    var cut := |passed| - |stamps|;
    assert stamps[n..] == passed[cut + n..];
    forall i | 0 <= i < |passed|
      ensures cut + n <= i <==> now - passed[i] <= WindowNs(l)
    {
      if cut <= i {
        assert stamps[i - cut] == passed[i];
      }
    }
  }

  /** One check, in order of submission: the limiter stays exact, and an order passed never
      makes one too many in any window. */
  lemma {:induction false} RateCheckKeepsLimiter(stamps: seq<Timestamp>, passed: seq<Timestamp>, last: Timestamp,
                                                 now: Timestamp, l: Limits)
    requires LimiterOk(stamps, passed, last, l) && last <= now < U64
    ensures LimiterOk(AfterRate(stamps, now, l), passed + (if RateAllows(stamps, now, l) then [now] else []), now, l)
  {
    TrimKeepsLimiter(stamps, passed, last, now, l);
    if RateAllows(stamps, now, l) {
      PassKeepsLimiter(Trim(stamps, now, WindowNs(l)), passed, now, l);
    } else {
      assert Trim(stamps, now, WindowNs(l)) + [] == Trim(stamps, now, WindowNs(l)) && passed + [] == passed;
    }
  }

  lemma {:induction false} PassKeepsLimiter(kept: seq<Timestamp>, passed: seq<Timestamp>, now: Timestamp, l: Limits)
    requires LimiterOk(kept, passed, now, l) && |kept| < l.maxRate && now < U64
    ensures LimiterOk(kept + [now], passed + [now], now, l)
  {
    var passed', cut := passed + [now], |passed| - |kept|;
    assert passed'[cut..] == kept + [now];
    forall i, j | 0 <= i && j == i + l.maxRate && j < |passed'|
      ensures WindowNs(l) < passed'[j] - passed'[i]
    {
      if j == |passed| {
        assert i < cut;
      }
    }
  }

  /** Number of times inside a closed interval. */
  function CountWithin(times: seq<Timestamp>, from: int, to: int): (n: nat)
    ensures n <= |times|
  {
    if times == [] then 0
    else (if from <= times[0] <= to then 1 else 0) + CountWithin(times[1..], from, to)
  }

  /** Passed times inside the window that starts at `from`. */
  function InWindow(times: seq<Timestamp>, from: int, l: Limits): nat {
    CountWithin(times, from, from + WindowNs(l))
  }

  lemma {:induction false} CountWithinConcat(a: seq<Timestamp>, b: seq<Timestamp>, from: int, to: int)
    ensures CountWithin(a + b, from, to) == CountWithin(a, from, to) + CountWithin(b, from, to)
  {
    if a == [] {
      assert a + b == b;
    } else {
      assert (a + b)[1..] == a[1..] + b;
      CountWithinConcat(a[1..], b, from, to);
    }
  }

  lemma {:induction false} CountWithinNone(times: seq<Timestamp>, from: int, to: int)
    requires forall i :: 0 <= i < |times| ==> to < times[i]
    ensures CountWithin(times, from, to) == 0
  {
    if times != [] {
      CountWithinNone(times[1..], from, to);
    }
  }

  /** Any closed interval of the window's length contains at most `max` passed orders. */
  lemma {:induction false} WindowHoldsAtMost(times: seq<Timestamp>, from: int, window: int, max: nat)
    requires NonDecreasing(times)
    requires forall i, j :: 0 <= i && j == i + max && j < |times| ==> window < times[j] - times[i]
    ensures CountWithin(times, from, from + window) <= max
    decreases |times|
  {
    if times != [] {
      if times[0] < from {
        WindowHoldsAtMost(times[1..], from, window, max);
      } else {
        var k := Min(max, |times|);
        assert times == times[..k] + times[k..];
        CountWithinConcat(times[..k], times[k..], from, from + window);
        forall i | 0 <= i < |times[k..]|
          ensures from + window < times[k..][i]
        {
          assert times[k..][i] == times[k + i] && times[k] <= times[k + i];
          assert k == 0 + max;
        }
        CountWithinNone(times[k..], from, from + window);
      }
    }
  }

  lemma {:induction false} CountWithinBelow(times: seq<Timestamp>, from: int, to: int)
    requires forall i :: 0 <= i < |times| ==> times[i] < from
    ensures CountWithin(times, from, to) == 0
  {
    if times != [] {
      CountWithinBelow(times[1..], from, to);
    }
  }

  lemma {:induction false} CountWithinAll(times: seq<Timestamp>, from: int, to: int)
    requires forall i :: 0 <= i < |times| ==> from <= times[i] <= to
    ensures CountWithin(times, from, to) == |times|
  {
    if times != [] {
      CountWithinAll(times[1..], from, to);
    }
  }

  /** An exact limiter holds exactly the passed orders of the window that ends at its last
      check. */
  lemma {:induction false} LimiterIsWindow(stamps: seq<Timestamp>, passed: seq<Timestamp>, last: Timestamp, l: Limits)
    requires LimiterOk(stamps, passed, last, l)
    ensures |stamps| == InWindow(passed, last - WindowNs(l), l)
  {
    var cut, from := |passed| - |stamps|, last - WindowNs(l);
    assert passed == passed[..cut] + stamps;
    CountWithinConcat(passed[..cut], stamps, from, last);
    CountWithinBelow(passed[..cut], from, last);
    forall i | 0 <= i < |stamps|
      ensures from <= stamps[i] <= last
    {
      assert stamps[i] == passed[cut + i];
    }
    CountWithinAll(stamps, from, last);
  }

  /** In order of submission, an order passes exactly when the window that ends with it holds
      fewer passed orders than the limit. */
  lemma {:induction false} PassesIffRoom(stamps: seq<Timestamp>, passed: seq<Timestamp>, last: Timestamp,
                                         now: Timestamp, l: Limits)
    requires LimiterOk(stamps, passed, last, l) && last <= now < U64
    ensures RateAllows(stamps, now, l) <==> InWindow(passed, now - WindowNs(l), l) < l.maxRate
  {
    TrimKeepsLimiter(stamps, passed, last, now, l);
    LimiterIsWindow(Trim(stamps, now, WindowNs(l)), passed, now, l);
  }

  // ---------------------------------------------------------------- histories of checks

  /** Submit times of one trader's orders that passed all checks, over a series of checks. */
  function PassedTimes(r: Risk, t: TraderId, orders: seq<Order>): seq<Timestamp>
    decreases |orders|
  {
    if orders == [] then []
    else
      var o := orders[0];
      (if o.trader == t && Verdict(r, o) == NoReason then [o.submitTime] else [])
      + PassedTimes(AfterCheck(r, o), t, orders[1..])
  }

  ghost predicate InSubmitOrder(t: TraderId, orders: seq<Order>, from: Timestamp) {
    && (forall i :: 0 <= i < |orders| && orders[i].trader == t ==> from <= orders[i].submitTime < U64)
    && (forall i, j :: 0 <= i < j < |orders| && orders[i].trader == t && orders[j].trader == t ==>
          orders[i].submitTime <= orders[j].submitTime)
  }

  lemma {:induction false} CheckKeepsLimiter(r: Risk, o: Order, t: TraderId, passed: seq<Timestamp>, last: Timestamp)
    returns (last': Timestamp)
    requires LimiterOk(r.StateOf(t).stamps, passed, last, r.LimitsOf(t))
    requires o.trader == t ==> last <= o.submitTime < U64
    ensures LimiterOk(AfterCheck(r, o).StateOf(t).stamps,
                      passed + (if o.trader == t && Verdict(r, o) == NoReason then [o.submitTime] else []),
                      last', r.LimitsOf(t))
    ensures last <= last' && (o.trader == t ==> last' <= o.submitTime) && (o.trader != t ==> last' == last)
    ensures AfterCheck(r, o).LimitsOf(t) == r.LimitsOf(t)
  {
    last' := last;
    assert passed + [] == passed;
    if o.trader == t && Verdict(r, o) in {NoReason, RateLimit} {
      var st, l := r.StateOf(t), r.LimitsOf(t);
      RateCheckKeepsLimiter(st.stamps, passed, last, o.submitTime, l);
      last' := o.submitTime;
      assert AfterCheck(r, o).StateOf(t).stamps == AfterRate(st.stamps, o.submitTime, l);
    } else {
      assert AfterCheck(r, o).StateOf(t).stamps == r.StateOf(t).stamps;
    }
  }

  lemma {:induction false} ChecksKeepLimiter(r: Risk, t: TraderId, orders: seq<Order>, passed: seq<Timestamp>,
                                             last: Timestamp) returns (last': Timestamp)
    requires LimiterOk(r.StateOf(t).stamps, passed, last, r.LimitsOf(t)) && InSubmitOrder(t, orders, last)
    ensures LimiterOk(AfterChecks(r, orders).StateOf(t).stamps, passed + PassedTimes(r, t, orders), last',
                      r.LimitsOf(t))
    decreases |orders|
  {
    hide LimiterOk;
    hide Verdict;
    hide AfterCheck;
    if orders == [] {
      assert passed + [] == passed;
      last' := last;
    } else {
      var last1 := CheckKeepsLimiter(r, orders[0], t, passed, last);
      var one := if orders[0].trader == t && Verdict(r, orders[0]) == NoReason then [orders[0].submitTime] else [];
      var r1 := AfterCheck(r, orders[0]);
      LaterInOrder(t, orders, last, last1);
      last' := ChecksKeepLimiter(r1, t, orders[1..], passed + one, last1);
      assert (passed + one) + PassedTimes(r1, t, orders[1..]) == passed + PassedTimes(r, t, orders);
    }
  }

  lemma {:induction false} LaterInOrder(t: TraderId, orders: seq<Order>, from: Timestamp, from': Timestamp)
    requires orders != [] && InSubmitOrder(t, orders, from)
    requires from' == from || (orders[0].trader == t && from' <= orders[0].submitTime)
    ensures InSubmitOrder(t, orders[1..], from')
  {
  }

  function AfterChecks(r: Risk, orders: seq<Order>): Risk
    decreases |orders|
  {
    if orders == [] then r else AfterChecks(AfterCheck(r, orders[0]), orders[1..])
  }

  lemma {:induction false} LimiterFromStart(r: Risk, t: TraderId, orders: seq<Order>) returns (last: Timestamp)
    requires r.StateOf(t).stamps == [] && InSubmitOrder(t, orders, 0)
    ensures LimiterOk(AfterChecks(r, orders).StateOf(t).stamps, PassedTimes(r, t, orders), last, r.LimitsOf(t))
  {
    assert LimiterOk([], [], 0, r.LimitsOf(t));
    hide LimiterOk;
    hide PassedTimes;
    hide AfterChecks;
    last := ChecksKeepLimiter(r, t, orders, [], 0);
    assert [] + PassedTimes(r, t, orders) == PassedTimes(r, t, orders);
  }

  /** Over any series of checks with a trader's submit times in order, no closed interval as
      long as the rate window contains more passed orders of the trader than the limit. */
  lemma {:induction false} RateLimitHolds(r: Risk, t: TraderId, orders: seq<Order>, from: int)
    requires r.StateOf(t).stamps == [] && InSubmitOrder(t, orders, 0)
    ensures InWindow(PassedTimes(r, t, orders), from, r.LimitsOf(t)) <= r.LimitsOf(t).maxRate
  {
    hide LimiterOk;
    hide PassedTimes;
    hide AfterChecks;
    hide CountWithin;
    hide InWindow;
    var last := LimiterFromStart(r, t, orders);
    var stamps := AfterChecks(r, orders).StateOf(t).stamps;
    LimiterBoundsWindows(stamps, PassedTimes(r, t, orders), last, r.LimitsOf(t), from);
  }

  lemma {:induction false} LimiterBoundsWindows(stamps: seq<Timestamp>, passed: seq<Timestamp>, last: Timestamp,
                                                l: Limits, from: int)
    requires LimiterOk(stamps, passed, last, l)
    ensures InWindow(passed, from, l) <= l.maxRate
  {
    WindowHoldsAtMost(passed, from, WindowNs(l), l.maxRate);
  }

  // ---------------------------------------------------------------- submit times out of order

  /** A stamp newer than the order checked wraps around to an age beyond the window. */
  predicate Forgotten(now: Timestamp, stamp: Timestamp, windowNs: nat) {
    now < stamp && stamp - now + windowNs < U64
  }

  /** Exactly when a stamp counts as expired: when it is older than the window, or when it is
      newer than the order checked and its wrapped age exceeds the window. */
  lemma {:induction false} ExpiredIff(now: Timestamp, stamp: Timestamp, windowNs: nat)
    requires now < U64 && stamp < U64
    ensures Expired(now, stamp, windowNs) <==> Forgotten(now, stamp, windowNs) || stamp + windowNs < now
  {
    if now < stamp {
      assert (now - stamp) % U64 == now - stamp + U64;
    }
  }

  lemma {:induction false} TrimDrops(stamps: seq<Timestamp>, now: Timestamp, w: int) returns (n: nat)
    ensures n <= |stamps| && Trim(stamps, now, w) == stamps[n..]
    ensures 0 < n <==> stamps != [] && Expired(now, stamps[0], w)
    ensures forall i :: 0 <= i < n ==> Expired(now, stamps[i], w)
  {
    n := 0;
    if stamps != [] && Expired(now, stamps[0], w) {
      n := TrimDrops(stamps[1..], now, w);
      n := n + 1;
      assert forall i :: 1 <= i < n ==> stamps[i] == stamps[1..][i - 1];
    }
  }

  /** The check at `now` drops a stamp that is not older than the window. */
  ghost predicate DropsRecent(stamps: seq<Timestamp>, now: Timestamp, windowNs: int) {
    exists i :: 0 <= i < |stamps| - |Trim(stamps, now, windowNs)| && now - stamps[i] <= windowNs
  }

  /** A check, in order or out of order, drops nothing but stamps older than the window
      exactly when it does not forget the oldest stamp. */
  lemma {:induction false} DropsRecentIff(stamps: seq<Timestamp>, passed: seq<Timestamp>, last: Timestamp,
                                          now: Timestamp, l: Limits)
    requires LimiterOk(stamps, passed, last, l) && now < U64
    ensures DropsRecent(stamps, now, WindowNs(l))
       <==> stamps != [] && Forgotten(now, stamps[0], WindowNs(l))
  {
    var w, cut := WindowNs(l), |passed| - |stamps|;
    var n := TrimDrops(stamps, now, w);
    assert forall i :: 0 <= i < |stamps| ==> stamps[i] == passed[cut + i];
    if stamps != [] {
      ExpiredIff(now, stamps[0], w);
      forall i | 0 <= i < n && now - stamps[i] <= w
        ensures Forgotten(now, stamps[0], w)
      {
        ExpiredIff(now, stamps[i], w);
        assert last - stamps[0] <= w;
      }
    }
  }

  /** Times passed after one more check. */
  function PassedWith(stamps: seq<Timestamp>, passed: seq<Timestamp>, now: Timestamp, l: Limits): seq<Timestamp> {
    if RateAllows(stamps, now, l) then passed + [now] else passed
  }

  ghost predicate WindowsBounded(times: seq<Timestamp>, l: Limits) {
    forall from: int :: InWindow(times, from, l) <= l.maxRate
  }

  /** A full limiter that forgets its oldest stamp lets the order pass, and the window that
      starts with the order then holds more orders than the limit. */
  lemma {:induction false} ForgettingBreaksLimit(stamps: seq<Timestamp>, passed: seq<Timestamp>, last: Timestamp,
                                                 now: Timestamp, l: Limits)
    requires LimiterOk(stamps, passed, last, l) && 0 < l.maxRate == |stamps|
    requires Forgotten(now, stamps[0], WindowNs(l)) && last - now <= WindowNs(l)
    ensures RateAllows(stamps, now, l)
    ensures l.maxRate < InWindow(passed + [now], now, l)
  {
    var cut := |passed| - |stamps|;
    ExpiredIff(now, stamps[0], WindowNs(l));
    var n := TrimDrops(stamps, now, WindowNs(l));
    assert passed + [now] == passed[..cut] + (stamps + [now]);
    CountWithinConcat(passed[..cut], stamps + [now], now, now + WindowNs(l));
    forall i | 0 <= i < |stamps + [now]|
      ensures now <= (stamps + [now])[i] <= now + WindowNs(l)
    {
      if i < |stamps| {
        assert stamps[i] == passed[cut + i] && passed[cut] == stamps[0];
      }
    }
    CountWithinAll(stamps + [now], now, now + WindowNs(l));
  }

  // ---------------------------------------------------------------- when the bound survives a check

  /** As many passed orders as the limit allows, one after the other, fit into one window
      together with `now`. */
  ghost predicate Crowded(passed: seq<Timestamp>, now: Timestamp, l: Limits)
    requires 0 < l.maxRate
  {
    exists i :: 0 <= i <= |passed| - l.maxRate && Fits(passed[i], passed[i + l.maxRate - 1], now, l)
  }

  predicate Fits(first: Timestamp, final: Timestamp, now: Timestamp, l: Limits) {
    Max(final, now) - Min(first, now) <= WindowNs(l)
  }

  /** Fewer than `max` of a sorted list lie in an interval that its max-th entry exceeds. */
  lemma {:induction false} FewInFront(times: seq<Timestamp>, from: int, to: int, max: nat)
    requires NonDecreasing(times) && 0 < max && (|times| < max || to < times[max - 1])
    ensures CountWithin(times, from, to) < max
  {
    if max <= |times| {
      var k := max - 1;
      assert times == times[..k] + times[k..];
      CountWithinConcat(times[..k], times[k..], from, to);
      forall i | 0 <= i < |times[k..]|
        ensures to < times[k..][i]
      {
        assert times[k..][i] == times[k + i] && times[k] <= times[k + i];
      }
      CountWithinNone(times[k..], from, to);
    }
  }

  /** An interval holds `max` entries of a sorted list only if it holds `max` in a row. */
  lemma {:induction false} RunInside(times: seq<Timestamp>, from: int, to: int, max: nat) returns (i: nat)
    requires NonDecreasing(times) && 0 < max <= CountWithin(times, from, to)
    ensures i + max <= |times| && from <= times[i] && times[i + max - 1] <= to
    decreases |times|
  {
    i := 0;
    if times[0] < from {
      i := RunInside(times[1..], from, to, max);
      i := i + 1;
    } else if |times| < max || to < times[max - 1] {
      FewInFront(times, from, to, max);
    }
  }

  lemma {:induction false} RunCounts(times: seq<Timestamp>, from: int, to: int, max: nat, i: nat)
    requires NonDecreasing(times) && 0 < max && i + max <= |times|
    requires from <= times[i] && times[i + max - 1] <= to
    ensures max <= CountWithin(times, from, to)
  {
    var mid := times[i..i + max];
    assert times == times[..i] + (mid + times[i + max..]);
    CountWithinConcat(times[..i], mid + times[i + max..], from, to);
    CountWithinConcat(mid, times[i + max..], from, to);
    forall j | 0 <= j < max
      ensures from <= mid[j] <= to
    {
      assert mid[j] == times[i + j] && times[i] <= times[i + j] <= times[i + max - 1];
    }
    CountWithinAll(mid, from, to);
  }

  /** One more order, at any time, overfills a window exactly when it meets a crowd. */
  lemma {:induction false} OneMoreFitsIff(passed: seq<Timestamp>, now: Timestamp, l: Limits)
    requires NonDecreasing(passed) && WindowsBounded(passed, l) && 0 < l.maxRate
    ensures WindowsBounded(passed + [now], l) <==> !Crowded(passed, now, l)
  {
    if Crowded(passed, now, l) {
      var from := CrowdOverfills(passed, now, l);
    } else {
      forall from: int
        ensures InWindow(passed + [now], from, l) <= l.maxRate
      {
        WindowKeepsRoom(passed, now, l, from);
      }
    }
  }

  lemma {:induction false} CrowdOverfills(passed: seq<Timestamp>, now: Timestamp, l: Limits) returns (from: int)
    requires NonDecreasing(passed) && 0 < l.maxRate && Crowded(passed, now, l)
    ensures l.maxRate < InWindow(passed + [now], from, l)
  {
    hide WindowNs;
    hide NonDecreasing;
    hide CountWithin;
    var i :| 0 <= i <= |passed| - l.maxRate && Fits(passed[i], passed[i + l.maxRate - 1], now, l);
    from := Min(passed[i], now);
    RunCounts(passed, from, from + WindowNs(l), l.maxRate, i);
    CountWithinConcat(passed, [now], from, from + WindowNs(l));
    CountOne(now, from, from + WindowNs(l));
  }

  lemma {:induction false} OverfullMeansCrowd(passed: seq<Timestamp>, now: Timestamp, l: Limits, from: int)
    requires NonDecreasing(passed) && 0 < l.maxRate && from <= now <= from + WindowNs(l)
    requires l.maxRate <= InWindow(passed, from, l)
    ensures Crowded(passed, now, l)
  {
    var i := RunInside(passed, from, from + WindowNs(l), l.maxRate);
    assert Fits(passed[i], passed[i + l.maxRate - 1], now, l);
  }

  lemma {:induction false} CountOne(x: Timestamp, from: int, to: int)
    ensures CountWithin([x], from, to) == if from <= x <= to then 1 else 0
  {
    assert [x][1..] == [];
  }

  lemma {:induction false} WindowKeepsRoom(passed: seq<Timestamp>, now: Timestamp, l: Limits, from: int)
    requires NonDecreasing(passed) && WindowsBounded(passed, l) && 0 < l.maxRate && !Crowded(passed, now, l)
    ensures InWindow(passed + [now], from, l) <= l.maxRate
  {
    var to := from + WindowNs(l);
    assert InWindow(passed, from, l) <= l.maxRate;
    CountWithinConcat(passed, [now], from, to);
    CountOne(now, from, to);
    if from <= now <= to && l.maxRate <= InWindow(passed, from, l) {
      OverfullMeansCrowd(passed, now, l, from);
    }
  }

  lemma {:induction false} HoldsAtMostLimit(stamps: seq<Timestamp>, passed: seq<Timestamp>, last: Timestamp, l: Limits)
    requires LimiterOk(stamps, passed, last, l)
    ensures |stamps| <= l.maxRate
  {
    LimiterIsWindow(stamps, passed, last, l);
    LimiterBoundsWindows(stamps, passed, last, l, last - WindowNs(l));
  }

  /** The limiter never holds more than the limit, and refuses exactly when it is full and its
      oldest stamp neither is older than the window nor is forgotten. */
  lemma {:induction false} RateAllowsIff(stamps: seq<Timestamp>, passed: seq<Timestamp>, last: Timestamp,
                                         now: Timestamp, l: Limits)
    requires LimiterOk(stamps, passed, last, l) && now < U64 && 0 < l.maxRate
    ensures |stamps| <= l.maxRate
    ensures RateAllows(stamps, now, l)
       <==> |stamps| < l.maxRate || Forgotten(now, stamps[0], WindowNs(l)) || stamps[0] + WindowNs(l) < now
  {
    var cut := |passed| - |stamps|;
    assert stamps != [] ==> stamps[0] == passed[cut];
    HoldsAtMostLimit(stamps, passed, last, l);
    var n := TrimDrops(stamps, now, WindowNs(l));
    if stamps != [] {
      ExpiredIff(now, stamps[0], WindowNs(l));
    }
  }

  /** Exactly when the bound on every window survives a check, in order or out of order, of a
      limiter that was exact before: unless the order is let through into a crowd. */
  lemma {:induction false} LimitHoldsIff(stamps: seq<Timestamp>, passed: seq<Timestamp>, last: Timestamp,
                                         now: Timestamp, l: Limits)
    requires LimiterOk(stamps, passed, last, l) && now < U64 && 0 < l.maxRate
    ensures WindowsBounded(PassedWith(stamps, passed, now, l), l)
       <==> !(Crowded(passed, now, l)
              && (|stamps| < l.maxRate || Forgotten(now, stamps[0], WindowNs(l)) || stamps[0] + WindowNs(l) < now))
  {
    RateAllowsIff(stamps, passed, last, now, l);
    LimiterBounds(stamps, passed, last, l);
    OneMoreFitsIff(passed, now, l);
  }

  lemma {:induction false} LimiterBounds(stamps: seq<Timestamp>, passed: seq<Timestamp>, last: Timestamp, l: Limits)
    requires LimiterOk(stamps, passed, last, l)
    ensures WindowsBounded(passed, l)
  {
    forall from: int
      ensures InWindow(passed, from, l) <= l.maxRate
    {
      LimiterBoundsWindows(stamps, passed, last, l, from);
    }
  }

  /** For a full limiter and a step back of at most a window, the deque alone decides: the
      bound survives exactly when the check does not forget the oldest stamp. */
  lemma {:induction false} FullLimiterHoldsIff(stamps: seq<Timestamp>, passed: seq<Timestamp>, last: Timestamp,
                                               now: Timestamp, l: Limits)
    requires LimiterOk(stamps, passed, last, l) && 0 < l.maxRate == |stamps|
    requires now < U64 && last - now <= WindowNs(l)
    ensures WindowsBounded(PassedWith(stamps, passed, now, l), l) <==> !Forgotten(now, stamps[0], WindowNs(l))
  {
    LimitHoldsIff(stamps, passed, last, now, l);
    var cut := |passed| - |stamps|;
    assert stamps[0] == passed[cut];
    if Forgotten(now, stamps[0], WindowNs(l)) {
      assert Fits(passed[cut], passed[cut + l.maxRate - 1], now, l);
    } else if stamps[0] + WindowNs(l) < now {
      assert forall i :: 0 <= i <= cut ==> passed[i] <= passed[cut];
    }
  }

  /** The bound survives a check at `now`, whatever passed before the last check at `last`. */
  ghost predicate SurvivesAnyHistory(last: Timestamp, now: Timestamp, l: Limits) {
    forall stamps, passed ::
      LimiterOk(stamps, passed, last, l) ==> WindowsBounded(PassedWith(stamps, passed, now, l), l)
  }

  /** The times alone decide for all histories at once: the bound is safe exactly when time
      does not step back. */
  lemma {:induction false} SafeIffInOrder(last: Timestamp, now: Timestamp, l: Limits)
    requires last < U64 && now < U64 && 0 < l.maxRate && last - now + WindowNs(l) < U64
    ensures SurvivesAnyHistory(last, now, l) <==> last <= now
  {
    if last <= now {
      forall stamps, passed | LimiterOk(stamps, passed, last, l)
        ensures WindowsBounded(PassedWith(stamps, passed, now, l), l)
      {
        RateCheckKeepsLimiter(stamps, passed, last, now, l);
        assert passed + [] == passed;
        LimiterBounds(AfterRate(stamps, now, l), PassedWith(stamps, passed, now, l), now, l);
      }
    } else {
      var stamps, passed := StepBackBreaks(last, now, l);
      assert !WindowsBounded(PassedWith(stamps, passed, now, l), l);
    }
  }

  /** For every step back there is a history that breaks the limit: a full burst at the last
      check when that is within a window, and otherwise a full burst at `now` before it. */
  lemma {:induction false} StepBackBreaks(last: Timestamp, now: Timestamp, l: Limits)
    returns (stamps: seq<Timestamp>, passed: seq<Timestamp>)
    requires now < last < U64 && 0 < l.maxRate && last - now + WindowNs(l) < U64
    ensures LimiterOk(stamps, passed, last, l)
    ensures !WindowsBounded(PassedWith(stamps, passed, now, l), l)
  {
    if last - now <= WindowNs(l) {
      passed := seq(l.maxRate, _ => last);
      stamps := passed;
      LateBurst(passed, last, l);
    } else {
      passed, stamps := seq(l.maxRate, _ => now) + [last], [last];
      EarlyBurst(passed, now, last, l);
    }
    LimitHoldsIff(stamps, passed, last, now, l);
    hide LimiterOk;
    assert Fits(passed[0], passed[l.maxRate - 1], now, l);
  }

  lemma {:induction false} LateBurst(passed: seq<Timestamp>, last: Timestamp, l: Limits)
    requires last < U64 && |passed| == l.maxRate && forall i :: 0 <= i < |passed| ==> passed[i] == last
    ensures LimiterOk(passed, passed, last, l)
  {
    assert passed == passed[0..];
  }

  lemma {:induction false} EarlyBurst(passed: seq<Timestamp>, now: Timestamp, last: Timestamp, l: Limits)
    requires WindowNs(l) < last - now && last < U64 && 0 < l.maxRate == |passed| - 1
    requires passed[l.maxRate] == last && forall i :: 0 <= i < l.maxRate ==> passed[i] == now
    ensures LimiterOk([last], passed, last, l)
  {
    assert [last] == passed[l.maxRate..];
  }

  /** Nothing needs to be forgotten for the bound to fail: with a limit of three per
      millisecond these five orders all pass, the last one out of order before a limiter
      that is not full, and four of them lie within one millisecond. */
  lemma {:induction false} LimitFailsWithoutForgetting()
    ensures var l := Limits(0, 0, 3, 1);
            && AfterRate([], 0, l) == [0] && AfterRate([0], 0, l) == [0, 0]
            && AfterRate([0, 0], 900_000, l) == [0, 0, 900_000]
            && AfterRate([0, 0, 900_000], 1_100_000, l) == [900_000, 1_100_000]
            && AfterRate([900_000, 1_100_000], 1_000_000, l) == [900_000, 1_100_000, 1_000_000]
            && !DropsRecent([900_000, 1_100_000], 1_000_000, WindowNs(l))
            && InWindow([0, 0, 900_000, 1_100_000, 1_000_000], 0, l) == 4
  {
    var l := Limits(0, 0, 3, 1);
    assert WindowNs(l) == 1_000_000;
    assert Trim([0], 0, 1_000_000) == [0];
    assert Trim([0, 0], 900_000, 1_000_000) == [0, 0];
    assert [0, 0, 900_000][1..] == [0, 900_000] && [0, 900_000][1..] == [900_000];
    assert Trim([900_000], 1_100_000, 1_000_000) == [900_000];
    assert Trim([0, 900_000], 1_100_000, 1_000_000) == [900_000];
    assert Trim([900_000, 1_100_000], 1_000_000, 1_000_000) == [900_000, 1_100_000];
    CountOne(1_000_000, 0, 1_000_000);
    assert [1_100_000, 1_000_000][1..] == [1_000_000];
    assert [900_000, 1_100_000, 1_000_000][1..] == [1_100_000, 1_000_000];
    assert CountWithin([900_000, 1_100_000, 1_000_000], 0, 1_000_000) == 2;
    assert [0, 900_000, 1_100_000, 1_000_000][1..] == [900_000, 1_100_000, 1_000_000];
    assert [0, 0, 900_000, 1_100_000, 1_000_000][1..] == [0, 900_000, 1_100_000, 1_000_000];
  }

  /** The smallest case: with a limit of one per millisecond, submissions at 2 ns and then at
      1 ns both pass. */
  lemma {:induction false} LimiterForgetsOnStepBack()
    ensures var l := Limits(0, 0, 1, 1);
            && RateAllows([], 2, l) && AfterRate([], 2, l) == [2]
            && RateAllows([2], 1, l) && AfterRate([2], 1, l) == [1]
            && InWindow([2, 1], 1, l) == 2
  {
    ExpiredIff(1, 2, 1_000_000);
    var l := Limits(0, 0, 1, 1);
    assert WindowNs(l) == 1_000_000;
    assert [2][1..] == [];
    assert Trim([2], 1, 1_000_000) == Trim([], 1, 1_000_000) == [];
    assert CountWithin([1], 1, 1_000_001) == 1;
    assert [2, 1][1..] == [1];
  }
}
