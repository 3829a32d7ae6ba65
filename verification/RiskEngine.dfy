/** The risk engine object (src/risk/risk_engine.cpp), updating its records in place. */
module RiskControl {
  import opened Types
  import opened RiskSpec

  class RiskEngine {
    var defaults: Limits
    var limits: map<TraderId, Limits>
    var states: map<TraderId, TraderState>
    var globalKill: bool
    var ordersChecked: nat
    var ordersRejected: nat

    ghost function View(): Risk
      reads this
    {
      Risk(defaults, limits, states, globalKill)
    }

    constructor (defaults: Limits)
      ensures View() == Risk(defaults, map[], map[], false)
      ensures ordersChecked == ordersRejected == 0
    {
      this.defaults := defaults;
      limits, states, globalKill := map[], map[], false;
      ordersChecked, ordersRejected := 0, 0;
    }

    method SetTraderLimits(t: TraderId, l: Limits)
      modifies this`limits
      ensures LimitsOf(t) == l && forall u :: u != t ==> LimitsOf(u) == old(LimitsOf(u))
    {
      limits := limits[t := l];
    }

    /** Sets the limits of every trader without limits of its own. */
    method SetDefaultLimits(l: Limits)
      modifies this`defaults
      ensures forall t :: LimitsOf(t) == if t in limits then old(LimitsOf(t)) else l
    {
      defaults := l;
    }

    function StateOf(t: TraderId): TraderState
      reads this
    {
      if t in states then states[t] else NEW_TRADER
    }

    function LimitsOf(t: TraderId): Limits
      reads this
    {
      if t in limits then limits[t] else defaults
    }

    /** Runs the checks in order; only an order that passes them all is let through. */
    method CheckOrder(o: Order) returns (reason: RejectReason)
      modifies this
      ensures reason == Verdict(old(View()), o)
      ensures View() == AfterCheck(old(View()), o)
      ensures ordersChecked == old(ordersChecked) + 1
      ensures ordersRejected == old(ordersRejected) + (if reason == NoReason then 0 else 1)
    {
      ordersChecked := ordersChecked + 1;
      reason := CheckKillSwitch(o.trader);
      if reason == NoReason {
        reason := CheckValidity(o);
      }
      if reason == NoReason {
        reason := CheckPositionLimit(o);
        if reason == NoReason {
          reason := CheckRateLimit(o.trader, o.submitTime);
        }
      }
      if reason != NoReason {
        ordersRejected := ordersRejected + 1;
      }
    }

    method CheckKillSwitch(t: TraderId) returns (reason: RejectReason)
      ensures reason == if globalKill || StateOf(t).killed then KillSwitchActive else NoReason
    {
      var killed := IsKilled(t);
      reason := if globalKill || killed then KillSwitchActive else NoReason;
    }

    method CheckValidity(o: Order) returns (reason: RejectReason)
      ensures reason == if o.kind.Limit? && o.price <= 0 then InvalidPrice
                        else if o.qty <= 0 then InvalidQuantity else NoReason
    {
      if o.kind.Limit? && o.price <= 0 {
        return InvalidPrice;
      }
      if o.qty <= 0 {
        return InvalidQuantity;
      }
      reason := NoReason;
    }

    /** Projects the position as if the whole order filled. */
    method CheckPositionLimit(o: Order) returns (reason: RejectReason)
      modifies this`states
      ensures states == old(states)[o.trader := old(StateOf(o.trader))]
      ensures reason == if WithinLimits(old(StateOf(o.trader)), o, LimitsOf(o.trader)) then NoReason else PositionLimit
    {
      var l := LimitsOf(o.trader);
      var st := StateOf(o.trader);
      states := states[o.trader := st];
      var current := 0;
      if o.symbol in st.positions {
        current := st.positions[o.symbol];
      }
      var projected := if o.side.Buy? then current + o.qty else current - o.qty;
      if Abs(projected) > l.maxPerSymbol {
        return PositionLimit;
      }
      var projectedNet := if o.side.Buy? then st.net + o.qty else st.net - o.qty;
      if Abs(projectedNet) > l.maxNet {
        return PositionLimit;
      }
      reason := NoReason;
    }

    /** Sliding window: drops expired stamps from the front, then records the order if there
        is room for it. */
    method CheckRateLimit(t: TraderId, now: Timestamp) returns (reason: RejectReason)
      modifies this`states
      ensures var st := old(StateOf(t));
              states == old(states)[t := st.(stamps := AfterRate(st.stamps, now, LimitsOf(t)))]
      ensures reason == if RateAllows(old(StateOf(t)).stamps, now, LimitsOf(t)) then NoReason else RateLimit
    {
      var l := LimitsOf(t);
      var st := StateOf(t);
      var windowNs := l.windowMs * 1_000_000;
      var stamps := st.stamps;
      while stamps != [] && (now - stamps[0]) % U64 > windowNs
        invariant Trim(stamps, now, windowNs) == Trim(st.stamps, now, windowNs)
        decreases |stamps|
      {
        stamps := stamps[1..];
      }
      assert stamps == Trim(st.stamps, now, WindowNs(l));
      if |stamps| >= l.maxRate {
        assert stamps + [] == stamps;
        states := states[t := st.(stamps := stamps)];
        return RateLimit;
      }
      states := states[t := st.(stamps := stamps + [now])];
      reason := NoReason;
    }

    /** Books an execution. */
    method OnFill(t: TraderId, symbol: Symbol, side: Side, qty: Quantity)
      modifies this`states
      ensures View() == AfterFill(old(View()), t, symbol, side, qty)
    {
      var st := StateOf(t);
      var current := if symbol in st.positions then st.positions[symbol] else 0;
      if side.Buy? {
        st := st.(positions := st.positions[symbol := current + qty], net := st.net + qty);
      } else {
        st := st.(positions := st.positions[symbol := current - qty], net := st.net - qty);
      }
      states := states[t := st];
    }

    method KillTrader(t: TraderId, kill: bool)
      modifies this`states
      ensures forall u :: StateOf(u) == if u == t then old(StateOf(u)).(killed := kill) else old(StateOf(u))
      ensures kill ==> forall o: Order :: o.trader == t ==> Verdict(View(), o) == KillSwitchActive
      ensures !kill && !globalKill ==> forall o: Order :: o.trader == t ==> Verdict(View(), o) != KillSwitchActive
      ensures forall o: Order :: o.trader != t ==> Verdict(View(), o) == Verdict(old(View()), o)
    {
      states := states[t := StateOf(t).(killed := kill)];
    }

    method KillAll()
      modifies this`globalKill
      ensures forall o :: Verdict(View(), o) == KillSwitchActive
    {
      globalKill := true;
    }

    /** Lifts the global switch and every trader's own. */
    method UnkillAll()
      modifies this`globalKill, this`states
      ensures !globalKill
      ensures forall t :: StateOf(t) == old(StateOf(t)).(killed := false)
      ensures forall o :: Verdict(View(), o) != KillSwitchActive
    {
      globalKill := false;
      states := map t | t in states :: states[t].(killed := false);
    }

    method IsKilled(t: TraderId) returns (killed: bool)
      ensures killed == (globalKill || StateOf(t).killed)
    {
      if globalKill {
        return true;
      }
      killed := t in states && states[t].killed;
    }

    method GetPosition(t: TraderId, symbol: Symbol) returns (qty: Quantity)
      ensures qty == PositionIn(StateOf(t), symbol)
    {
      if t !in states || symbol !in states[t].positions {
        return 0;
      }
      qty := states[t].positions[symbol];
    }
  }
}
