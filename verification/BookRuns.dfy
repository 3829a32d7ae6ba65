/** Whole runs: any sequence of add, cancel and replace requests from an empty book. */
module BookRuns {
  import opened Types
  import opened PriceTime
  import opened BookSpec
  import opened BookInvariant
  import opened BookTheorems

  datatype Request =
    | AddOrder(order: Order)
    | CancelOrder(id: OrderId)
    | ReplaceOrder(req: ReplaceRequest)

  /** A request and the clock reading it is handled at. */
  datatype Event = Event(request: Request, ts: Timestamp)

  function Step(b: Book, e: Event): Reply {
    match e.request
    case AddOrder(o) => Submit(b, o, e.ts)
    case CancelOrder(id) => Cancel(b, id, e.ts)
    case ReplaceOrder(req) => Replace(b, req, e.ts)
  }

  function Run(b: Book, es: seq<Event>): Book
    decreases |es|
  {
    if es == [] then b else Run(Step(b, es[0]).book, es[1..])
  }

  /** Clock readings never decrease and start no earlier than `now`. */
  ghost predicate ClockFrom(now: Timestamp, es: seq<Event>) {
    && (forall i :: 0 <= i < |es| ==> now <= es[i].ts)
    && forall i, j :: 0 <= i < j < |es| ==> es[i].ts <= es[j].ts
  }

  // ---------------------------------------------------------------- reachable books

  ghost predicate NoReserve(b: Book) {
    NoHidden(b.bids) && NoHidden(b.asks)
  }

  lemma {:induction false} TrimmedNoHidden(flat: seq<L3Order>, rest: seq<L3Order>, n: nat)
    requires Trimmed(flat, rest, n) && NoHidden(flat)
    ensures NoHidden(rest)
  {
    forall i | 0 <= i < |rest|
      ensures rest[i].hidden == 0
    {
      assert Evolved(flat[n + i], rest[i]);
    }
  }

  lemma {:induction false} SubmitNoReserve(b: Book, o: Order, ts: Timestamp)
    requires Inv(b) && NoReserve(b)
    ensures NoReserve(Submit(b, o, ts).book)
  {
    if !HasId(b, o.id) {
      var n := MatchTrims(b, o, ts);
      TrimmedNoHidden(b.On(o.side.Opposite()), Match(b, o, ts).rest, n);
      SubmitAnatomy(b, o, ts);
      InsertNoHidden(o.side, b.On(o.side), NewResting(b.On(o.side), o, Match(b, o, ts).left, ts));
    }
  }

  lemma {:induction false} InsertNoHidden(side: Side, flat: seq<L3Order>, x: L3Order)
    requires NoHidden(flat) && x.hidden == 0
    ensures NoHidden(Insert(side, flat, x))
  {
  }

  lemma {:induction false} CancelNoReserve(b: Book, id: OrderId, ts: Timestamp)
    requires NoReserve(b)
    ensures NoReserve(Cancel(b, id, ts).book)
  {
    if HasId(b, id) {
      CancelAnatomy(b, id, ts);
      RemovalNoHidden(b.On(if Has(b.bids, id) then Buy else Sell), id);
    }
  }

  lemma {:induction false} RemovalNoHidden(flat: seq<L3Order>, id: OrderId)
    requires NoHidden(flat) && Has(flat, id)
    ensures NoHidden(Removal(flat, id))
  {
    forall i | 0 <= i < |Removal(flat, id)|
      ensures Removal(flat, id)[i].hidden == 0
    {
      RemovalAt(flat, id, i);
    }
  }

  lemma {:induction false} StepKeeps(b: Book, e: Event)
    requires Inv(b) && NoReserve(b)
    ensures Inv(Step(b, e).book) && NoReserve(Step(b, e).book)
  {
    match e.request
    case AddOrder(o) =>
      SubmitKeepsInv(b, o, e.ts);
      SubmitNoReserve(b, o, e.ts);
    case CancelOrder(id) =>
      CancelKeepsInv(b, id, e.ts);
      CancelNoReserve(b, id, e.ts);
    case ReplaceOrder(req) =>
      ReplaceKeepsInv(b, req, e.ts);
      CancelKeepsInv(b, req.id, e.ts);
      CancelNoReserve(b, req.id, e.ts);
      var c := Cancel(b, req.id, e.ts);
      if c.report.status.Canceled? {
        SubmitNoReserve(c.book, Replacement(req, c.report.side, e.ts), e.ts);
      }
  }

  lemma {:induction false} RunKeeps(b: Book, es: seq<Event>)
    requires Inv(b) && NoReserve(b)
    ensures Inv(Run(b, es)) && NoReserve(Run(b, es))
    decreases |es|
  {
    if es != [] {
      StepKeeps(b, es[0]);
      RunKeeps(Step(b, es[0]).book, es[1..]);
    }
  }

  /** Every reachable book is sorted, free of duplicate ids and of exhausted orders, bounds
      its stored positions, is never crossed, numbers its trades 1, 2, 3, ..., and holds
      no iceberg reserve. */
  lemma {:induction false} ReachableBooks(symbol: Symbol, es: seq<Event>)
    ensures Inv(Run(Empty(symbol), es)) && NoReserve(Run(Empty(symbol), es))
  {
    RunKeeps(Empty(symbol), es);
  }

  // ---------------------------------------------------------------- time priority

  /** Within a price, orders stand in the order in which they entered the book. */
  ghost predicate Fifo(flat: seq<L3Order>) {
    forall i, j :: 0 <= i < j < |flat| && flat[i].price == flat[j].price ==> flat[i].entryTime <= flat[j].entryTime
  }

  ghost predicate EnteredBy(flat: seq<L3Order>, now: Timestamp) {
    forall i :: 0 <= i < |flat| ==> flat[i].entryTime <= now
  }

  ghost predicate TimePriority(b: Book, now: Timestamp) {
    Fifo(b.bids) && Fifo(b.asks) && EnteredBy(b.bids, now) && EnteredBy(b.asks, now)
  }

  lemma {:induction false} TrimmedFifo(flat: seq<L3Order>, rest: seq<L3Order>, n: nat, now: Timestamp)
    requires Trimmed(flat, rest, n) && Fifo(flat) && EnteredBy(flat, now)
    ensures Fifo(rest) && EnteredBy(rest, now)
  {
    forall i | 0 <= i < |rest|
      ensures rest[i].price == flat[n + i].price && rest[i].entryTime == flat[n + i].entryTime <= now
    {
      assert Evolved(flat[n + i], rest[i]);
    }
  }

  lemma {:induction false} InsertFifo(side: Side, flat: seq<L3Order>, x: L3Order, now: Timestamp)
    requires SortedSide(side, flat) && Fifo(flat) && EnteredBy(flat, now) && x.entryTime == now
    ensures Fifo(Insert(side, flat, x)) && EnteredBy(Insert(side, flat, x), now)
  {
    var r := Insert(side, flat, x);
    SlotCount(side, flat, x.price);
    forall i, j | 0 <= i < j < |r| && r[i].price == r[j].price
      ensures r[i].entryTime <= r[j].entryTime
    {
      InsertAt(side, flat, x, i);
      InsertAt(side, flat, x, j);
    }
    forall i | 0 <= i < |r|
      ensures r[i].entryTime <= now
    {
      InsertAt(side, flat, x, i);
    }
  }

  lemma {:induction false} SubmitTimePriority(b: Book, o: Order, ts: Timestamp)
    requires Inv(b) && TimePriority(b, ts)
    ensures TimePriority(Submit(b, o, ts).book, ts)
  {
    if !HasId(b, o.id) {
      var side, w := o.side.Opposite(), Match(b, o, ts);
      var n := MatchTrims(b, o, ts);
      TrimmedFifo(b.On(side), w.rest, n, ts);
      SubmitAnatomy(b, o, ts);
      InsertFifo(o.side, b.On(o.side), NewResting(b.On(o.side), o, w.left, ts), ts);
    }
  }

  lemma {:induction false} CancelTimePriority(b: Book, id: OrderId, ts: Timestamp)
    requires TimePriority(b, ts)
    ensures TimePriority(Cancel(b, id, ts).book, ts)
  {
    if HasId(b, id) {
      CancelAnatomy(b, id, ts);
      RemovalFifo(b.On(if Has(b.bids, id) then Buy else Sell), id, ts);
    }
  }

  lemma {:induction false} RemovalFifo(flat: seq<L3Order>, id: OrderId, now: Timestamp)
    requires Has(flat, id) && Fifo(flat) && EnteredBy(flat, now)
    ensures Fifo(Removal(flat, id)) && EnteredBy(Removal(flat, id), now)
  {
    var r := Removal(flat, id);
    forall i | 0 <= i < |r|
      ensures r[i].entryTime <= now
    {
      RemovalAt(flat, id, i);
    }
    forall i, j | 0 <= i < j < |r| && r[i].price == r[j].price
      ensures r[i].entryTime <= r[j].entryTime
    {
      RemovalAt(flat, id, i);
      RemovalAt(flat, id, j);
    }
  }

  lemma {:induction false} StepTimePriority(b: Book, e: Event)
    requires Inv(b) && TimePriority(b, e.ts)
    ensures TimePriority(Step(b, e).book, e.ts)
  {
    match e.request
    case AddOrder(o) =>
      SubmitTimePriority(b, o, e.ts);
    case CancelOrder(id) =>
      CancelTimePriority(b, id, e.ts);
    case ReplaceOrder(req) =>
      CancelKeepsInv(b, req.id, e.ts);
      CancelTimePriority(b, req.id, e.ts);
      var c := Cancel(b, req.id, e.ts);
      if c.report.status.Canceled? {
        SubmitTimePriority(c.book, Replacement(req, c.report.side, e.ts), e.ts);
      }
  }

  /** Under a clock that does not run backwards, older orders stand in front of younger ones
      at every price of every reachable book: matching from the front is time priority. */
  lemma {:induction false} RunTimePriority(b: Book, es: seq<Event>, now: Timestamp) returns (last: Timestamp)
    requires Inv(b) && NoReserve(b) && TimePriority(b, now) && ClockFrom(now, es)
    ensures TimePriority(Run(b, es), last)
    ensures last == if es == [] then now else es[|es| - 1].ts
    decreases |es|
  {
    last := now;
    if es != [] {
      StepKeeps(b, es[0]);
      assert TimePriority(b, es[0].ts);
      StepTimePriority(b, es[0]);
      last := RunTimePriority(Step(b, es[0]).book, es[1..], es[0].ts);
    }
  }

  // ---------------------------------------------------------------- conservation

  /** What an outside auditor writes down: total quantity of the orders not rejected, the
      quantity cancelled or expired, and the size each order was last submitted with. */
  datatype Ledger = Ledger(submitted: Quantity, gone: Quantity, sizes: map<OrderId, Quantity>)

  const NEW_LEDGER := Ledger(0, 0, map[])

  /** Audit of a submission, from the order and its report alone; orders that are not for a
      positive quantity do not count. */
  function AuditSubmit(l: Ledger, o: Order, r: ExecReport): Ledger {
    if r.status.Rejected? || o.qty <= 0 then l
    else
      var open := if o.kind.Limit? then r.leavesQty else 0;
      Ledger(l.submitted + o.qty, l.gone + (o.qty - r.filledQty - open), l.sizes[o.id := o.qty])
  }

  /** Audit of a cancel, from its report alone. */
  function AuditCancel(l: Ledger, r: ExecReport): Ledger {
    if r.status.Canceled? then l.(gone := l.gone + (r.orderQty - r.filledQty)) else l
  }

  function Audit(l: Ledger, b: Book, e: Event): Ledger {
    match e.request
    case AddOrder(o) => AuditSubmit(l, o, Submit(b, o, e.ts).report)
    case CancelOrder(id) => AuditCancel(l, Cancel(b, id, e.ts).report)
    case ReplaceOrder(req) =>
      var c := Cancel(b, req.id, e.ts);
      if c.report.status.Canceled? then
        AuditSubmit(AuditCancel(l, c.report), Replacement(req, c.report.side, e.ts), Replace(b, req, e.ts).report)
      else l
  }

  function AuditRun(l: Ledger, b: Book, es: seq<Event>): Ledger
    decreases |es|
  {
    if es == [] then l else AuditRun(Audit(l, b, es[0]), Step(b, es[0]).book, es[1..])
  }

  function Resting(b: Book): Quantity {
    Liquidity(b.bids) + Liquidity(b.asks)
  }

  /** Each traded unit closes one unit on each side of the trade. */
  ghost predicate Balanced(l: Ledger, b: Book) {
    l.submitted == 2 * Volume(b.tape) + Resting(b) + l.gone
  }

  ghost predicate SideSized(l: Ledger, flat: seq<L3Order>) {
    forall i :: 0 <= i < |flat| ==>
      flat[i].id in l.sizes && flat[i].Available() + flat[i].filled == l.sizes[flat[i].id]
  }

  ghost predicate Sized(l: Ledger, b: Book) {
    SideSized(l, b.bids) && SideSized(l, b.asks)
  }

  lemma {:induction false} InsertLiquidity(side: Side, flat: seq<L3Order>, x: L3Order)
    ensures Liquidity(Insert(side, flat, x)) == Liquidity(flat) + x.Available()
  {
    var k := Slot(side, flat, x.price);
    assert flat == flat[..k] + flat[k..];
    LiquidityConcat(flat[..k], flat[k..]);
    LiquidityConcat(flat[..k] + [x], flat[k..]);
    LiquidityConcat(flat[..k], [x]);
  }

  lemma {:induction false} DropLiquidity(flat: seq<L3Order>, k: nat)
    requires k < |flat|
    ensures Liquidity(Drop(flat, k)) == Liquidity(flat) - flat[k].Available()
  {
    assert flat == flat[..k] + ([flat[k]] + flat[k + 1..]);
    LiquidityConcat(flat[..k], [flat[k]] + flat[k + 1..]);
    LiquidityConcat([flat[k]], flat[k + 1..]);
    LiquidityConcat(flat[..k], flat[k + 1..]);
  }

  lemma {:induction false} SameLiquidity(a: seq<L3Order>, b: seq<L3Order>)
    requires |a| == |b| && forall i :: 0 <= i < |a| ==> a[i].Available() == b[i].Available()
    ensures Liquidity(a) == Liquidity(b)
  {
    if a != [] {
      SameLiquidity(a[1..], b[1..]);
    }
  }

  lemma {:induction false} SidesAddUp(b: Book, side: Side)
    ensures Resting(b) == Liquidity(b.On(side)) + Liquidity(b.On(side.Opposite()))
  {
  }

  /** What the auditor concludes from a report of a fresh order. */
  lemma {:induction false} AuditGone(l: Ledger, b: Book, o: Order, ts: Timestamp)
    requires Inv(b) && 0 < o.qty && !HasId(b, o.id)
    ensures var left := Match(b, o, ts).left;
            var l' := AuditSubmit(l, o, Submit(b, o, ts).report);
            l'.submitted - l'.gone == l.submitted - l.gone + (o.qty - left) + (if Rests(o, left) then left else 0)
  {
    LeftOver(b, o, ts);
  }

  lemma {:induction false} SubmitBalances(l: Ledger, b: Book, o: Order, ts: Timestamp)
    requires Inv(b) && Balanced(l, b)
    ensures Balanced(AuditSubmit(l, o, Submit(b, o, ts).report), Submit(b, o, ts).book)
  {
    if !HasId(b, o.id) && o.qty <= 0 {
      SubmitNothing(b, o, ts);
    } else if !HasId(b, o.id) {
      var w, own := Match(b, o, ts), b.On(o.side);
      LeftOver(b, o, ts);
      MatchConserves(b, o, ts);
      VolumeConcat(b.tape, w.trades);
      SubmitAnatomy(b, o, ts);
      InsertLiquidity(o.side, own, NewResting(own, o, w.left, ts));
      SidesAddUp(b, o.side);
      SidesAddUp(Submit(b, o, ts).book, o.side);
      AuditGone(l, b, o, ts);
    }
  }

  lemma {:induction false} CancelBalances(l: Ledger, b: Book, id: OrderId, ts: Timestamp)
    requires Balanced(l, b)
    ensures Balanced(AuditCancel(l, Cancel(b, id, ts).report), Cancel(b, id, ts).book)
  {
    if HasId(b, id) {
      var side := if Has(b.bids, id) then Buy else Sell;
      var flat := b.On(side);
      var k := Position(flat, id);
      CancelAnatomy(b, id, ts);
      DropLiquidity(flat, k);
      SameLiquidity(Drop(flat, k), Removal(flat, id));
    }
  }

  lemma {:induction false} TrimmedSized(l: Ledger, flat: seq<L3Order>, rest: seq<L3Order>, n: nat)
    requires Trimmed(flat, rest, n) && SideSized(l, flat)
    ensures SideSized(l, rest)
  {
    forall i | 0 <= i < |rest|
      ensures rest[i].id in l.sizes && rest[i].Available() + rest[i].filled == l.sizes[rest[i].id]
    {
      assert Evolved(flat[n + i], rest[i]);
    }
  }

  lemma {:induction false} SizedForOthers(l: Ledger, l': Ledger, flat: seq<L3Order>, o: Order)
    requires SideSized(l, flat) && !Has(flat, o.id)
    requires l'.sizes == l.sizes || l'.sizes == l.sizes[o.id := o.qty]
    ensures SideSized(l', flat)
  {
    forall i | 0 <= i < |flat|
      ensures flat[i].id != o.id
    {
      HasMeansIn(flat, o.id);
    }
  }

  lemma {:induction false} InsertSized(l: Ledger, side: Side, flat: seq<L3Order>, x: L3Order)
    requires SideSized(l, flat) && x.id in l.sizes && x.Available() + x.filled == l.sizes[x.id]
    ensures SideSized(l, Insert(side, flat, x))
  {
    forall i | 0 <= i <= |flat|
      ensures var y := Insert(side, flat, x)[i]; y.id in l.sizes && y.Available() + y.filled == l.sizes[y.id]
    {
      InsertAt(side, flat, x, i);
    }
  }

  lemma {:induction false} SubmitSized(l: Ledger, b: Book, o: Order, ts: Timestamp)
    requires Inv(b) && Sized(l, b)
    ensures Sized(AuditSubmit(l, o, Submit(b, o, ts).report), Submit(b, o, ts).book)
  {
    if !HasId(b, o.id) {
      SubmitAnatomy(b, o, ts);
      RestingSizes(l, b, o, ts);
      hide Submit;
      hide Match;
      var side, w, own := o.side.Opposite(), Match(b, o, ts), b.On(o.side);
      var l' := AuditSubmit(l, o, Submit(b, o, ts).report);
      var n := MatchTrims(b, o, ts);
      SizedForOthers(l, l', b.On(side), o);
      SizedForOthers(l, l', own, o);
      TrimmedSized(l', b.On(side), w.rest, n);
      if Rests(o, w.left) {
        InsertSized(l', o.side, own, NewResting(own, o, w.left, ts));
      }
    }
  }

  /** The auditor writes down the size of every order that comes to rest. */
  lemma {:induction false} RestingSizes(l: Ledger, b: Book, o: Order, ts: Timestamp)
    requires Inv(b) && !HasId(b, o.id)
    ensures var sizes := AuditSubmit(l, o, Submit(b, o, ts).report).sizes;
            && (sizes == l.sizes || sizes == l.sizes[o.id := o.qty])
            && (Rests(o, Match(b, o, ts).left) ==> sizes == l.sizes[o.id := o.qty])
  {
    LeftOver(b, o, ts);
  }

  lemma {:induction false} CancelSized(l: Ledger, b: Book, id: OrderId, ts: Timestamp)
    requires Sized(l, b)
    ensures Sized(AuditCancel(l, Cancel(b, id, ts).report), Cancel(b, id, ts).book)
  {
    if HasId(b, id) {
      CancelAnatomy(b, id, ts);
      RemovalSized(l, b.On(if Has(b.bids, id) then Buy else Sell), id);
    }
  }

  lemma {:induction false} RemovalSized(l: Ledger, flat: seq<L3Order>, id: OrderId)
    requires Has(flat, id) && SideSized(l, flat)
    ensures SideSized(l, Removal(flat, id))
  {
    var r := Removal(flat, id);
    forall i | 0 <= i < |r|
      ensures r[i].id in l.sizes && r[i].Available() + r[i].filled == l.sizes[r[i].id]
    {
      RemovalAt(flat, id, i);
    }
  }

  lemma {:induction false} StepAudits(l: Ledger, b: Book, e: Event)
    requires Inv(b) && Balanced(l, b) && Sized(l, b)
    ensures Balanced(Audit(l, b, e), Step(b, e).book) && Sized(Audit(l, b, e), Step(b, e).book)
  {
    match e.request
    case AddOrder(o) =>
      SubmitBalances(l, b, o, e.ts);
      SubmitSized(l, b, o, e.ts);
    case CancelOrder(id) =>
      CancelBalances(l, b, id, e.ts);
      CancelSized(l, b, id, e.ts);
    case ReplaceOrder(req) =>
      CancelKeepsInv(b, req.id, e.ts);
      CancelBalances(l, b, req.id, e.ts);
      CancelSized(l, b, req.id, e.ts);
      var c := Cancel(b, req.id, e.ts);
      if c.report.status.Canceled? {
        SubmitBalances(AuditCancel(l, c.report), c.book, Replacement(req, c.report.side, e.ts), e.ts);
        SubmitSized(AuditCancel(l, c.report), c.book, Replacement(req, c.report.side, e.ts), e.ts);
      }
  }

  lemma {:induction false} AuditFrom(l: Ledger, b: Book, es: seq<Event>)
    requires Inv(b) && NoReserve(b) && Balanced(l, b) && Sized(l, b)
    ensures Balanced(AuditRun(l, b, es), Run(b, es)) && Sized(AuditRun(l, b, es), Run(b, es))
    decreases |es|
  {
    if es != [] {
      StepKeeps(b, es[0]);
      StepAudits(l, b, es[0]);
      AuditFrom(Audit(l, b, es[0]), Step(b, es[0]).book, es[1..]);
    }
  }

  /** Over any run, quantity is conserved globally, and every resting order accounts for
      the exact quantity it was submitted with. */
  lemma {:induction false} QuantityIsConserved(symbol: Symbol, es: seq<Event>)
    ensures Balanced(AuditRun(NEW_LEDGER, Empty(symbol), es), Run(Empty(symbol), es))
    ensures Sized(AuditRun(NEW_LEDGER, Empty(symbol), es), Run(Empty(symbol), es))
  {
    AuditFrom(NEW_LEDGER, Empty(symbol), es);
  }

  /** After any run, the cancel report of a resting order restores its submitted quantity. */
  lemma {:induction false} CancelReportsSubmittedSize(symbol: Symbol, es: seq<Event>, id: OrderId, ts: Timestamp)
    requires HasId(Run(Empty(symbol), es), id)
    ensures var l := AuditRun(NEW_LEDGER, Empty(symbol), es);
            id in l.sizes && Cancel(Run(Empty(symbol), es), id, ts).report.orderQty == l.sizes[id]
  {
    QuantityIsConserved(symbol, es);
  }

  /** In every reachable book the reported queue position decides who trades. */
  lemma {:induction false} ReachableQueuePosition(symbol: Symbol, es: seq<Event>, o: Order, ts: Timestamp, id: OrderId)
    requires 0 < o.qty && !o.tif.FOK?
    requires var b := Run(Empty(symbol), es);
             && !HasId(b, o.id)
             && Has(b.On(o.side.Opposite()), id)
             && Eligible(o, b.On(o.side.Opposite())[Position(b.On(o.side.Opposite()), id)].price)
    ensures var b := Run(Empty(symbol), es);
            var flat := b.On(o.side.Opposite());
            TradesWith(Submit(b, o, ts).book.tape[|b.tape|..], id)
            <==> BetterQty(o.side.Opposite(), flat, flat[Position(flat, id)].price) + QuantityAhead(flat, id) < o.qty
  {
    ReachableBooks(symbol, es);
    QuantityAheadDecidesFill(Run(Empty(symbol), es), o, ts, id);
  }

  // ---------------------------------------------------------------- stored positions in a run

  /** A submission inside this request takes away part of a level's orders. */
  ghost predicate Splits(b: Book, e: Event) {
    match e.request
    case AddOrder(o) => SubmitSplits(b, o)
    case CancelOrder(_) => false
    case ReplaceOrder(req) =>
      var c := Cancel(b, req.id, e.ts);
      c.report.status.Canceled? && SubmitSplits(c.book, Replacement(req, c.report.side, e.ts))
  }

  ghost predicate SubmitSplits(b: Book, o: Order) {
    !HasId(b, o.id) && SplitsALevel(b.On(o.side.Opposite()), o)
  }

  lemma {:induction false} StepKeepsPositionsIff(b: Book, e: Event)
    requires Inv(b) && AllExact(b)
    ensures AllExact(Step(b, e).book) <==> !Splits(b, e)
  {
    match e.request
    case AddOrder(o) =>
      if !HasId(b, o.id) {
        SubmitKeepsPositionsIff(b, o, e.ts);
      }
    case CancelOrder(id) =>
      CancelKeepsPositions(b, id, e.ts);
    case ReplaceOrder(req) =>
      CancelKeepsInv(b, req.id, e.ts);
      CancelKeepsPositions(b, req.id, e.ts);
      var c := Cancel(b, req.id, e.ts);
      if c.report.status.Canceled? {
        SubmitKeepsPositionsIff(c.book, Replacement(req, c.report.side, e.ts), e.ts);
      }
  }

  ghost predicate NeverSplits(b: Book, es: seq<Event>)
    decreases |es|
  {
    es == [] || (!Splits(b, es[0]) && NeverSplits(Step(b, es[0]).book, es[1..]))
  }

  /** All stored positions are exact in every book of the run. */
  ghost predicate ExactThroughout(b: Book, es: seq<Event>)
    decreases |es|
  {
    AllExact(b) && (es == [] || ExactThroughout(Step(b, es[0]).book, es[1..]))
  }

  /** Stored positions stay exact throughout a run exactly when no submission on the way takes
      away part of a level's orders. */
  lemma {:induction false} RunKeepsPositionsIff(b: Book, es: seq<Event>)
    requires Inv(b) && NoReserve(b) && AllExact(b)
    ensures ExactThroughout(b, es) <==> NeverSplits(b, es)
    decreases |es|
  {
    if es != [] {
      StepKeepsPositionsIff(b, es[0]);
      StepKeeps(b, es[0]);
      var b1 := Step(b, es[0]).book;
      if AllExact(b1) {
        RunKeepsPositionsIff(b1, es[1..]);
      }
    }
  }

  function Sample(id: OrderId, side: Side): Order {
    Order(id, 0, "", side, Limit, Day, 100, 5, 0)
  }

  function SampleResting(id: OrderId, pos: nat): L3Order {
    L3Order(id, 0, Buy, 100, 5, 0, 0, 0, pos, false)
  }

  /** With no asks, a sample bid joins the back of the only level. */
  lemma {:induction false} SampleJoins(b: Book, id: OrderId)
    requires b.asks == [] && !HasId(b, id) && |b.bids| <= 1
    requires b.bids != [] ==> b.bids[0].price == 100
    ensures Submit(b, Sample(id, Buy), 0).book == b.(bids := b.bids + [SampleResting(id, |b.bids|)])
  {
    var own, o := b.bids, Sample(id, Buy);
    assert Match(b, o, 0) == Outcome([], [], 5);
    assert CountAt(own, 100) == |own| == Slot(Buy, own, 100);
    assert Insert(Buy, own, SampleResting(id, |own|)) == own + [SampleResting(id, |own|)];
  }

  lemma {:induction false} SampleTakesFront(b: Book, x: L3Order, y: L3Order, id: OrderId)
    requires b.bids == [x, y] && b.asks == [] && !HasId(b, id)
    requires x == SampleResting(x.id, 0)
    ensures Submit(b, Sample(id, Sell), 0).book.bids == [y]
    ensures Submit(b, Sample(id, Sell), 0).book.asks == []
  {
    var a := Aggressor(Sample(id, Sell), b.symbol, 0);
    assert b.bids[1..] == [y];
    assert Walk([y], a, 0, |b.tape| + 2) == Outcome([], [y], 0);
    assert Match(b, Sample(id, Sell), 0).rest == [y];
  }

  /** Two bids at one price, with exact positions, are reachable. */
  lemma {:induction false} TwoSampleBids()
    ensures Submit(Submit(Empty(""), Sample(1, Buy), 0).book, Sample(2, Buy), 0).book
         == Empty("").(bids := [SampleResting(1, 0), SampleResting(2, 1)])
  {
    hide Submit;
    SampleJoins(Empty(""), 1);
    assert [] + [SampleResting(1, 0)] == [SampleResting(1, 0)];
    SampleJoins(Empty("").(bids := [SampleResting(1, 0)]), 2);
    assert [SampleResting(1, 0)] + [SampleResting(2, 1)] == [SampleResting(1, 0), SampleResting(2, 1)];
  }

  /** The front of that level is traded away, and a new order joins. */
  lemma {:induction false} FrontGoesOneJoins(b: Book)
    requires b == Empty("").(bids := [SampleResting(1, 0), SampleResting(2, 1)])
    ensures Submit(Submit(b, Sample(3, Sell), 0).book, Sample(4, Buy), 0).book.bids
         == [SampleResting(2, 1), SampleResting(4, 1)]
  {
    hide Submit;
    SampleTakesFront(b, SampleResting(1, 0), SampleResting(2, 1), 3);
    var b3 := Submit(b, Sample(3, Sell), 0).book;
    assert b3.bids == [SampleResting(2, 1)] && b3.asks == [];
    SampleJoins(b3, 4);
  }

  function SampleEvent(id: OrderId, side: Side): Event {
    Event(AddOrder(Sample(id, side)), 0)
  }

  /** Stored positions are only an upper bound: four submissions to an empty book lead to two
      orders at one price that store the same position. */
  lemma {:induction false} StoredPositionsCollide()
    ensures Run(Empty(""), [SampleEvent(1, Buy), SampleEvent(2, Buy), SampleEvent(3, Sell), SampleEvent(4, Buy)]).bids
         == [SampleResting(2, 1), SampleResting(4, 1)]
  {
    hide Submit;
    var b2 := Submit(Submit(Empty(""), Sample(1, Buy), 0).book, Sample(2, Buy), 0).book;
    TwoSampleBids();
    FrontGoesOneJoins(b2);
    RunOfFour(Empty(""), SampleEvent(1, Buy), SampleEvent(2, Buy), SampleEvent(3, Sell), SampleEvent(4, Buy));
  }

  lemma {:induction false} RunOfFour(b: Book, e1: Event, e2: Event, e3: Event, e4: Event)
    ensures Run(b, [e1, e2, e3, e4])
         == Step(Step(Step(Step(b, e1).book, e2).book, e3).book, e4).book
  {
    hide Step;
    var b2 := Step(Step(b, e1).book, e2).book;
    assert [e1, e2, e3, e4][1..] == [e2, e3, e4];
    assert [e2, e3, e4][1..] == [e3, e4];
    assert [e3, e4][1..] == [e4] && [e4][1..] == [];
    assert Run(b2, [e3, e4]) == Run(Step(b2, e3).book, [e4]);
  }
}
