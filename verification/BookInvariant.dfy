/** Every operation keeps the book invariant. */
module BookInvariant {
  import opened Types
  import opened PriceTime
  import opened BookSpec

  // ---------------------------------------------------------------- counting at a price

  lemma {:induction false} CountAtConcat(a: seq<L3Order>, b: seq<L3Order>, price: Price)
    ensures CountAt(a + b, price) == CountAt(a, price) + CountAt(b, price)
  {
    if a == [] {
      assert a + b == b;
    } else {
      assert (a + b)[1..] == a[1..] + b;
      CountAtConcat(a[1..], b, price);
    }
  }

  lemma {:induction false} CountAtNone(a: seq<L3Order>, price: Price)
    requires forall i :: 0 <= i < |a| ==> a[i].price != price
    ensures CountAt(a, price) == 0
  {
    if a != [] {
      CountAtNone(a[1..], price);
    }
  }

  /** Only the prices count. */
  lemma {:induction false} CountAtSamePrices(a: seq<L3Order>, b: seq<L3Order>, price: Price)
    requires |a| == |b| && forall i :: 0 <= i < |a| ==> a[i].price == b[i].price
    ensures CountAt(a, price) == CountAt(b, price)
  {
    if a != [] {
      CountAtSamePrices(a[1..], b[1..], price);
    }
  }

  // ---------------------------------------------------------------- trimming

  lemma {:induction false} TrimmedPrefixCount(flat: seq<L3Order>, rest: seq<L3Order>, n: nat, i: nat)
    requires Trimmed(flat, rest, n) && i < |rest|
    ensures CountAt(rest[..i], rest[i].price) <= CountAt(flat[..n + i], flat[n + i].price)
  {
    assert Evolved(flat[n + i], rest[i]);
    assert flat[..n + i] == flat[..n] + flat[n..n + i];
    CountAtConcat(flat[..n], flat[n..n + i], rest[i].price);
    forall k | 0 <= k < i
      ensures rest[..i][k].price == flat[n..n + i][k].price
    {
      assert Evolved(flat[n + k], rest[k]);
    }
    CountAtSamePrices(rest[..i], flat[n..n + i], rest[i].price);
  }

  lemma {:induction false} TrimmedKeepsInv(side: Side, flat: seq<L3Order>, rest: seq<L3Order>, n: nat)
    requires SideInv(side, flat) && Trimmed(flat, rest, n)
    ensures SideInv(side, rest)
  {
    TrimmedKeepsSide(side, flat, rest, n);
    forall i | 0 <= i < |rest|
      ensures CountAt(rest[..i], rest[i].price) <= rest[i].queuePos
    {
      TrimmedPrefixCount(flat, rest, n, i);
      assert Evolved(flat[n + i], rest[i]);
    }
  }

  // ---------------------------------------------------------------- inserting

  /** An order inserted at the back of its price sees exactly the older orders there. */
  lemma {:induction false} SlotCount(side: Side, flat: seq<L3Order>, price: Price)
    requires SortedSide(side, flat)
    ensures CountAt(flat[..Slot(side, flat, price)], price) == CountAt(flat, price)
    ensures forall i :: Slot(side, flat, price) <= i < |flat| ==> Rank(side, price) < Rank(side, flat[i].price)
  {
    var k := Slot(side, flat, price);
    SlotSuffix(side, flat, price);
    hide SortedSide;
    assert flat == flat[..k] + flat[k..];
    CountAtConcat(flat[..k], flat[k..], price);
    CountAtNone(flat[k..], price);
  }

  lemma {:induction false} SlotSuffix(side: Side, flat: seq<L3Order>, price: Price)
    requires SortedSide(side, flat)
    ensures forall i :: Slot(side, flat, price) <= i < |flat| ==> Rank(side, price) < Rank(side, flat[i].price)
  {
    var k := Slot(side, flat, price);
    forall i | k <= i < |flat|
      ensures Rank(side, price) < Rank(side, flat[i].price)
    {
      assert Rank(side, flat[k].price) <= Rank(side, flat[i].price);
    }
  }

  lemma {:induction false} InsertPrefixCount(side: Side, flat: seq<L3Order>, x: L3Order, i: nat)
    requires SortedSide(side, flat)
    requires i <= |flat|
    ensures var k, r := Slot(side, flat, x.price), Insert(side, flat, x);
            CountAt(r[..i], r[i].price) == (
              if i < k then CountAt(flat[..i], flat[i].price)
              else if i == k then CountAt(flat, x.price)
              else CountAt(flat[..i - 1], flat[i - 1].price))
  {
    var k, r := Slot(side, flat, x.price), Insert(side, flat, x);
    SlotCount(side, flat, x.price);
    if i <= k {
      assert r[..i] == flat[..i];
    } else {
      InsertAt(side, flat, x, i);
      assert Rank(side, x.price) < Rank(side, flat[i - 1].price);
      assert r[..i] == flat[..k] + ([x] + flat[k..i - 1]);
      assert flat[..i - 1] == flat[..k] + flat[k..i - 1];
      CountAtAround(flat[..k], x, flat[k..i - 1], flat[i - 1].price);
    }
  }

  lemma {:induction false} CountAtAround(a: seq<L3Order>, x: L3Order, b: seq<L3Order>, price: Price)
    requires x.price != price
    ensures CountAt(a + ([x] + b), price) == CountAt(a + b, price)
  {
    CountAtConcat(a, [x] + b, price);
    CountAtConcat([x], b, price);
    CountAtConcat(a, b, price);
  }

  lemma {:induction false} InsertAt(side: Side, flat: seq<L3Order>, x: L3Order, i: nat)
    requires i <= |flat|
    ensures var k, r := Slot(side, flat, x.price), Insert(side, flat, x);
            && |r| == |flat| + 1
            && r[i] == if i < k then flat[i] else if i == k then x else flat[i - 1]
  {
  }

  lemma {:induction false} InsertKeepsSide(side: Side, flat: seq<L3Order>, x: L3Order)
    requires SideOk(side, flat) && Live(x) && x.side == side
    ensures SideOk(side, Insert(side, flat, x))
  {
    hide Slot;
    hide Insert;
    hide CountAt;
    var r := Insert(side, flat, x);
    SlotCount(side, flat, x.price);
    InsertAt(side, flat, x, 0);
    forall i | 0 <= i < |r|
      ensures Live(r[i]) && r[i].side == side
    {
      InsertAt(side, flat, x, i);
    }
    forall i, j | 0 <= i < j < |r|
      ensures Rank(side, r[i].price) <= Rank(side, r[j].price)
    {
      InsertAt(side, flat, x, i);
      InsertAt(side, flat, x, j);
    }
  }

  lemma {:induction false} InsertKeepsInv(side: Side, flat: seq<L3Order>, x: L3Order)
    requires SideInv(side, flat)
    requires Live(x) && x.side == side && x.queuePos == CountAt(flat, x.price) && !Has(flat, x.id)
    ensures SideInv(side, Insert(side, flat, x))
  {
    InsertKeepsSide(side, flat, x);
    var r := Insert(side, flat, x);
    forall i | 0 <= i < |r|
      ensures CountAt(r[..i], r[i].price) <= r[i].queuePos
    {
      InsertPrefixCount(side, flat, x, i);
      InsertAt(side, flat, x, i);
    }
    forall i, j | 0 <= i < j < |r|
      ensures r[i].id != r[j].id
    {
      InsertAt(side, flat, x, i);
      InsertAt(side, flat, x, j);
    }
  }

  // ---------------------------------------------------------------- dropping and renumbering

  lemma {:induction false} DropPrefixCount(flat: seq<L3Order>, k: nat, i: nat, price: Price)
    requires k < |flat| && i < |flat|
    ensures CountAt(Drop(flat, k)[..i], price) <= CountAt(flat[..if i < k then i else i + 1], price)
  {
    if i < k {
      assert Drop(flat, k)[..i] == flat[..i];
    } else {
      assert Drop(flat, k)[..i] == flat[..k] + flat[k + 1..i + 1];
      assert flat[..i + 1] == flat[..k] + ([flat[k]] + flat[k + 1..i + 1]);
      CountAtConcat(flat[..k], flat[k + 1..i + 1], price);
      CountAtConcat(flat[..k], [flat[k]] + flat[k + 1..i + 1], price);
      CountAtConcat([flat[k]], flat[k + 1..i + 1], price);
    }
  }

  lemma {:induction false} DropKeepsInv(side: Side, flat: seq<L3Order>, k: nat)
    requires SideInv(side, flat) && k < |flat|
    ensures SideInv(side, Drop(flat, k))
    ensures !Has(Drop(flat, k), flat[k].id)
  {
    assert SideOk(side, Drop(flat, k)) && DistinctIds(Drop(flat, k)) by { DropKeepsSide(side, flat, k); }
    forall i | 0 <= i < |Drop(flat, k)|
      ensures CountAt(Drop(flat, k)[..i], Drop(flat, k)[i].price) <= Drop(flat, k)[i].queuePos
    {
      DropPrefixCount(flat, k, i, Drop(flat, k)[i].price);
    }
  }

  lemma {:induction false} DropKeepsSide(side: Side, flat: seq<L3Order>, k: nat)
    requires SideOk(side, flat) && DistinctIds(flat) && k < |flat|
    ensures SideOk(side, Drop(flat, k)) && DistinctIds(Drop(flat, k))
  {
    forall i | 0 <= i < |flat| - 1
      ensures Drop(flat, k)[i] == flat[if i < k then i else i + 1]
    {
    }
  }

  /** Renumbering changes positions only, and makes those of its price exact. */
  lemma {:induction false} RenumberKeepsInv(side: Side, flat: seq<L3Order>, price: Price)
    requires SideInv(side, flat)
    ensures SideInv(side, Renumber(flat, price))
    ensures PositionsExact(Renumber(flat, price), price)
    ensures forall i :: 0 <= i < |flat| ==>
              Renumber(flat, price)[i] == flat[i].(queuePos := Renumber(flat, price)[i].queuePos)
  {
    var r := Renumber(flat, price);
    forall i | 0 <= i < |r|
      ensures CountAt(r[..i], r[i].price) <= r[i].queuePos
      ensures r[i].price == price ==> CountAt(r[..i], price) == r[i].queuePos
    {
      CountAtSamePrices(r[..i], flat[..i], r[i].price);
    }
  }

  // ---------------------------------------------------------------- which side changes how

  /** A submission trims the opposite side and at most inserts into its own. */
  lemma {:induction false} SubmitAnatomy(b: Book, o: Order, ts: Timestamp)
    requires !HasId(b, o.id)
    ensures var w, own := Match(b, o, ts), b.On(o.side);
            var r := Submit(b, o, ts).book;
            && r.On(o.side.Opposite()) == w.rest
            && r.On(o.side) == (if Rests(o, w.left) then Insert(o.side, own, NewResting(own, o, w.left, ts)) else own)
            && r.tape == b.tape + w.trades
  {
  }

  /** The list a cancel leaves behind on the side it touches. */
  function Removal(flat: seq<L3Order>, id: OrderId): seq<L3Order>
    requires Has(flat, id)
  {
    Renumber(Drop(flat, Position(flat, id)), flat[Position(flat, id)].price)
  }

  lemma {:induction false} CancelAnatomy(b: Book, id: OrderId, ts: Timestamp)
    requires HasId(b, id)
    ensures var side := if Has(b.bids, id) then Buy else Sell;
            && Cancel(b, id, ts).book == b.With(side, Removal(b.On(side), id))
            && Cancel(b, id, ts).report == CancelReport(b, b.On(side)[Position(b.On(side), id)], ts)
  {
  }

  /** Removal takes one order out and touches nothing but stored positions in the others. */
  lemma {:induction false} RemovalAt(flat: seq<L3Order>, id: OrderId, i: nat)
    requires Has(flat, id) && i < |flat| - 1
    ensures var r := Removal(flat, id);
            && |r| == |flat| - 1
            && r[i] == flat[if i < Position(flat, id) then i else i + 1].(queuePos := r[i].queuePos)
  {
  }

  // ---------------------------------------------------------------- the three operations

  /** An order for nothing, or for less, trades with nobody. */
  lemma {:induction false} IdleMatch(b: Book, o: Order, ts: Timestamp)
    requires o.qty <= 0
    ensures Match(b, o, ts) == Outcome([], b.On(o.side.Opposite()), o.qty)
  {
  }

  lemma {:induction false} MatchTrims(b: Book, o: Order, ts: Timestamp) returns (n: nat)
    requires Inv(b)
    ensures Trimmed(b.On(o.side.Opposite()), Match(b, o, ts).rest, n)
    ensures if o.qty <= 0 then Match(b, o, ts).left == o.qty else 0 <= Match(b, o, ts).left <= o.qty
  {
    var flat := b.On(o.side.Opposite());
    assert AllLive(flat);
    if 0 < o.qty && Fillable(b, o) {
      var a := Aggressor(o, b.symbol, ts);
      n := WalkTrims(flat, a, o.qty, |b.tape| + 1);
      WalkConserves(flat, a, o.qty, |b.tape| + 1);
    } else {
      n := 0;
      assert forall i :: 0 <= i < |flat| ==> Evolved(flat[i], flat[i]);
    }
  }

  lemma {:induction false} MatchTape(b: Book, o: Order, ts: Timestamp)
    requires Inv(b)
    ensures TapeOk(b.tape + Match(b, o, ts).trades)
  {
    if 0 < o.qty && Fillable(b, o) {
      WalkClosedForm(b.On(o.side.Opposite()), Aggressor(o, b.symbol, ts), o.qty, |b.tape| + 1);
    }
  }

  ghost predicate StandsFor(x: L3Order, flat: seq<L3Order>) {
    exists j :: 0 <= j < |flat| && flat[j].id == x.id && flat[j].price == x.price
  }

  /** Every entry of `sub` stands for an entry of `flat` with the same id and price. */
  ghost predicate Within(sub: seq<L3Order>, flat: seq<L3Order>) {
    forall i :: 0 <= i < |sub| ==> StandsFor(sub[i], flat)
  }

  lemma {:induction false} HasMeansIn(flat: seq<L3Order>, id: OrderId)
    ensures Has(flat, id) <==> exists i :: 0 <= i < |flat| && flat[i].id == id
  {
  }

  lemma {:induction false} WithinHas(sub: seq<L3Order>, flat: seq<L3Order>, id: OrderId)
    requires Within(sub, flat) && Has(sub, id)
    ensures Has(flat, id)
  {
    assert StandsFor(sub[Position(sub, id)], flat);
    HasMeansIn(flat, id);
  }

  /** Shrinking one side cannot break what relates the two sides. */
  lemma {:induction false} ShrinkSide(b: Book, side: Side, sub: seq<L3Order>)
    requires Inv(b) && SideInv(side, sub) && Within(sub, b.On(side))
    ensures Inv(b.With(side, sub))
    ensures forall id :: HasId(b.With(side, sub), id) ==> HasId(b, id)
  {
    var flat, other := b.On(side), b.On(side.Opposite());
    forall i, k | 0 <= i < |sub| && 0 <= k < |other|
      ensures sub[i].id != other[k].id
      ensures if side.Buy? then sub[i].price < other[k].price else other[k].price < sub[i].price
    {
      assert StandsFor(sub[i], flat);
    }
    forall id | HasId(b.With(side, sub), id)
      ensures HasId(b, id)
    {
      if Has(sub, id) {
        WithinHas(sub, flat, id);
      }
    }
  }

  lemma {:induction false} TrimmedWithin(flat: seq<L3Order>, rest: seq<L3Order>, n: nat)
    requires Trimmed(flat, rest, n)
    ensures Within(rest, flat)
  {
    forall i | 0 <= i < |rest|
      ensures StandsFor(rest[i], flat)
    {
      assert Evolved(flat[n + i], rest[i]);
    }
  }

  lemma {:induction false} RenumberDropWithin(flat: seq<L3Order>, k: nat, price: Price)
    requires k < |flat|
    ensures Within(Renumber(Drop(flat, k), price), flat)
  {
    var r := Renumber(Drop(flat, k), price);
    forall i | 0 <= i < |r|
      ensures StandsFor(r[i], flat)
    {
      var j := if i < k then i else i + 1;
      assert r[i].id == flat[j].id && r[i].price == flat[j].price;
    }
  }

  lemma {:induction false} AfterMatchInv(b: Book, o: Order, ts: Timestamp)
    requires Inv(b) && !HasId(b, o.id)
    ensures Inv(AfterMatch(b, o, Match(b, o, ts)))
    ensures !HasId(AfterMatch(b, o, Match(b, o, ts)), o.id)
  {
    var side, w := o.side.Opposite(), Match(b, o, ts);
    var n := MatchTrims(b, o, ts);
    MatchTape(b, o, ts);
    TrimmedKeepsInv(side, b.On(side), w.rest, n);
    TrimmedWithin(b.On(side), w.rest, n);
    ShrinkSide(b, side, w.rest);
  }

  /** What rests was not tradable: the other side holds nothing the remainder could take. */
  lemma {:induction false} RemainderIsPassive(b: Book, o: Order, ts: Timestamp)
    requires Inv(b) && 0 < o.qty && Fillable(b, o) && 0 < Match(b, o, ts).left
    ensures forall i :: 0 <= i < |Match(b, o, ts).rest| ==> !Eligible(o, Match(b, o, ts).rest[i].price)
  {
    var flat := b.On(o.side.Opposite());
    WalkExhausts(flat, Aggressor(o, b.symbol, ts), o.qty, |b.tape| + 1);
    forall i | Reach(flat, o) <= i < |flat|
      ensures !Eligible(o, flat[i].price)
    {
      ReachIsExact(flat, o, i);
    }
  }

  lemma {:induction false} RestingInv(b: Book, o: Order, left: Quantity, ts: Timestamp)
    requires Inv(b) && 0 < left <= o.qty && !HasId(b, o.id) && o.kind.Limit?
    requires forall i :: 0 <= i < |b.On(o.side.Opposite())| ==> !Eligible(o, b.On(o.side.Opposite())[i].price)
    ensures var own := b.On(o.side);
            Inv(b.With(o.side, Insert(o.side, own, NewResting(own, o, left, ts))))
  {
    var own, x := b.On(o.side), NewResting(b.On(o.side), o, left, ts);
    InsertKeepsInv(o.side, own, x);
    var r, other := Insert(o.side, own, x), b.On(o.side.Opposite());
    forall i, j | 0 <= i < |r| && 0 <= j < |other|
      ensures r[i].id != other[j].id
      ensures Rank(Sell, if o.side.Buy? then r[i].price else other[j].price)
            < Rank(Sell, if o.side.Buy? then other[j].price else r[i].price)
    {
      InsertAt(o.side, own, x, i);
      HasMeansIn(other, o.id);
      assert !Eligible(o, other[j].price);
    }
  }

  lemma {:induction false} SubmitKeepsInv(b: Book, o: Order, ts: Timestamp)
    requires Inv(b)
    ensures Inv(Submit(b, o, ts).book)
  {
    if !HasId(b, o.id) {
      var w := Match(b, o, ts);
      AfterMatchInv(b, o, ts);
      var n := MatchTrims(b, o, ts);
      if Rests(o, w.left) {
        RemainderIsPassive(b, o, ts);
        RestingInv(AfterMatch(b, o, w), o, w.left, ts);
      }
    }
  }

  lemma {:induction false} CancelKeepsInv(b: Book, id: OrderId, ts: Timestamp)
    requires Inv(b)
    ensures Inv(Cancel(b, id, ts).book)
    ensures !HasId(Cancel(b, id, ts).book, id)
  {
    hide SortedSide;
    hide AllLive;
    hide PositionsBound;
    hide Uncrossed;
    hide TapeOk;
    if HasId(b, id) {
      var side := if Has(b.bids, id) then Buy else Sell;
      var flat := b.On(side);
      var k := Position(flat, id);
      var r := Renumber(Drop(flat, k), flat[k].price);
      DropKeepsInv(side, flat, k);
      RenumberKeepsInv(side, Drop(flat, k), flat[k].price);
      RenumberDropWithin(flat, k, flat[k].price);
      ShrinkSide(b, side, r);
      HasMeansIn(b.On(side.Opposite()), id);
    }
  }

  lemma {:induction false} ReplaceKeepsInv(b: Book, req: ReplaceRequest, ts: Timestamp)
    requires Inv(b)
    ensures Inv(Replace(b, req, ts).book)
  {
    CancelKeepsInv(b, req.id, ts);
    var c := Cancel(b, req.id, ts);
    if c.report.status.Canceled? {
      SubmitKeepsInv(c.book, Replacement(req, c.report.side, ts), ts);
    }
  }
}
