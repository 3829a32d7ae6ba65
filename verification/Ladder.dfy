/** Price ladders: the ordered map from price to queue, as the list of its entries. */
module Ladder {
  import opened Types
  import opened PriceTime
  import opened BookSpec
  import opened BookInvariant

  datatype Level<T> = Level(price: Price, queue: seq<T>)

  /** All resting orders, best price first, oldest first inside a price. */
  function Flatten<T>(levels: seq<Level<T>>): seq<T> {
    if levels == [] then [] else levels[0].queue + Flatten(levels[1..])
  }

  ghost predicate Ranked<T>(side: Side, levels: seq<Level<T>>) {
    forall i, j :: 0 <= i < j < |levels| ==> Rank(side, levels[i].price) < Rank(side, levels[j].price)
  }

  /** Lookup by price: the first entry that is not better than `price`. */
  function Seek<T>(side: Side, levels: seq<Level<T>>, price: Price): (k: nat)
    ensures k <= |levels|
    ensures forall i :: 0 <= i < k ==> Rank(side, levels[i].price) < Rank(side, price)
    ensures k < |levels| ==> Rank(side, price) <= Rank(side, levels[k].price)
  {
    if levels == [] || Rank(side, price) <= Rank(side, levels[0].price) then 0
    else 1 + Seek(side, levels[1..], price)
  }

  lemma {:induction false} FlattenConcat<T>(a: seq<Level<T>>, b: seq<Level<T>>)
    ensures Flatten(a + b) == Flatten(a) + Flatten(b)
  {
    if a == [] {
      assert a + b == b;
    } else {
      assert (a + b)[1..] == a[1..] + b;
      FlattenConcat(a[1..], b);
    }
  }

  lemma {:induction false} FlattenAround<T>(levels: seq<Level<T>>, k: nat)
    requires k < |levels|
    ensures Flatten(levels) == Flatten(levels[..k]) + (levels[k].queue + Flatten(levels[k + 1..]))
  {
    assert levels == levels[..k] + levels[k..];
    FlattenConcat(levels[..k], levels[k..]);
    assert levels[k..][1..] == levels[k + 1..];
  }

  lemma {:induction false} FlattenSplice<T>(levels: seq<Level<T>>, k: nat, j: nat, mid: seq<Level<T>>)
    requires k <= j <= |levels|
    ensures Flatten(levels[..k] + mid + levels[j..]) == Flatten(levels[..k]) + (Flatten(mid) + Flatten(levels[j..]))
  {
    FlattenConcat(levels[..k] + mid, levels[j..]);
    FlattenConcat(levels[..k], mid);
  }

  lemma {:induction false} FlattenOne<T>(l: Level<T>)
    ensures Flatten([l]) == l.queue
  {
    assert [l][1..] == [];
  }

  // ---------------------------------------------------------------- ladders of L3 orders

  ghost predicate LevelOk(side: Side, l: Level<L3Order>) {
    && l.queue != []
    && forall j :: 0 <= j < |l.queue| ==> l.queue[j].price == l.price && l.queue[j].side == side && Live(l.queue[j])
  }

  /** A well-formed ladder: strictly ordered prices, no empty level, every order live and
      at home.  Icebergs are allowed. */
  ghost predicate LadderOk(side: Side, levels: seq<Level<L3Order>>) {
    Ranked(side, levels) && forall i :: 0 <= i < |levels| ==> LevelOk(side, levels[i])
  }

  /** Every flattened order comes from some level. */
  lemma {:induction false} FlatHome(side: Side, levels: seq<Level<L3Order>>, i: nat) returns (k: nat)
    requires LadderOk(side, levels) && i < |Flatten(levels)|
    ensures k < |levels| && Flatten(levels)[i] in levels[k].queue
    ensures Flatten(levels)[i].price == levels[k].price
    ensures Flatten(levels)[i].side == side && Live(Flatten(levels)[i])
  {
    if i < |levels[0].queue| {
      k := 0;
      assert LevelOk(side, levels[0]);
    } else {
      TailOk(side, levels);
      k := FlatHome(side, levels[1..], i - |levels[0].queue|);
      k := k + 1;
    }
  }

  lemma {:induction false} TailOk(side: Side, levels: seq<Level<L3Order>>)
    requires levels != [] && LadderOk(side, levels)
    ensures LadderOk(side, levels[1..])
  {
    forall i | 0 <= i < |levels[1..]|
      ensures LevelOk(side, levels[1..][i])
    {
      assert levels[1..][i] == levels[i + 1];
    }
  }

  lemma {:induction false} SliceOk(side: Side, levels: seq<Level<L3Order>>, k: nat, j: nat)
    requires k <= j <= |levels| && LadderOk(side, levels)
    ensures LadderOk(side, levels[k..j])
  {
    forall i | 0 <= i < j - k
      ensures LevelOk(side, levels[k..j][i])
    {
      assert levels[k..j][i] == levels[k + i];
    }
  }

  lemma {:induction false} FlatRankAbove(side: Side, levels: seq<Level<L3Order>>, rank: int)
    requires LadderOk(side, levels)
    requires forall i :: 0 <= i < |levels| ==> rank < Rank(side, levels[i].price)
    ensures forall i :: 0 <= i < |Flatten(levels)| ==> rank < Rank(side, Flatten(levels)[i].price)
  {
    forall i | 0 <= i < |Flatten(levels)|
      ensures rank < Rank(side, Flatten(levels)[i].price)
    {
      var k := FlatHome(side, levels, i);
    }
  }

  lemma {:induction false} FlatRankBelow(side: Side, levels: seq<Level<L3Order>>, rank: int)
    requires LadderOk(side, levels)
    requires forall i :: 0 <= i < |levels| ==> Rank(side, levels[i].price) < rank
    ensures forall i :: 0 <= i < |Flatten(levels)| ==> Rank(side, Flatten(levels)[i].price) < rank
  {
    forall i | 0 <= i < |Flatten(levels)|
      ensures Rank(side, Flatten(levels)[i].price) < rank
    {
      var k := FlatHome(side, levels, i);
    }
  }

  /** Well-formed ladders flatten to well-formed sides. */
  lemma {:induction false} FlatSideOk(side: Side, levels: seq<Level<L3Order>>)
    requires LadderOk(side, levels)
    ensures SideOk(side, Flatten(levels))
  {
    if levels != [] {
      var q, tail := levels[0].queue, Flatten(levels[1..]);
      TailOk(side, levels);
      FlatSideOk(side, levels[1..]);
      FlatRankAbove(side, levels[1..], Rank(side, levels[0].price));
      assert LevelOk(side, levels[0]);
      assert forall i :: 0 <= i < |q| ==> Flatten(levels)[i] == q[i];
      assert forall i :: |q| <= i < |q + tail| ==> Flatten(levels)[i] == tail[i - |q|];
    }
  }

  // ---------------------------------------------------------------- the ladder behind a flat list

  /** The front level holds exactly the orders at the front price. */
  lemma {:induction false} FrontLevel(side: Side, levels: seq<Level<L3Order>>, i: nat)
    requires levels != [] && LadderOk(side, levels) && i < |Flatten(levels)|
    ensures i < |levels[0].queue| <==> Flatten(levels)[i].price == levels[0].price
  {
    TailOk(side, levels);
    FlatRankAbove(side, levels[1..], Rank(side, levels[0].price));
    assert LevelOk(side, levels[0]);
    if |levels[0].queue| <= i {
      assert Flatten(levels)[i] == Flatten(levels[1..])[i - |levels[0].queue|];
    }
  }

  lemma {:induction false} FrontOfLevel(side: Side, levels: seq<Level<L3Order>>)
    requires LadderOk(side, levels)
    ensures levels == [] <==> Flatten(levels) == []
    ensures levels != [] ==> 0 < |levels[0].queue| && Flatten(levels)[0].price == levels[0].price
  {
    if levels != [] {
      assert LevelOk(side, levels[0]);
      FrontLevel(side, levels, 0);
    }
  }

  /** A flat list has one ladder only: nothing about the levels is lost in the flat view. */
  lemma {:induction false} LadderUnique(side: Side, a: seq<Level<L3Order>>, b: seq<Level<L3Order>>)
    requires LadderOk(side, a) && LadderOk(side, b) && Flatten(a) == Flatten(b)
    ensures a == b
  {
    FrontOfLevel(side, a);
    FrontOfLevel(side, b);
    if a != [] {
      var n, m := |a[0].queue|, |b[0].queue|;
      if n < |Flatten(a)| {
        FrontLevel(side, a, n);
        FrontLevel(side, b, n);
      }
      if m < |Flatten(a)| {
        FrontLevel(side, a, m);
        FrontLevel(side, b, m);
      }
      SameSplit(a[0].queue, Flatten(a[1..]), b[0].queue, Flatten(b[1..]));
      TailOk(side, a);
      TailOk(side, b);
      LadderUnique(side, a[1..], b[1..]);
      assert a == [a[0]] + a[1..] && b == [b[0]] + b[1..];
    }
  }

  lemma {:induction false} SameSplit<T>(p: seq<T>, s: seq<T>, q: seq<T>, t: seq<T>)
    requires p + s == q + t && |p| == |q|
    ensures p == q && s == t
  {
    assert p == (p + s)[..|p|] && s == (p + s)[|p|..];
    assert q == (q + t)[..|q|] && t == (q + t)[|q|..];
  }

  // ---------------------------------------------------------------- joining a level

  /** The ladder after `x` joins the back of its price level, creating the level if needed. */
  function Joined(side: Side, levels: seq<Level<L3Order>>, x: L3Order): seq<Level<L3Order>> {
    var k := Seek(side, levels, x.price);
    if k < |levels| && levels[k].price == x.price
    then levels[..k] + [Level(x.price, levels[k].queue + [x])] + levels[k + 1..]
    else levels[..k] + [Level(x.price, [x])] + levels[k..]
  }

  lemma {:induction false} SlotIs(side: Side, a: seq<L3Order>, b: seq<L3Order>, price: Price)
    requires forall i :: 0 <= i < |a| ==> Rank(side, a[i].price) <= Rank(side, price)
    requires forall i :: 0 <= i < |b| ==> Rank(side, price) < Rank(side, b[i].price)
    ensures Slot(side, a + b, price) == |a|
  {
    assert forall i :: 0 <= i < |a| ==> (a + b)[i] == a[i];
    assert b != [] ==> (a + b)[|a|] == b[0];
  }

  lemma {:induction false} FlattenSplit<T>(levels: seq<Level<T>>, k: nat)
    requires k <= |levels|
    ensures Flatten(levels) == Flatten(levels[..k]) + Flatten(levels[k..])
  {
    assert levels == levels[..k] + levels[k..];
    FlattenConcat(levels[..k], levels[k..]);
  }

  /** A prefix of strictly better levels, as a prefix of the flat list. */
  lemma {:induction false} BetterPrefix(side: Side, levels: seq<Level<L3Order>>, k: nat, price: Price)
    requires LadderOk(side, levels) && k <= |levels|
    requires forall i :: 0 <= i < k ==> Rank(side, levels[i].price) < Rank(side, price)
    ensures forall x :: x in Flatten(levels[..k]) ==> Rank(side, x.price) < Rank(side, price)
  {
    SliceOk(side, levels, 0, k);
    FlatRankBelow(side, levels[..k], Rank(side, price));
  }

  lemma {:induction false} WorseSuffix(side: Side, levels: seq<Level<L3Order>>, k: nat, price: Price)
    requires LadderOk(side, levels) && k <= |levels|
    requires forall i :: k <= i < |levels| ==> Rank(side, price) < Rank(side, levels[i].price)
    ensures forall x :: x in Flatten(levels[k..]) ==> Rank(side, price) < Rank(side, x.price)
  {
    SliceOk(side, levels, k, |levels|);
    FlatRankAbove(side, levels[k..], Rank(side, price));
  }

  lemma {:induction false} InsertBetween(side: Side, a: seq<L3Order>, b: seq<L3Order>, x: L3Order)
    requires forall y :: y in a ==> Rank(side, y.price) <= Rank(side, x.price)
    requires forall y :: y in b ==> Rank(side, x.price) < Rank(side, y.price)
    ensures Insert(side, a + b, x) == a + [x] + b
  {
    SlotIs(side, a, b, x.price);
  }

  /** Joining a level is inserting behind every order at least as good. */
  lemma {:induction false} JoinedInserts(side: Side, levels: seq<Level<L3Order>>, x: L3Order)
    requires LadderOk(side, levels)
    ensures Flatten(Joined(side, levels, x)) == Insert(side, Flatten(levels), x)
  {
    var k := Seek(side, levels, x.price);
    BetterPrefix(side, levels, k, x.price);
    if k < |levels| && levels[k].price == x.price {
      JoinedPresent(side, levels, x, k);
    } else {
      JoinedAbsent(side, levels, x, k);
    }
  }

  lemma {:induction false} SeekSuffix(side: Side, levels: seq<Level<L3Order>>, price: Price)
    requires LadderOk(side, levels)
    requires var k := Seek(side, levels, price); k < |levels| ==> levels[k].price != price
    ensures forall y :: y in Flatten(levels[Seek(side, levels, price)..]) ==> Rank(side, price) < Rank(side, y.price)
  {
    var k := Seek(side, levels, price);
    forall i | k <= i < |levels|
      ensures Rank(side, price) < Rank(side, levels[i].price)
    {
      assert Rank(side, levels[k].price) <= Rank(side, levels[i].price);
    }
    WorseSuffix(side, levels, k, price);
  }

  lemma {:induction false} JoinedAbsent(side: Side, levels: seq<Level<L3Order>>, x: L3Order, k: nat)
    requires LadderOk(side, levels) && k == Seek(side, levels, x.price)
    requires k < |levels| ==> levels[k].price != x.price
    requires forall y :: y in Flatten(levels[..k]) ==> Rank(side, y.price) < Rank(side, x.price)
    ensures Flatten(Joined(side, levels, x)) == Insert(side, Flatten(levels), x)
  {
    SeekSuffix(side, levels, x.price);
    SpliceInserts(side, levels, x, k);
  }

  lemma {:induction false} SpliceInserts(side: Side, levels: seq<Level<L3Order>>, x: L3Order, k: nat)
    requires k <= |levels|
    requires forall y :: y in Flatten(levels[..k]) ==> Rank(side, y.price) < Rank(side, x.price)
    requires forall y :: y in Flatten(levels[k..]) ==> Rank(side, x.price) < Rank(side, y.price)
    ensures Flatten(levels[..k] + [Level(x.price, [x])] + levels[k..]) == Insert(side, Flatten(levels), x)
  {
    FlattenSplit(levels, k);
    InsertBetween(side, Flatten(levels[..k]), Flatten(levels[k..]), x);
    FlattenSplice(levels, k, k, [Level(x.price, [x])]);
    FlattenOne(Level(x.price, [x]));
    hide *;
    Associate(Flatten(levels[..k]), [x], Flatten(levels[k..]));
  }

  lemma {:induction false} Associate<T>(a: seq<T>, b: seq<T>, c: seq<T>)
    ensures a + (b + c) == a + b + c
  {
  }

  lemma {:induction false} JoinedPresent(side: Side, levels: seq<Level<L3Order>>, x: L3Order, k: nat)
    requires LadderOk(side, levels) && k < |levels| && k == Seek(side, levels, x.price) && levels[k].price == x.price
    requires forall y :: y in Flatten(levels[..k]) ==> Rank(side, y.price) < Rank(side, x.price)
    ensures Flatten(Joined(side, levels, x)) == Insert(side, Flatten(levels), x)
  {
    var q, a, b := levels[k].queue, Flatten(levels[..k]), Flatten(levels[k + 1..]);
    WorseSuffix(side, levels, k + 1, x.price);
    FlattenAround(levels, k);
    assert LevelOk(side, levels[k]);
    InsertMiddle(side, a, q, b, x);
    FlattenSplice(levels, k, k + 1, [Level(x.price, q + [x])]);
    FlattenOne(Level(x.price, q + [x]));
  }

  lemma {:induction false} InsertMiddle(side: Side, a: seq<L3Order>, q: seq<L3Order>, b: seq<L3Order>, x: L3Order)
    requires forall y :: y in a ==> Rank(side, y.price) < Rank(side, x.price)
    requires forall i :: 0 <= i < |q| ==> q[i].price == x.price
    requires forall y :: y in b ==> Rank(side, x.price) < Rank(side, y.price)
    ensures Insert(side, a + (q + b), x) == a + ((q + [x]) + b)
  {
    assert a + (q + b) == (a + q) + b;
    InsertBetween(side, a + q, b, x);
    assert a + ((q + [x]) + b) == (a + q) + [x] + b;
  }

  lemma {:induction false} JoinedOk(side: Side, levels: seq<Level<L3Order>>, x: L3Order)
    requires LadderOk(side, levels) && Live(x) && x.side == side
    ensures LadderOk(side, Joined(side, levels, x))
  {
    var k := Seek(side, levels, x.price);
    if k < |levels| && levels[k].price == x.price {
      assert LevelOk(side, levels[k]);
      SpliceOk(side, levels, k, [Level(x.price, levels[k].queue + [x])]);
    } else {
      NewLevelOk(side, levels, k, Level(x.price, [x]));
    }
  }

  lemma {:induction false} NewLevelOk(side: Side, levels: seq<Level<L3Order>>, k: nat, l: Level<L3Order>)
    requires LadderOk(side, levels) && LevelOk(side, l)
    requires k <= |levels|
    requires forall i :: 0 <= i < k ==> Rank(side, levels[i].price) < Rank(side, l.price)
    requires k < |levels| ==> Rank(side, l.price) < Rank(side, levels[k].price)
    ensures LadderOk(side, levels[..k] + [l] + levels[k..])
  {
    var r := levels[..k] + [l] + levels[k..];
    forall i | 0 <= i < |r|
      ensures r[i] == if i < k then levels[i] else if i == k then l else levels[i - 1]
      ensures LevelOk(side, r[i])
    {
    }
  }

  // ---------------------------------------------------------------- leaving a level

  /** A queue renumbered 0, 1, 2, ... from the front. */
  function Numbered(queue: seq<L3Order>): (r: seq<L3Order>)
    ensures |r| == |queue|
  {
    seq(|queue|, j requires 0 <= j < |queue| => queue[j].(queuePos := j))
  }

  /** The ladder after entry `j` of level `k` leaves; an emptied level disappears, a
      surviving one is renumbered. */
  function Left(levels: seq<Level<L3Order>>, k: nat, j: nat): seq<Level<L3Order>>
    requires k < |levels| && j < |levels[k].queue|
  {
    var queue := Drop(levels[k].queue, j);
    levels[..k] + (if queue == [] then [] else [Level(levels[k].price, Numbered(queue))]) + levels[k + 1..]
  }

  /** The index entry (side, price) and the id lead to the order. */
  lemma {:induction false} Locate(side: Side, levels: seq<Level<L3Order>>, id: OrderId)
    requires LadderOk(side, levels) && Has(Flatten(levels), id)
    ensures var flat := Flatten(levels);
            var k := Seek(side, levels, flat[Position(flat, id)].price);
            && k < |levels|
            && levels[k].price == flat[Position(flat, id)].price
            && Has(levels[k].queue, id)
            && Position(flat, id) == |Flatten(levels[..k])| + Position(levels[k].queue, id)
            && levels[k].queue[Position(levels[k].queue, id)] == flat[Position(flat, id)]
    decreases |levels|
  {
    var flat := Flatten(levels);
    var q, tail := levels[0].queue, Flatten(levels[1..]);
    PositionConcat(q, tail, id);
    assert LevelOk(side, levels[0]);
    if Has(q, id) {
      SeekFirst(side, levels);
    } else {
      TailOk(side, levels);
      Locate(side, levels[1..], id);
      assert flat[Position(flat, id)] == tail[Position(tail, id)];
      SeekLater(side, levels, tail[Position(tail, id)].price);
    }
  }

  lemma {:induction false} SeekFirst<T>(side: Side, levels: seq<Level<T>>)
    requires levels != []
    ensures Seek(side, levels, levels[0].price) == 0 && Flatten(levels[..0]) == []
  {
  }

  lemma {:induction false} SeekLater<T>(side: Side, levels: seq<Level<T>>, price: Price)
    requires levels != [] && Ranked(side, levels)
    requires Seek(side, levels[1..], price) < |levels| - 1
    requires levels[1..][Seek(side, levels[1..], price)].price == price
    ensures var k := Seek(side, levels[1..], price);
            && Seek(side, levels, price) == k + 1
            && levels[k + 1] == levels[1..][k]
            && |Flatten(levels[..k + 1])| == |levels[0].queue| + |Flatten(levels[1..][..k])|
  {
    var k := Seek(side, levels[1..], price);
    assert Rank(side, levels[0].price) < Rank(side, levels[k + 1].price);
    assert levels[..k + 1][1..] == levels[1..][..k];
  }

  lemma {:induction false} PositionConcat(a: seq<L3Order>, b: seq<L3Order>, id: OrderId)
    ensures Position(a + b, id) == if Has(a, id) then Position(a, id) else |a| + Position(b, id)
  {
    var p := if Has(a, id) then Position(a, id) else |a| + Position(b, id);
    forall i | 0 <= i < p
      ensures (a + b)[i].id != id
    {
      if |a| <= i {
        assert (a + b)[i] == b[i - |a|];
      }
    }
    assert p < |a + b| ==> (a + b)[p].id == id;
  }

  lemma {:induction false} RenumberMiddle(a: seq<L3Order>, q: seq<L3Order>, b: seq<L3Order>, price: Price)
    requires forall i :: 0 <= i < |a| ==> a[i].price != price
    requires forall i :: 0 <= i < |b| ==> b[i].price != price
    requires forall i :: 0 <= i < |q| ==> q[i].price == price
    ensures Renumber(a + (q + b), price) == a + (Numbered(q) + b)
  {
    var flat := a + (q + b);
    forall i | |a| <= i < |a| + |q|
      ensures CountAt(flat[..i], price) == i - |a|
    {
      assert flat[..i] == a + q[..i - |a|];
      CountAtConcat(a, q[..i - |a|], price);
      CountAtNone(a, price);
      CountAtAll(q[..i - |a|], price);
    }
    assert Renumber(flat, price) == a + (Numbered(q) + b);
  }

  lemma {:induction false} CountAtAll(q: seq<L3Order>, price: Price)
    requires forall i :: 0 <= i < |q| ==> q[i].price == price
    ensures CountAt(q, price) == |q|
  {
    if q != [] {
      CountAtAll(q[1..], price);
    }
  }

  /** Leaving a level is removing the order from the flat list and renumbering its price. */
  lemma {:induction false} LeftRemoves(side: Side, levels: seq<Level<L3Order>>, k: nat, j: nat)
    requires LadderOk(side, levels) && k < |levels| && j < |levels[k].queue|
    ensures LadderOk(side, Left(levels, k, j))
    ensures |Flatten(levels[..k])| + j < |Flatten(levels)|
    ensures Flatten(Left(levels, k, j))
         == Renumber(Drop(Flatten(levels), |Flatten(levels[..k])| + j), levels[k].price)
  {
    var q := Drop(levels[k].queue, j);
    var mid := if q == [] then [] else [Level(levels[k].price, Numbered(q))];
    assert LevelOk(side, levels[k]);
    DroppedLevel(side, levels, k, j);
    FlattenSplice(levels, k, k + 1, mid);
    if q != [] {
      FlattenOne(mid[0]);
      assert LevelOk(side, mid[0]);
    }
    SpliceOk(side, levels, k, mid);
  }

  lemma {:induction false} DroppedLevel(side: Side, levels: seq<Level<L3Order>>, k: nat, j: nat)
    requires LadderOk(side, levels) && k < |levels| && j < |levels[k].queue|
    ensures |Flatten(levels[..k])| + j < |Flatten(levels)|
    ensures Renumber(Drop(Flatten(levels), |Flatten(levels[..k])| + j), levels[k].price)
         == Flatten(levels[..k]) + (Numbered(Drop(levels[k].queue, j)) + Flatten(levels[k + 1..]))
  {
    var p, q := levels[k].price, Drop(levels[k].queue, j);
    var a, b := Flatten(levels[..k]), Flatten(levels[k + 1..]);
    assert LevelOk(side, levels[k]);
    SliceOk(side, levels, 0, k);
    SliceOk(side, levels, k + 1, |levels|);
    FlatRankBelow(side, levels[..k], Rank(side, p));
    FlatRankAbove(side, levels[k + 1..], Rank(side, p));
    FlattenAround(levels, k);
    assert Drop(a + (levels[k].queue + b), |a| + j) == a + (q + b);
    RenumberMiddle(a, q, b, p);
  }

  lemma {:induction false} SpliceOk(side: Side, levels: seq<Level<L3Order>>, k: nat, mid: seq<Level<L3Order>>)
    requires LadderOk(side, levels) && k < |levels| && |mid| <= 1
    requires mid != [] ==> mid[0].price == levels[k].price && LevelOk(side, mid[0])
    ensures LadderOk(side, levels[..k] + mid + levels[k + 1..])
  {
    var r := levels[..k] + mid + levels[k + 1..];
    forall i | 0 <= i < |r|
      ensures LevelOk(side, r[i])
      ensures r[i].price == levels[if i < k + |mid| then i else i - |mid| + 1].price
    {
    }
  }
}
