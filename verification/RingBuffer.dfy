/**
 * The single-producer single-consumer ring buffer (src/HPRingBuffer.hpp).  First as the
 * interleaving of the two threads' atomic steps, where each thread may read a stale value
 * of the other's index; then as the object whose calls run those steps one after another.
 */
module RingBuffer {
  import opened Types

  // ---------------------------------------------------------------- index arithmetic

  function Pow2(k: nat): (p: nat)
    ensures 0 < p
  {
    if k == 0 then 1 else 2 * Pow2(k - 1)
  }

  /** Bitwise conjunction of two unsigned integers. */
  function BitAnd(a: nat, b: nat): nat
    decreases a
  {
    if a == 0 then 0
    else BitAnd(a / 2, b / 2) * 2 + (if a % 2 == 1 && b % 2 == 1 then 1 else 0)
  }

  /** Masking with a power of two minus one is the remainder by that power. */
  lemma {:induction false} MaskIsMod(a: nat, k: nat)
    ensures BitAnd(a, Pow2(k) - 1) == a % Pow2(k)
    decreases k, a
  {
    if a == 0 {
      ZeroMod(Pow2(k));
    } else if k == 0 {
      MaskZero(a);
    } else {
      hide BitAnd;
      MaskIsMod(a / 2, k - 1);
      MaskStep(a, Pow2(k - 1));
    }
  }

  lemma {:induction false} ZeroMod(m: nat)
    requires 0 < m
    ensures BitAnd(0, m - 1) == 0 % m
  {
  }

  lemma {:induction false} MaskStep(a: nat, m: nat)
    requires 0 < a && 0 < m
    requires BitAnd(a / 2, m - 1) == a / 2 % m
    ensures BitAnd(a, 2 * m - 1) == a % (2 * m)
  {
    HalvedMask(m);
    LowBit(a, 2 * m - 1);
    hide BitAnd;
    HalvedRemainder(a, m);
  }

  lemma {:induction false} LowBit(a: nat, b: nat)
    requires 0 < a && b % 2 == 1
    ensures BitAnd(a, b) == 2 * BitAnd(a / 2, b / 2) + a % 2
  {
  }

  lemma {:induction false} HalvedMask(m: nat)
    requires 0 < m
    ensures (2 * m - 1) / 2 == m - 1 && (2 * m - 1) % 2 == 1
  {
  }

  lemma {:induction false} MaskZero(a: nat)
    ensures BitAnd(a, 0) == 0
  {
    if a != 0 {
      MaskZero(a / 2);
    }
  }

  lemma {:induction false} HalvedRemainder(a: nat, m: nat)
    requires 0 < m
    ensures a % (2 * m) == 2 * (a / 2 % m) + a % 2
  {
    var q, r := a / 2 / m, a / 2 % m;
    assert a / 2 == q * m + r;
    assert a == q * (2 * m) + (2 * r + a % 2);
    RemainderUnique(a, 2 * m, q, 2 * r + a % 2);
  }

  lemma {:induction false} RemainderUnique(a: int, m: nat, q: int, r: nat)
    requires a == q * m + r && r < m
    ensures a % m == r
  {
    var d := a / m - q;
    assert d * m == r - a % m;
    SmallMultiple(d, m);
  }

  lemma {:induction false} SmallMultiple(d: int, m: nat)
    requires -(m as int) < d * m < m
    ensures d == 0
  {
    if 0 < d {
      ProductMonotone(1, d, m);
    } else if d < 0 {
      ProductMonotone(d, -1, m);
    }
  }

  /** The successor of an index, computed with the mask. */
  function Increment(index: nat, k: nat): nat {
    BitAnd(index + 1, Pow2(k) - 1)
  }

  lemma {:induction false} IncrementCounts(count: nat, k: nat)
    ensures Increment(count % Pow2(k), k) == (count + 1) % Pow2(k)
  {
    MaskIsMod(count % Pow2(k) + 1, k);
    ModSuccessor(count, Pow2(k));
  }

  lemma {:induction false} ModSuccessor(count: nat, m: nat)
    requires 0 < m
    ensures (count % m + 1) % m == (count + 1) % m
  {
    var q, r := count / m, count % m;
    assert count == q * m + r;
    if r + 1 == m {
      assert count + 1 == (q + 1) * m + 0;
      RemainderUnique(count + 1, m, q + 1, 0);
      RemainderUnique(m, m, 1, 0);
    } else {
      RemainderUnique(count + 1, m, q, r + 1);
      RemainderUnique(r + 1, m, 0, r + 1);
    }
  }

  /** Counters less than a full turn apart share an index only when they are equal. */
  lemma {:induction false} SameIndex(i: nat, j: nat, m: nat)
    requires 0 < m && i <= j < i + m
    ensures i % m == j % m <==> i == j
  {
    if i % m == j % m {
      var d := j / m - i / m;
      assert j - i == d * m;
      SmallMultiple(d, m);
    }
  }

  // ---------------------------------------------------------------- the protocol

  datatype Producer<T> =
    | PIdle
    | PLoaded(item: T, head: nat)    // own index loaded
    | PRoom(item: T, head: nat)      // the other index did not look full
    | PWritten(item: T, head: nat)   // slot written, index not yet published
    | PSizing(head: nat)             // asking for the size, own index loaded

  datatype Consumer<T> =
    | CIdle
    | CLoaded(tail: nat)             // own index loaded
    | CReady(tail: nat)              // the other index did not look empty
    | CRead(tail: nat, value: T)     // slot read, index not yet published
    | CSizing(head: nat)             // asking for the size, the other index loaded

  /** A thread that neither pushes nor pops, asking for the size. */
  datatype Watcher =
    | WIdle
    | WSizing(pushes: nat)           // head loaded, as it was after so many pushes

  /** Shared memory and all threads, with the history of completed pushes and pops and the
      most recent value each thread has seen of the other's counter. */
  datatype Ring<T> = Ring(
    k: nat,
    buffer: seq<T>,
    head: nat,
    tail: nat,
    producer: Producer<T>,
    consumer: Consumer<T>,
    pushed: seq<T>,
    popped: seq<T>,
    tailSeen: nat,
    headSeen: nat,
    watcher: Watcher)
  {
    function Size(): nat {
      Pow2(k)
    }
  }

  datatype Action<T> =
    | LoadHead(item: T)
    | LoadTailView(view: nat)    // sees the tail as it was after `view` pops
    | WriteSlot
    | StoreHead
    | LoadTail
    | LoadHeadView(view: nat)    // sees the head as it was after `view` pushes
    | ReadSlot
    | StoreTail
    | SizeHead                      // the two loads of a size, empty or full query:
    | SizeTailView(view: nat)       //   by the producer,
    | SizeHeadView(view: nat)
    | SizeTail                      //   by the consumer,
    | WatchHead(view: nat)
    | WatchTail(view: nat)          //   by a third thread

  /** When a step can happen.  A read of the other thread's index may be stale, but reads of
      one variable never go back in time. */
  predicate Enabled<T>(s: Ring<T>, a: Action<T>) {
    match a
    case LoadHead(_) => s.producer.PIdle?
    case LoadTailView(view) => s.producer.PLoaded? && s.tailSeen <= view <= |s.popped|
    case WriteSlot => s.producer.PRoom? && s.producer.head < |s.buffer|
    case StoreHead => s.producer.PWritten?
    case LoadTail => s.consumer.CIdle?
    case LoadHeadView(view) => s.consumer.CLoaded? && s.headSeen <= view <= |s.pushed|
    case ReadSlot => s.consumer.CReady? && s.consumer.tail < |s.buffer|
    case StoreTail => s.consumer.CRead?
    case SizeHead => s.producer.PIdle?
    case SizeTailView(view) => s.producer.PSizing? && s.tailSeen <= view <= |s.popped|
    case SizeHeadView(view) => s.consumer.CIdle? && s.headSeen <= view <= |s.pushed|
    case SizeTail => s.consumer.CSizing?
    case WatchHead(view) => s.watcher.WIdle? && view <= |s.pushed|
    case WatchTail(view) => s.watcher.WSizing? && view <= |s.popped|
  }

  function Next<T>(s: Ring<T>, a: Action<T>): Ring<T>
    requires Enabled(s, a)
  {
    match a
    case LoadHead(item) => s.(producer := PLoaded(item, s.head))
    case LoadTailView(view) =>
      var p := s.producer;
      s.(tailSeen := view,
         producer := if Increment(p.head, s.k) == view % s.Size() then PIdle else PRoom(p.item, p.head))
    case WriteSlot =>
      var p := s.producer;
      s.(buffer := s.buffer[p.head := p.item], producer := PWritten(p.item, p.head))
    case StoreHead =>
      var p := s.producer;
      s.(head := Increment(p.head, s.k), producer := PIdle, pushed := s.pushed + [p.item])
    case LoadTail => s.(consumer := CLoaded(s.tail))
    case LoadHeadView(view) =>
      var c := s.consumer;
      s.(headSeen := view, consumer := if c.tail == view % s.Size() then CIdle else CReady(c.tail))
    case ReadSlot =>
      var c := s.consumer;
      s.(consumer := CRead(c.tail, s.buffer[c.tail]))
    case StoreTail =>
      var c := s.consumer;
      s.(tail := Increment(c.tail, s.k), consumer := CIdle, popped := s.popped + [c.value])
    case SizeHead => s.(producer := PSizing(s.head))
    case SizeTailView(view) => s.(tailSeen := view, producer := PIdle)
    case SizeHeadView(view) => s.(headSeen := view, consumer := CSizing(view % s.Size()))
    case SizeTail => s.(consumer := CIdle)
    case WatchHead(view) => s.(watcher := WSizing(view))
    case WatchTail(_) => s.(watcher := WIdle)
  }

  function Start<T>(k: nat, buffer: seq<T>): Ring<T>
    requires |buffer| == Pow2(k)
  {
    Ring(k, buffer, 0, 0, PIdle, CIdle, [], [], 0, 0, WIdle)
  }

  // ---------------------------------------------------------------- the invariant

  /** Pushed minus popped sits in the buffer, in order. */
  ghost predicate Stored<T>(s: Ring<T>) {
    && |s.buffer| == s.Size()
    && |s.popped| <= |s.pushed|
    && s.popped == s.pushed[..|s.popped|]
    && forall i :: |s.popped| <= i < |s.pushed| ==> s.buffer[i % s.Size()] == s.pushed[i]
  }

  /** Indices are counters modulo the size, and each thread's stale view of the other is
      still within one turn of its own counter. */
  ghost predicate Bounded<T>(s: Ring<T>) {
    && s.head == |s.pushed| % s.Size()
    && s.tail == |s.popped| % s.Size()
    && s.tailSeen <= |s.popped| <= s.headSeen <= |s.pushed| < s.tailSeen + s.Size()
  }

  ghost predicate ProducerOk<T>(s: Ring<T>) {
    match s.producer
    case PIdle => true
    case PLoaded(_, head) => head == s.head
    case PRoom(_, head) => head == s.head && |s.pushed| + 1 < s.tailSeen + s.Size()
    case PWritten(item, head) =>
      head == s.head && |s.pushed| + 1 < s.tailSeen + s.Size() && head < |s.buffer| && s.buffer[head] == item
    case PSizing(head) => head == s.head
  }

  ghost predicate ConsumerOk<T>(s: Ring<T>) {
    match s.consumer
    case CIdle => true
    case CLoaded(tail) => tail == s.tail
    case CReady(tail) => tail == s.tail && |s.popped| < s.headSeen
    case CRead(tail, value) => tail == s.tail && |s.popped| < s.headSeen <= |s.pushed| && value == s.pushed[|s.popped|]
    case CSizing(head) => head == s.headSeen % s.Size()
  }

  ghost predicate RingInv<T>(s: Ring<T>) {
    Stored(s) && Bounded(s) && ProducerOk(s) && ConsumerOk(s)
  }

  lemma {:induction false} StartOk<T>(k: nat, buffer: seq<T>)
    requires |buffer| == Pow2(k)
    ensures RingInv(Start(k, buffer))
  {
  }

  /** The producer's step on the slot it is about to use leaves every stored item alone. */
  lemma {:induction false} WriteIsFree<T>(s: Ring<T>, i: nat)
    requires RingInv(s) && (s.producer.PRoom? || s.producer.PWritten?)
    requires |s.popped| <= i < |s.pushed|
    ensures i % s.Size() != s.head
  {
    SameIndex(i, |s.pushed|, s.Size());
  }

  lemma {:induction false} StepKeepsRing<T>(s: Ring<T>, a: Action<T>)
    requires RingInv(s) && Enabled(s, a)
    ensures RingInv(Next(s, a))
  {
    match a
    case LoadHead(_) =>
    case LoadTail =>
    case LoadTailView(view) => LoadTailViewKeeps(s, view);
    case LoadHeadView(view) => LoadHeadViewKeeps(s, view);
    case WriteSlot => WriteSlotKeeps(s);
    case StoreHead => StoreHeadKeeps(s);
    case ReadSlot =>
    case StoreTail => StoreTailKeeps(s);
    case SizeHead =>
    case SizeTailView(_) =>
    case SizeHeadView(_) =>
    case SizeTail =>
    case WatchHead(_) =>
    case WatchTail(_) =>
  }

  lemma {:induction false} LoadTailViewKeeps<T>(s: Ring<T>, view: nat)
    requires RingInv(s) && Enabled(s, LoadTailView(view))
    ensures RingInv(Next(s, LoadTailView(view)))
  {
    IncrementCounts(|s.pushed|, s.k);
    if |s.pushed| + 1 == view + s.Size() {
      RemainderShift(view, s.Size());
    }
  }

  lemma {:induction false} RemainderShift(a: nat, m: nat)
    requires 0 < m
    ensures (a + m) % m == a % m
  {
    assert a + m == (a / m + 1) * m + a % m;
    RemainderUnique(a + m, m, a / m + 1, a % m);
  }

  lemma {:induction false} LoadHeadViewKeeps<T>(s: Ring<T>, view: nat)
    requires RingInv(s) && Enabled(s, LoadHeadView(view))
    ensures RingInv(Next(s, LoadHeadView(view)))
  {
    SameIndex(|s.popped|, view, s.Size());
  }

  lemma {:induction false} WriteSlotKeeps<T>(s: Ring<T>)
    requires RingInv(s) && Enabled(s, WriteSlot)
    ensures RingInv(Next(s, WriteSlot))
  {
    forall i | |s.popped| <= i < |s.pushed|
      ensures Next(s, WriteSlot).buffer[i % s.Size()] == s.pushed[i]
    {
      WriteIsFree(s, i);
    }
  }

  lemma {:induction false} StoreHeadKeeps<T>(s: Ring<T>)
    requires RingInv(s) && Enabled(s, StoreHead)
    ensures RingInv(Next(s, StoreHead))
  {
    IncrementCounts(|s.pushed|, s.k);
  }

  lemma {:induction false} StoreTailKeeps<T>(s: Ring<T>)
    requires RingInv(s) && Enabled(s, StoreTail)
    ensures RingInv(Next(s, StoreTail))
  {
    IncrementCounts(|s.popped|, s.k);
  }

  // ---------------------------------------------------------------- all interleavings

  /** `as` is a schedule of steps that can happen one after another from `s`. */
  ghost predicate Schedule<T>(s: Ring<T>, steps: seq<Action<T>>)
    decreases |steps|
  {
    steps == [] || (Enabled(s, steps[0]) && Schedule(Next(s, steps[0]), steps[1..]))
  }

  function After<T>(s: Ring<T>, steps: seq<Action<T>>): Ring<T>
    requires Schedule(s, steps)
    decreases |steps|
  {
    if steps == [] then s else After(Next(s, steps[0]), steps[1..])
  }

  lemma {:induction false} ScheduleKeeps<T>(s: Ring<T>, steps: seq<Action<T>>)
    requires RingInv(s) && Schedule(s, steps)
    ensures RingInv(After(s, steps))
    decreases |steps|
  {
    if steps != [] {
      StepKeepsRing(s, steps[0]);
      ScheduleKeeps(Next(s, steps[0]), steps[1..]);
    }
  }

  /** The contents of the buffer, oldest first. */
  ghost function Contents<T>(s: Ring<T>): seq<T>
    requires Stored(s)
  {
    seq(|s.pushed| - |s.popped|, i requires 0 <= i < |s.pushed| - |s.popped| =>
      s.buffer[(|s.popped| + i) % s.Size()])
  }

  /** In every interleaving, nothing is lost, duplicated or reordered; at most Size - 1 items
      are held; and the producer never writes the slot the consumer is reading. */
  lemma {:induction false} EveryInterleaving<T>(k: nat, buffer: seq<T>, steps: seq<Action<T>>)
    requires |buffer| == Pow2(k) && Schedule(Start(k, buffer), steps)
    ensures var s := After(Start(k, buffer), steps);
            && Stored(s)
            && s.pushed == s.popped + Contents(s)
            && |s.pushed| - |s.popped| <= s.Size() - 1
            && (s.producer.PRoom? && s.consumer.CReady? ==> s.producer.head != s.consumer.tail)
  {
    StartOk(k, buffer);
    ScheduleKeeps(Start(k, buffer), steps);
    var s := After(Start(k, buffer), steps);
    assert s.k == k by { ScheduleKeepsSize(Start(k, buffer), steps); }
    assert s.pushed == s.popped + s.pushed[|s.popped|..];
    assert Contents(s) == s.pushed[|s.popped|..];
    if s.producer.PRoom? && s.consumer.CReady? {
      WriteIsFree(s, |s.popped|);
    }
  }

  lemma {:induction false} ScheduleKeepsSize<T>(s: Ring<T>, steps: seq<Action<T>>)
    requires Schedule(s, steps)
    ensures After(s, steps).k == s.k
    decreases |steps|
  {
    if steps != [] {
      ScheduleKeepsSize(Next(s, steps[0]), steps[1..]);
    }
  }

  /** A refused push saw a full buffer, a refused pop an empty one: relative to the other
      counter as it was when it was read. */
  lemma {:induction false} RefusalsAreJustified<T>(s: Ring<T>, a: Action<T>)
    requires RingInv(s) && Enabled(s, a)
    ensures a.LoadTailView? ==> (Next(s, a).producer.PIdle? <==> |s.pushed| - a.view == s.Size() - 1)
    ensures a.LoadHeadView? ==> (Next(s, a).consumer.CIdle? <==> a.view == |s.popped|)
  {
    if a.LoadTailView? {
      IncrementCounts(|s.pushed|, s.k);
      if |s.pushed| + 1 == a.view + s.Size() {
        RemainderShift(a.view, s.Size());
      } else {
        SameIndex(a.view, |s.pushed| + 1, s.Size());
      }
    }
    if a.LoadHeadView? {
      SameIndex(|s.popped|, a.view, s.Size());
    }
  }

  // ---------------------------------------------------------------- occupancy from the two indices

  /** The occupancy computed from head and tail. */
  function Occupancy(head: nat, tail: nat, size: nat): int {
    if tail <= head then head - tail else size - (tail - head)
  }

  lemma {:induction false} OccupancyIsExact(pushed: nat, popped: nat, m: nat)
    requires 0 < m && popped <= pushed < popped + m
    ensures Occupancy(pushed % m, popped % m, m) == pushed - popped
  {
    var n, t := pushed - popped, popped % m;
    assert popped == popped / m * m + t;
    if t + n < m {
      RemainderUnique(pushed, m, popped / m, t + n);
    } else {
      assert pushed == (popped / m + 1) * m + (t + n - m);
      RemainderUnique(pushed, m, popped / m + 1, t + n - m);
    }
  }

  /** Computed from any two counts, the occupancy is their difference modulo the size. */
  lemma {:induction false} OccupancyIsMod(pushes: nat, pops: nat, m: nat)
    requires 0 < m
    ensures Occupancy(pushes % m, pops % m, m) == (pushes - pops) % m
  {
    var h, t, q := pushes % m, pops % m, pushes / m - pops / m;
    assert pushes == pushes / m * m + h && pops == pops / m * m + t;
    if t <= h {
      RemainderUnique(pushes - pops, m, q, h - t);
    } else {
      assert pushes - pops == (q - 1) * m + (m - (t - h));
      RemainderUnique(pushes - pops, m, q - 1, m - (t - h));
    }
  }

  /** The producer asks for the size: it knows its own index and may miss pops, so the answer
      is never too small, and a full buffer always looks full. */
  lemma {:induction false} ProducerSeesAtLeast<T>(s: Ring<T>, view: nat)
    requires RingInv(s) && Enabled(s, SizeTailView(view))
    ensures var seen := Occupancy(s.producer.head, view % s.Size(), s.Size());
            && seen == |s.pushed| - view
            && |s.pushed| - |s.popped| <= seen <= s.Size() - 1
    ensures Increment(s.producer.head, s.k) == view % s.Size() <==> |s.pushed| - view == s.Size() - 1
    ensures |s.pushed| - |s.popped| == s.Size() - 1 ==> Increment(s.producer.head, s.k) == view % s.Size()
  {
    OccupancyIsExact(|s.pushed|, view, s.Size());
    IncrementCounts(|s.pushed|, s.k);
    if |s.pushed| + 1 == view + s.Size() {
      RemainderShift(view, s.Size());
    } else {
      SameIndex(view, |s.pushed| + 1, s.Size());
    }
  }

  /** The consumer asks for the size: it knows its own index and may miss pushes, so the answer
      is never too large, and an empty buffer always looks empty. */
  lemma {:induction false} ConsumerSeesAtMost<T>(s: Ring<T>)
    requires RingInv(s) && Enabled(s, SizeTail)
    ensures var seen := Occupancy(s.consumer.head, s.tail, s.Size());
            && seen == s.headSeen - |s.popped|
            && 0 <= seen <= |s.pushed| - |s.popped|
    ensures s.consumer.head == s.tail <==> s.headSeen == |s.popped|
    ensures |s.pushed| == |s.popped| ==> s.consumer.head == s.tail
  {
    OccupancyIsExact(s.headSeen, |s.popped|, s.Size());
    SameIndex(|s.popped|, s.headSeen, s.Size());
  }

  /** A third thread asks for the size: between its two loads both other threads move on.  Its
      answer is right for the moment of its second load exactly when the pushes and the
      pops that it missed differ by a multiple of the size. */
  lemma {:induction false} WatcherIsRightIff<T>(s: Ring<T>, view: nat)
    requires RingInv(s) && Enabled(s, WatchTail(view))
    ensures var seen := Occupancy(s.watcher.pushes % s.Size(), view % s.Size(), s.Size());
            && 0 <= seen <= s.Size() - 1
            && (seen == |s.pushed| - |s.popped|
                <==> ((|s.pushed| - s.watcher.pushes) - (|s.popped| - view)) % s.Size() == 0)
  {
    var n, d, m := |s.pushed| - |s.popped|, s.watcher.pushes - view, s.Size();
    OccupancyIsMod(s.watcher.pushes, view, m);
    SameRemainder(n, d, m);
  }

  lemma {:induction false} SameRemainder(n: nat, d: int, m: nat)
    requires n < m
    ensures d % m == n <==> (n - d) % m == 0
  {
    if d % m == n {
      assert n - d == -(d / m) * m + 0;
      RemainderUnique(n - d, m, -(d / m), 0);
    }
    if (n - d) % m == 0 {
      assert d == -((n - d) / m) * m + n;
      RemainderUnique(d, m, -((n - d) / m), n);
    }
  }

  lemma {:induction false} OneMoreStep<T>(s: Ring<T>, steps: seq<Action<T>>, a: Action<T>)
    returns (longer: seq<Action<T>>)
    requires Schedule(s, steps) && Enabled(After(s, steps), a)
    ensures longer == steps + [a]
    ensures Schedule(s, longer) && After(s, longer) == Next(After(s, steps), a)
    decreases |steps|
  {
    longer := steps + [a];
    if steps == [] {
      assert longer == [a] && [a][1..] == [];
    } else {
      var tail := OneMoreStep(Next(s, steps[0]), steps[1..], a);
      assert longer[1..] == tail;
    }
  }

  lemma {:induction false} NoStep<T>(s: Ring<T>)
    ensures Schedule(s, []) && After(s, []) == s
  {
  }

  /** With a push and a pop between its loads, a third thread is told that an empty buffer of
      two slots holds one item. */
  lemma {:induction false} WatcherMisreads<T>(x: T) returns (steps: seq<Action<T>>)
    ensures Schedule(Start(1, [x, x]), steps)
    ensures var s := After(Start(1, [x, x]), steps);
            && s.pushed == s.popped == [x]
            && Enabled(s, WatchTail(1))
            && Occupancy(s.watcher.pushes % s.Size(), 1 % s.Size(), s.Size()) == 1
  {
    hide Schedule;
    hide After;
    hide Increment;
    steps := LookThenPush(x);
    var s := Start(1, [x, x]);
    TwoSlots();
    steps := OneMoreStep(s, steps, LoadTail);
    steps := OneMoreStep(s, steps, LoadHeadView(1));
    steps := OneMoreStep(s, steps, ReadSlot);
    steps := OneMoreStep(s, steps, StoreTail);
  }

  lemma {:induction false} LookThenPush<T>(x: T) returns (steps: seq<Action<T>>)
    ensures Schedule(Start(1, [x, x]), steps)
    ensures After(Start(1, [x, x]), steps) == Ring(1, [x, x], 1, 0, PIdle, CIdle, [x], [], 0, 0, WSizing(0))
  {
    hide Schedule;
    hide After;
    hide Increment;
    var s := Start(1, [x, x]);
    TwoSlots();
    NoStep(s);
    steps := OneMoreStep(s, [], WatchHead(0));
    steps := OneMoreStep(s, steps, LoadHead(x));
    steps := OneMoreStep(s, steps, LoadTailView(0));
    steps := OneMoreStep(s, steps, WriteSlot);
    steps := OneMoreStep(s, steps, StoreHead);
    assert [x, x][0 := x] == [x, x];
  }

  lemma {:induction false} TwoSlots()
    ensures Pow2(1) == 2 && Increment(0, 1) == 1
  {
    MaskIsMod(1, 1);
  }

  /** The consumer's steps without interruption, seeing the current head. */
  lemma {:induction false} PopAlone<T>(s: Ring<T>) returns (s': Ring<T>)
    requires RingInv(s) && s.producer.PIdle? && s.consumer.CIdle?
    ensures RingInv(s') && s'.k == s.k && s'.buffer == s.buffer && s'.head == s.head
    ensures s'.producer.PIdle? && s'.consumer.CIdle?
    ensures s.tail == s.head <==> Contents(s) == []
    ensures s.tail == s.head ==> s'.tail == s.tail && Contents(s') == []
    ensures s.tail != s.head ==>
              && s.tail < |s.buffer| && s'.tail == Increment(s.tail, s.k)
              && Contents(s) == [s.buffer[s.tail]] + Contents(s')
  {
    s' := ConsumerLooks(s);
    ContentsAreHistory(s);
    if s.tail != s.head {
      s' := ConsumerTakes(s');
    }
    ContentsAreHistory(s');
  }

  lemma {:induction false} ConsumerLooks<T>(s: Ring<T>) returns (s': Ring<T>)
    requires RingInv(s) && s.consumer.CIdle?
    ensures RingInv(s')
    ensures s' == s.(headSeen := |s.pushed|, consumer := if s.tail == s.head then CIdle else CReady(s.tail))
    ensures s.tail == s.head <==> |s.pushed| == |s.popped|
  {
    var s1, view := Next(s, LoadTail), |s.pushed|;
    StepKeepsRing(s, LoadTail);
    RefusalsAreJustified(s1, LoadHeadView(view));
    StepKeepsRing(s1, LoadHeadView(view));
    s' := Next(s1, LoadHeadView(view));
  }

  lemma {:induction false} ConsumerTakes<T>(s: Ring<T>) returns (s': Ring<T>)
    requires RingInv(s) && s.consumer.CReady?
    ensures RingInv(s') && s.tail < |s.buffer|
    ensures s' == s.(tail := Increment(s.tail, s.k), consumer := CIdle, popped := s.popped + [s.buffer[s.tail]])
    ensures s.buffer[s.tail] == s.pushed[|s.popped|]
  {
    StepKeepsRing(s, ReadSlot);
    StepKeepsRing(Next(s, ReadSlot), StoreTail);
    s' := Next(Next(s, ReadSlot), StoreTail);
  }

  /** The producer's first two steps without interruption, seeing the current tail. */
  lemma {:induction false} ProducerLooks<T>(s: Ring<T>, item: T) returns (s': Ring<T>)
    requires RingInv(s) && s.producer.PIdle?
    ensures RingInv(s')
    ensures s' == s.(tailSeen := |s.popped|,
                     producer := if Increment(s.head, s.k) == s.tail then PIdle else PRoom(item, s.head))
    ensures Increment(s.head, s.k) == s.tail <==> |s.pushed| - |s.popped| == s.Size() - 1
  {
    var s1, view := Next(s, LoadHead(item)), |s.popped|;
    StepKeepsRing(s, LoadHead(item));
    RefusalsAreJustified(s1, LoadTailView(view));
    StepKeepsRing(s1, LoadTailView(view));
    s' := Next(s1, LoadTailView(view));
  }

  lemma {:induction false} ProducerWrites<T>(s: Ring<T>) returns (s': Ring<T>)
    requires RingInv(s) && s.producer.PRoom?
    ensures RingInv(s') && s.head < |s.buffer|
    ensures s' == s.(buffer := s.buffer[s.head := s.producer.item], head := Increment(s.head, s.k),
                     producer := PIdle, pushed := s.pushed + [s.producer.item])
  {
    StepKeepsRing(s, WriteSlot);
    StepKeepsRing(Next(s, WriteSlot), StoreHead);
    s' := Next(Next(s, WriteSlot), StoreHead);
  }

  // ---------------------------------------------------------------- the object

  class HPRingBuffer<T(0)> {
    const k: nat
    const buffer: array<T>
    var head: nat
    var tail: nat
    /** The state of the protocol between calls. */
    ghost var ring: Ring<T>

    ghost predicate Valid()
      reads this, buffer
    {
      && RingInv(ring)
      && ring.k == k
      && ring.buffer == buffer[..]
      && ring.head == head
      && ring.tail == tail
      && ring.producer.PIdle?
      && ring.consumer.CIdle?
    }

    /** What is in the buffer, oldest first. */
    ghost function Items(): seq<T>
      requires Valid()
      reads this, buffer
    {
      Contents(ring)
    }

    constructor (k: nat)
      ensures Valid() && fresh(buffer) && this.k == k && Items() == []
    {
      this.k := k;
      buffer := new T[Pow2(k)];
      head, tail := 0, 0;
      new;
      ring := Start(k, buffer[..]);
      StartOk(k, buffer[..]);
    }

    /** Runs the producer's steps without interruption; refuses exactly when full. */
    method Push(item: T) returns (ok: bool)
      requires Valid()
      modifies this`head, this`ring, buffer
      ensures Valid()
      ensures ok <==> |old(Items())| < Pow2(k) - 1
      ensures Items() == if ok then old(Items()) + [item] else old(Items())
    {
      ghost var before := ring;
      ring := ProducerLooks(ring, item);
      var next := Increment(head, k);
      if next == tail {
        return false;
      }
      ring := ProducerWrites(ring);
      buffer[head] := item;
      head := next;
      ContentsAreHistory(before);
      ContentsAreHistory(ring);
      ok := true;
    }

    /** Runs the consumer's steps without interruption; yields the oldest item. */
    method Pop() returns (item: Option<T>)
      requires Valid()
      modifies this`tail, this`ring
      ensures Valid()
      ensures match item
              case None => old(Items()) == [] == Items()
              case Some(x) => old(Items()) == [x] + Items()
    {
      ghost var next := PopAlone(ring);
      if tail == head {
        ring := next;
        return None;
      }
      item := Some(buffer[tail]);
      tail := Increment(tail, k);
      ring := next;
    }

    method Size() returns (n: int)
      requires Valid()
      ensures n == |Items()|
    {
      OccupancyIsExact(|ring.pushed|, |ring.popped|, Pow2(k));
      n := if tail <= head then head - tail else Pow2(k) - (tail - head);
    }

    method Empty() returns (empty: bool)
      requires Valid()
      ensures empty <==> Items() == []
    {
      OccupancyIsExact(|ring.pushed|, |ring.popped|, Pow2(k));
      empty := head == tail;
    }

    method Full() returns (full: bool)
      requires Valid()
      ensures full <==> |Items()| == Pow2(k) - 1
    {
      RefusalsAreJustified(Next(ring, LoadHead(buffer[0])), LoadTailView(|ring.popped|));
      full := Increment(head, k) == tail;
    }
  }

  lemma {:induction false} ContentsAreHistory<T>(s: Ring<T>)
    requires RingInv(s)
    ensures Contents(s) == s.pushed[|s.popped|..]
  {
  }
}
