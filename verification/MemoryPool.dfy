/**
 * The fixed-capacity object pool (src/common/memory_pool.h): a free list threaded through
 * the slots.  First the interleaving of one allocating thread and any number of freeing
 * threads, atomic step by atomic step; then the object, whose calls run those steps
 * without interruption.
 */
module MemoryPools {
  import opened Types

  type ThreadId = nat

  datatype Slot = Slot(nextFree: nat, inUse: bool)

  datatype Allocator =
    | AIdle
    | ALoaded(head: nat)               // a head of the free list loaded
    | ANext(head: nat, next: nat)      // its successor read
    | ATaken(head: nat)                // compare-and-swap succeeded
    | AMarked(head: nat)               // slot marked in use

  datatype Freer =
    | FMarked(slot: nat)               // slot marked free
    | FLoaded(slot: nat, head: nat)    // a head of the free list loaded
    | FLinked(slot: nat, head: nat)    // slot points to that head
    | FPushed                          // compare-and-swap succeeded, count still to be lowered
  {
    /** Does this freeing thread still own the slot? */
    predicate Owns(i: nat) {
      !FPushed? && slot == i
    }
  }

  /** Who may touch a slot. */
  datatype Owner =
    | Listed                      // on the free list
    | Allocating                  // taken by the allocating thread, not yet handed out
    | Client                      // handed out
    | Freeing(thread: ThreadId)   // given back, not yet on the free list

  /** Shared memory, the program counters of all threads, and for the proof: the owner of
      each slot, the free list, and the values that a load of the list head by the
      allocating thread may still return. */
  datatype Pool = Pool(
    capacity: nat,
    slots: seq<Slot>,
    freeHead: nat,
    count: int,
    allocator: Allocator,
    freers: map<ThreadId, Freer>,
    owner: seq<Owner>,
    free: seq<nat>,
    visible: set<nat>)

  datatype PoolStep =
    | AllocLoad(view: nat)
    | AllocGiveUp
    | AllocReadNext
    | AllocCas
    | AllocCasFail(view: nat)
    | AllocMark
    | AllocReturn
    | FreeBegin(thread: ThreadId, slot: nat)
    | FreeLoad(thread: ThreadId, view: nat)
    | FreeLink(thread: ThreadId)
    | FreeCas(thread: ThreadId)
    | FreeCasFail(thread: ThreadId, view: nat)
    | FreeReturn(thread: ThreadId)

  predicate At(s: Pool, t: ThreadId) {
    t in s.freers
  }

  /** When a step can happen.  Loads may be stale: the allocating thread can see any head
      since its own last successful exchange, a freeing thread anything at all.  An exchange
      succeeds only on the current head; it may fail at any time, also on that head, and then
      loads a head like any other load.  Clients free only what they hold. */
  predicate Enabled(s: Pool, a: PoolStep) {
    match a
    case AllocLoad(view) => s.allocator.AIdle? && view in s.visible
    case AllocGiveUp => s.allocator.ALoaded? && s.capacity <= s.allocator.head
    case AllocReadNext => s.allocator.ALoaded? && s.allocator.head < s.capacity && s.allocator.head < |s.slots|
    case AllocCas => s.allocator.ANext? && s.freeHead == s.allocator.head
    case AllocCasFail(view) => s.allocator.ANext? && view in s.visible
    case AllocMark => s.allocator.ATaken? && s.allocator.head < |s.slots|
    case AllocReturn => s.allocator.AMarked?
    case FreeBegin(t, i) => !At(s, t) && i < |s.slots| && i < |s.owner| && s.owner[i].Client?
    case FreeLoad(t, _) => At(s, t) && s.freers[t].FMarked?
    case FreeLink(t) => At(s, t) && s.freers[t].FLoaded? && s.freers[t].slot < |s.slots|
    case FreeCas(t) => At(s, t) && s.freers[t].FLinked? && s.freeHead == s.freers[t].head
    case FreeCasFail(t, _) => At(s, t) && s.freers[t].FLinked?
    case FreeReturn(t) => At(s, t) && s.freers[t].FPushed?
  }

  function Give(owner: seq<Owner>, i: nat, o: Owner): seq<Owner> {
    if i < |owner| then owner[i := o] else owner
  }

  function Next(s: Pool, a: PoolStep): Pool
    requires Enabled(s, a)
  {
    match a
    case AllocLoad(view) => s.(allocator := ALoaded(view))
    case AllocGiveUp => s.(allocator := AIdle)
    case AllocReadNext =>
      s.(allocator := ANext(s.allocator.head, s.slots[s.allocator.head].nextFree))
    case AllocCas =>
      var ANext(head, next) := s.allocator;
      s.(freeHead := next, allocator := ATaken(head), owner := Give(s.owner, head, Allocating),
         free := if s.free == [] then [] else s.free[1..], visible := {next})
    case AllocCasFail(view) => s.(allocator := ALoaded(view))
    case AllocMark =>
      var i := s.allocator.head;
      s.(slots := s.slots[i := s.slots[i].(inUse := true)], allocator := AMarked(i))
    case AllocReturn =>
      s.(count := s.count + 1, owner := Give(s.owner, s.allocator.head, Client), allocator := AIdle)
    case FreeBegin(t, i) =>
      s.(slots := s.slots[i := s.slots[i].(inUse := false)], owner := s.owner[i := Freeing(t)],
         freers := s.freers[t := FMarked(i)])
    case FreeLoad(t, view) =>
      s.(freers := s.freers[t := FLoaded(s.freers[t].slot, view)])
    case FreeLink(t) =>
      var FLoaded(i, head) := s.freers[t];
      s.(slots := s.slots[i := s.slots[i].(nextFree := head)], freers := s.freers[t := FLinked(i, head)])
    case FreeCas(t) =>
      var i := s.freers[t].slot;
      s.(freeHead := i, freers := s.freers[t := FPushed], owner := Give(s.owner, i, Listed),
         free := [i] + s.free, visible := s.visible + {i})
    case FreeCasFail(t, view) =>
      s.(freers := s.freers[t := FLoaded(s.freers[t].slot, view)])
    case FreeReturn(t) =>
      s.(count := s.count - 1, freers := s.freers - {t})
  }

  /** Slot i points to slot i + 1, the last one past the end, and all are free. */
  function Start(capacity: nat): Pool {
    Pool(capacity, seq(capacity, (i: nat) => Slot(i + 1, false)), 0, 0, AIdle, map[],
         seq(capacity, (i: nat) => Listed), seq(capacity, (i: nat) => i), {0})
  }

  // ---------------------------------------------------------------- the invariant

  function ListHead(free: seq<nat>, capacity: nat): nat {
    if free == [] then capacity else free[0]
  }

  /** `free` is the list that the slots spell out from the head: acyclic, without
      duplicates, ended by the capacity. */
  ghost predicate Chain(slots: seq<Slot>, head: nat, free: seq<nat>, capacity: nat) {
    && head == ListHead(free, capacity)
    && (forall i :: 0 <= i < |free| ==> free[i] < capacity == |slots|)
    && (forall i, j :: 0 <= i < j < |free| ==> free[i] != free[j])
    && (forall i :: 0 <= i < |free| ==> slots[free[i]].nextFree == ListHead(free[i + 1..], capacity))
    && (forall i :: 0 <= i < |free| ==> !slots[free[i]].inUse)
  }

  predicate AllocatorOwns(s: Pool, i: nat) {
    (s.allocator.ATaken? || s.allocator.AMarked?) && s.allocator.head == i
  }

  /** The owner of a slot is where the slot really is: on the list, with the thread whose
      program counter names it, or else with a client. */
  ghost predicate OwnerOk(s: Pool, i: nat)
    requires i < |s.owner|
  {
    match s.owner[i]
    case Listed => i in s.free && !AllocatorOwns(s, i) && NoFreer(s, i)
    case Allocating => i !in s.free && AllocatorOwns(s, i) && NoFreer(s, i)
    case Client => i !in s.free && !AllocatorOwns(s, i) && NoFreer(s, i)
    case Freeing(t) => i !in s.free && !AllocatorOwns(s, i) && t in s.freers && s.freers[t].Owns(i)
                       && forall u :: u in s.freers && u != t ==> !s.freers[u].Owns(i)
  }

  ghost predicate NoFreer(s: Pool, i: nat) {
    forall u :: u in s.freers ==> !s.freers[u].Owns(i)
  }

  /** Every slot has one owner, and threads own slots of the pool only. */
  ghost predicate Partitioned(s: Pool) {
    && |s.owner| == s.capacity
    && (forall i :: 0 <= i < s.capacity ==> OwnerOk(s, i))
    && (s.allocator.ATaken? || s.allocator.AMarked? ==> s.allocator.head < s.capacity)
    && (forall t :: t in s.freers && !s.freers[t].FPushed? ==> s.freers[t].slot < s.capacity)
  }

  /** What each thread knows about the list. */
  ghost predicate ThreadsOk(s: Pool) {
    && s.freeHead in s.visible
    && (forall v :: v in s.visible ==> v in s.free || v == s.capacity)
    && (s.allocator.ALoaded? ==> s.allocator.head in s.free || s.allocator.head == s.capacity)
    && (s.allocator.ANext? ==>
          s.allocator.head in s.free && s.allocator.head < |s.slots|
          && s.allocator.next == s.slots[s.allocator.head].nextFree)
    && (forall t :: t in s.freers && s.freers[t].FLinked? ==>
          s.freers[t].slot < |s.slots| && s.slots[s.freers[t].slot].nextFree == s.freers[t].head)
    && (forall t :: t in s.freers && !s.freers[t].FPushed? ==>
          s.freers[t].slot < |s.slots| && !s.slots[s.freers[t].slot].inUse)
    && (forall i :: 0 <= i < |s.owner| && s.owner[i].Client? ==> i < |s.slots| && s.slots[i].inUse)
    && (s.allocator.AMarked? ==> s.allocator.head < |s.slots| && s.slots[s.allocator.head].inUse)
  }

  /** Threads that have given their slot back but not yet lowered the count. */
  function Lagging(freers: map<ThreadId, Freer>): set<ThreadId> {
    set t | t in freers && freers[t].FPushed?
  }

  ghost predicate Counted(s: Pool) {
    s.count == s.capacity - |s.free|
                   - (if s.allocator.ATaken? || s.allocator.AMarked? then 1 else 0)
                   + |Lagging(s.freers)|
  }

  ghost predicate PoolInv(s: Pool) {
    && |s.slots| == s.capacity
    && Chain(s.slots, s.freeHead, s.free, s.capacity)
    && Partitioned(s)
    && ThreadsOk(s)
    && Counted(s)
  }

  lemma {:induction false} StartOk(capacity: nat)
    ensures PoolInv(Start(capacity))
  {
    var s := Start(capacity);
    forall i | 0 <= i < |s.free|
      ensures s.slots[s.free[i]].nextFree == ListHead(s.free[i + 1..], capacity)
    {
      if i + 1 < capacity {
        assert s.free[i + 1..][0] == s.free[i + 1] == i + 1;
      } else {
        assert s.free[i + 1..] == [];
      }
    }
    forall i | 0 <= i < capacity
      ensures i in s.free
    {
      assert s.free[i] == i;
    }
    assert Lagging(s.freers) == {};
  }

  // ---------------------------------------------------------------- one step at a time

  lemma {:induction false} LaggingAfter(freers: map<ThreadId, Freer>, t: ThreadId, f: Freer)
    requires t in freers ==> !freers[t].FPushed?
    ensures |Lagging(freers[t := f])| == |Lagging(freers)| + (if f.FPushed? then 1 else 0)
  {
    assert Lagging(freers[t := f]) == Lagging(freers) + (if f.FPushed? then {t} else {});
  }

  lemma {:induction false} LaggingWithout(freers: map<ThreadId, Freer>, t: ThreadId)
    requires t in freers && freers[t].FPushed?
    ensures |Lagging(freers - {t})| == |Lagging(freers)| - 1
  {
    assert Lagging(freers - {t}) == Lagging(freers) - {t};
  }

  /** Changing a slot outside the list does not disturb the list. */
  lemma {:induction false} ChainElsewhere(slots: seq<Slot>, head: nat, free: seq<nat>, capacity: nat, i: nat, x: Slot)
    requires Chain(slots, head, free, capacity) && i < |slots| && i !in free
    ensures Chain(slots[i := x], head, free, capacity)
  {
    forall j | 0 <= j < |free|
      ensures free[j] != i
    {
    }
  }

  lemma {:induction false} ChainPops(slots: seq<Slot>, head: nat, free: seq<nat>, capacity: nat)
    requires Chain(slots, head, free, capacity) && free != []
    ensures Chain(slots, slots[head].nextFree, free[1..], capacity)
    ensures head !in free[1..]
  {
    forall i | 0 <= i < |free[1..]|
      ensures slots[free[1..][i]].nextFree == ListHead(free[1..][i + 1..], capacity)
    {
      assert free[1..][i + 1..] == free[i + 2..];
    }
  }

  lemma {:induction false} ChainPushes(slots: seq<Slot>, head: nat, free: seq<nat>, capacity: nat, i: nat)
    requires Chain(slots, head, free, capacity) && |slots| == capacity && i < capacity && i !in free
    requires slots[i].nextFree == head && !slots[i].inUse
    ensures Chain(slots, i, [i] + free, capacity)
  {
    var r := [i] + free;
    forall j | 0 <= j < |r|
      ensures slots[r[j]].nextFree == ListHead(r[j + 1..], capacity)
    {
      if 0 < j {
        assert r[j + 1..] == free[j..];
      } else {
        assert r[1..] == free;
      }
    }
  }

  lemma {:induction false} AllocReadKeeps(s: Pool, a: PoolStep)
    requires a.AllocLoad? || a.AllocGiveUp? || a.AllocReadNext? || a.AllocCasFail?
    requires PoolInv(s) && Enabled(s, a)
    ensures PoolInv(Next(s, a))
  {
    forall i | 0 <= i < s.capacity
      ensures OwnerOk(Next(s, a), i)
    {
      assert OwnerOk(s, i);
    }
  }

  lemma {:induction false} AllocCasKeeps(s: Pool)
    requires PoolInv(s) && Enabled(s, AllocCas)
    ensures PoolInv(Next(s, AllocCas))
  {
    var s' := Next(s, AllocCas);
    assert s.free != [];
    ChainPops(s.slots, s.freeHead, s.free, s.capacity);
    assert s.free == [s.freeHead] + s'.free;
    assert s'.free != [] ==> s'.free[0] in s'.free;
    assert Partitioned(s') by { AllocCasOwners(s); }
  }

  lemma {:induction false} AllocCasOwners(s: Pool)
    requires Partitioned(s) && Enabled(s, AllocCas) && s.free != [] && s.free[0] == s.allocator.head < s.capacity
    requires s.allocator.head !in s.free[1..]
    ensures Partitioned(Next(s, AllocCas))
  {
    assert s.free == [s.allocator.head] + s.free[1..];
    forall i | 0 <= i < s.capacity
      ensures OwnerOk(Next(s, AllocCas), i)
    {
      assert OwnerOk(s, i);
    }
  }

  lemma {:induction false} AllocMarkKeeps(s: Pool)
    requires PoolInv(s) && Enabled(s, AllocMark)
    ensures PoolInv(Next(s, AllocMark))
  {
    var s', h := Next(s, AllocMark), s.allocator.head;
    assert OwnerOk(s, h);
    ChainElsewhere(s.slots, s.freeHead, s.free, s.capacity, h, s.slots[h].(inUse := true));
    forall i | 0 <= i < s.capacity
      ensures OwnerOk(s', i)
    {
      assert OwnerOk(s, i);
    }
  }

  lemma {:induction false} AllocReturnKeeps(s: Pool)
    requires PoolInv(s) && Enabled(s, AllocReturn)
    ensures PoolInv(Next(s, AllocReturn))
  {
    forall i | 0 <= i < s.capacity
      ensures OwnerOk(Next(s, AllocReturn), i)
    {
      assert OwnerOk(s, i);
    }
  }

  lemma {:induction false} FreeBeginKeeps(s: Pool, t: ThreadId, i: nat)
    requires PoolInv(s) && Enabled(s, FreeBegin(t, i))
    ensures PoolInv(Next(s, FreeBegin(t, i)))
  {
    var s' := Next(s, FreeBegin(t, i));
    assert OwnerOk(s, i);
    ChainElsewhere(s.slots, s.freeHead, s.free, s.capacity, i, s.slots[i].(inUse := false));
    LaggingAfter(s.freers, t, FMarked(i));
    assert Partitioned(s') by { FreeBeginOwners(s, t, i); }
  }

  lemma {:induction false} FreeBeginOwners(s: Pool, t: ThreadId, i: nat)
    requires Partitioned(s) && Enabled(s, FreeBegin(t, i))
    ensures Partitioned(Next(s, FreeBegin(t, i)))
  {
    assert OwnerOk(s, i);
    forall j | 0 <= j < s.capacity
      ensures OwnerOk(Next(s, FreeBegin(t, i)), j)
    {
      assert OwnerOk(s, j);
    }
  }

  /** A load of the head, on its own or by an exchange that fails. */
  lemma {:induction false} FreeLoadKeeps(s: Pool, t: ThreadId, a: PoolStep)
    requires a.FreeLoad? || a.FreeCasFail?
    requires PoolInv(s) && Enabled(s, a) && a.thread == t
    ensures PoolInv(Next(s, a))
  {
    LaggingAfter(s.freers, t, FLoaded(s.freers[t].slot, a.view));
    forall i | 0 <= i < s.capacity
      ensures OwnerOk(Next(s, a), i)
    {
      assert OwnerOk(s, i);
    }
  }

  lemma {:induction false} FreeLinkKeeps(s: Pool, t: ThreadId)
    requires PoolInv(s) && Enabled(s, FreeLink(t))
    ensures PoolInv(Next(s, FreeLink(t)))
  {
    var FLoaded(h, head) := s.freers[t];
    assert OwnerOk(s, h);
    LaggingAfter(s.freers, t, FLinked(h, head));
    ChainElsewhere(s.slots, s.freeHead, s.free, s.capacity, h, s.slots[h].(nextFree := head));
    forall i | 0 <= i < s.capacity
      ensures OwnerOk(Next(s, FreeLink(t)), i)
    {
      assert OwnerOk(s, i);
    }
  }

  lemma {:induction false} FreeCasKeeps(s: Pool, t: ThreadId)
    requires PoolInv(s) && Enabled(s, FreeCas(t))
    ensures PoolInv(Next(s, FreeCas(t)))
  {
    var s', h := Next(s, FreeCas(t)), s.freers[t].slot;
    assert OwnerOk(s, h);
    LaggingAfter(s.freers, t, FPushed);
    ChainPushes(s.slots, s.freeHead, s.free, s.capacity, h);
    assert Partitioned(s') by { FreeCasOwners(s, t); }
    assert ThreadsOk(s') by { FreeCasThreads(s, t); }
  }

  lemma {:induction false} FreeCasOwners(s: Pool, t: ThreadId)
    requires Partitioned(s) && Enabled(s, FreeCas(t))
    ensures Partitioned(Next(s, FreeCas(t)))
  {
    var s', h := Next(s, FreeCas(t)), s.freers[t].slot;
    assert OwnerOk(s, h);
    forall i | 0 <= i < s.capacity
      ensures OwnerOk(s', i)
    {
      assert OwnerOk(s, i);
      assert i in s'.free <==> i == h || i in s.free;
    }
  }

  lemma {:induction false} FreeCasThreads(s: Pool, t: ThreadId)
    requires ThreadsOk(s) && Enabled(s, FreeCas(t))
    requires s.freers[t].slot < |s.owner| == |s.slots| && !s.owner[s.freers[t].slot].Client?
    ensures ThreadsOk(Next(s, FreeCas(t)))
  {
    var s' := Next(s, FreeCas(t));
    assert forall v :: v in s.free ==> v in s'.free;
  }

  lemma {:induction false} FreeReturnKeeps(s: Pool, t: ThreadId)
    requires PoolInv(s) && Enabled(s, FreeReturn(t))
    ensures PoolInv(Next(s, FreeReturn(t)))
  {
    LaggingWithout(s.freers, t);
    forall i | 0 <= i < s.capacity
      ensures OwnerOk(Next(s, FreeReturn(t)), i)
    {
      assert OwnerOk(s, i);
    }
  }

  lemma {:induction false} StepKeepsPool(s: Pool, a: PoolStep)
    requires PoolInv(s) && Enabled(s, a)
    ensures PoolInv(Next(s, a))
  {
    match a
    case AllocLoad(_) => AllocReadKeeps(s, a);
    case AllocGiveUp => AllocReadKeeps(s, a);
    case AllocReadNext => AllocReadKeeps(s, a);
    case AllocCas => AllocCasKeeps(s);
    case AllocCasFail(_) => AllocReadKeeps(s, a);
    case AllocMark => AllocMarkKeeps(s);
    case AllocReturn => AllocReturnKeeps(s);
    case FreeBegin(t, i) => FreeBeginKeeps(s, t, i);
    case FreeLoad(t, _) => FreeLoadKeeps(s, t, a);
    case FreeLink(t) => FreeLinkKeeps(s, t);
    case FreeCas(t) => FreeCasKeeps(s, t);
    case FreeCasFail(t, _) => FreeLoadKeeps(s, t, a);
    case FreeReturn(t) => FreeReturnKeeps(s, t);
  }

  // ---------------------------------------------------------------- all interleavings

  ghost predicate Schedule(s: Pool, steps: seq<PoolStep>)
    decreases |steps|
  {
    steps == [] || (Enabled(s, steps[0]) && Schedule(Next(s, steps[0]), steps[1..]))
  }

  function After(s: Pool, steps: seq<PoolStep>): Pool
    requires Schedule(s, steps)
    decreases |steps|
  {
    if steps == [] then s else After(Next(s, steps[0]), steps[1..])
  }

  lemma {:induction false} ScheduleKeeps(s: Pool, steps: seq<PoolStep>)
    requires PoolInv(s) && Schedule(s, steps)
    ensures PoolInv(After(s, steps)) && After(s, steps).capacity == s.capacity
    decreases |steps|
  {
    if steps != [] {
      StepKeepsPool(s, steps[0]);
      ScheduleKeeps(Next(s, steps[0]), steps[1..]);
    }
  }

  /** In every interleaving, with failing and spuriously failing exchanges: the free list is
      an acyclic duplicate-free chain, every slot has one owner, and the slot the allocating
      thread is about to hand out is not on the list, not with a client, and not in transit
      with any freeing thread. */
  lemma {:induction false} EveryInterleaving(capacity: nat, steps: seq<PoolStep>)
    requires Schedule(Start(capacity), steps)
    ensures var s := After(Start(capacity), steps);
            && Chain(s.slots, s.freeHead, s.free, capacity)
            && Partitioned(s) && s.capacity == capacity
            && (s.allocator.AMarked? ==>
                  s.allocator.head < capacity && !s.owner[s.allocator.head].Client?
                  && s.allocator.head !in s.free && NoFreer(s, s.allocator.head))
  {
    StartOk(capacity);
    ScheduleKeeps(Start(capacity), steps);
    var s := After(Start(capacity), steps);
    if s.allocator.AMarked? {
      assert OwnerOk(s, s.allocator.head);
    }
  }

  /** A slot given back is one the client was handed, marked in use: the double-free check
      never fires for clients that free what they hold. */
  lemma {:induction false} FreedSlotsAreInUse(capacity: nat, steps: seq<PoolStep>, t: ThreadId, i: nat)
    requires Schedule(Start(capacity), steps) && Enabled(After(Start(capacity), steps), FreeBegin(t, i))
    ensures i < capacity && After(Start(capacity), steps).slots[i].inUse
  {
    StartOk(capacity);
    ScheduleKeeps(Start(capacity), steps);
  }

  // ---------------------------------------------------------------- giving up

  /** The allocating thread has seen, or may still see, the end of the list. */
  predicate EndInSight(s: Pool) {
    s.capacity in s.visible || (s.allocator.ALoaded? && s.allocator.head == s.capacity)
  }

  lemma {:induction false} HeadIsEnd(s: Pool)
    requires Chain(s.slots, s.freeHead, s.free, s.capacity)
    ensures s.freeHead == s.capacity <==> s.free == []
  {
    assert s.free != [] ==> s.free[0] < s.capacity;
  }

  /** The end of the list comes in sight only when an exchange takes the last slot. */
  lemma {:induction false} EndComesInSight(s: Pool, a: PoolStep)
    requires PoolInv(s) && Enabled(s, a) && EndInSight(Next(s, a))
    ensures if a.AllocCas? then Next(s, a).free == [] else EndInSight(s)
  {
    if a.AllocCas? {
      StepKeepsPool(s, a);
      HeadIsEnd(Next(s, a));
    }
  }

  lemma {:induction false} SchedulePrefix(s: Pool, steps: seq<PoolStep>, k: nat)
    requires Schedule(s, steps) && k <= |steps|
    ensures Schedule(s, steps[..k])
    decreases |steps|
  {
    if 0 < k {
      assert steps[..k][1..] == steps[1..][..k - 1];
      SchedulePrefix(Next(s, steps[0]), steps[1..], k - 1);
    }
  }

  /** Moment `k` of a schedule: the list is empty, and no exchange of the allocating thread
      succeeds from there on. */
  ghost predicate EmptySince(s: Pool, steps: seq<PoolStep>, k: nat)
    requires Schedule(s, steps) && k <= |steps|
  {
    SchedulePrefix(s, steps, k);
    After(s, steps[..k]).free == [] && forall j :: k <= j < |steps| ==> !steps[j].AllocCas?
  }

  ghost predicate NeverTakes(steps: seq<PoolStep>) {
    forall j :: 0 <= j < |steps| ==> !steps[j].AllocCas?
  }

  lemma {:induction false} EmptyNow(s: Pool, steps: seq<PoolStep>)
    requires Schedule(s, steps) && s.free == [] && NeverTakes(steps)
    ensures EmptySince(s, steps, 0)
  {
    assert steps[..0] == [];
  }

  lemma {:induction false} EmptySinceLater(s: Pool, steps: seq<PoolStep>, k: nat)
    requires steps != [] && Schedule(s, steps) && k < |steps|
    requires EmptySince(Next(s, steps[0]), steps[1..], k)
    ensures EmptySince(s, steps, k + 1)
  {
    SchedulePrefix(s, steps, k + 1);
    assert steps[..k + 1][1..] == steps[1..][..k];
    forall j | k + 1 <= j < |steps|
      ensures !steps[j].AllocCas?
    {
      assert steps[j] == steps[1..][j - 1];
    }
  }

  lemma {:induction false} EndWasReached(s: Pool, steps: seq<PoolStep>) returns (k: nat)
    requires PoolInv(s) && Schedule(s, steps) && EndInSight(After(s, steps))
    ensures k <= |steps|
    ensures EmptySince(s, steps, k) || (k == 0 && EndInSight(s) && NeverTakes(steps))
    decreases |steps|
  {
    hide PoolInv;
    hide Enabled;
    hide Next;
    hide EndInSight;
    hide EmptySince;
    k := 0;
    if steps != [] {
      var s1 := Next(s, steps[0]);
      StepKeepsPool(s, steps[0]);
      k := EndWasReached(s1, steps[1..]);
      if EmptySince(s1, steps[1..], k) {
        EmptySinceLater(s, steps, k);
        k := k + 1;
      } else {
        EndComesInSight(s, steps[0]);
        if steps[0].AllocCas? {
          EmptyNow(s1, steps[1..]);
        }
        assert forall j :: 1 <= j < |steps| ==> steps[j] == steps[1..][j - 1];
      }
    }
  }

  /** An allocation that gives up is justified: at some moment since the allocating thread's
      last successful exchange, or since the start, the free list was empty. */
  lemma {:induction false} GivingUpIsJustified(capacity: nat, steps: seq<PoolStep>) returns (k: nat)
    requires Schedule(Start(capacity), steps) && Enabled(After(Start(capacity), steps), AllocGiveUp)
    ensures k <= |steps| && EmptySince(Start(capacity), steps, k)
  {
    var s := Start(capacity);
    StartOk(capacity);
    ScheduleKeeps(s, steps);
    k := EndWasReached(s, steps);
    if s.free == [] && NeverTakes(steps) {
      EmptyNow(s, steps);
    }
  }

  // ---------------------------------------------------------------- accounting

  ghost predicate Quiet(s: Pool) {
    s.allocator.AIdle? && s.freers == map[]
  }

  function Clients(s: Pool): set<nat> {
    set i: nat | i < |s.owner| && s.owner[i].Client?
  }

  /** With no call in flight, the count is the number of slots handed out, and together with
      the length of the free list it accounts for the whole capacity. */
  lemma {:induction false} QuietAccounts(s: Pool)
    requires PoolInv(s) && Quiet(s)
    ensures s.count + |s.free| == s.capacity
    ensures s.count == |Clients(s)|
  {
    assert Lagging(s.freers) == {};
    var listed := Elements(s.free);
    RangeIs(s.capacity);
    forall i: nat
      ensures i in Range(s.capacity) <==> i in listed || i in Clients(s)
      ensures !(i in listed && i in Clients(s))
    {
      if i < s.capacity {
        assert OwnerOk(s, i);
      }
    }
    assert Range(s.capacity) == listed + Clients(s);
    assert listed !! Clients(s);
  }

  function Range(n: nat): set<nat> {
    if n == 0 then {} else Range(n - 1) + {n - 1}
  }

  lemma {:induction false} RangeIs(n: nat)
    ensures forall i: nat :: i in Range(n) <==> i < n
    ensures |Range(n)| == n
  {
    if 0 < n {
      RangeIs(n - 1);
    }
  }

  function Elements(free: seq<nat>): (r: set<nat>)
    ensures forall i :: i in r <==> i in free
    ensures (forall i, j :: 0 <= i < j < |free| ==> free[i] != free[j]) ==> |r| == |free|
  {
    if free == [] then {}
    else
      assert free == [free[0]] + free[1..];
      {free[0]} + Elements(free[1..])
  }

  // ---------------------------------------------------------------- uninterrupted calls

  /** An allocation that nobody interrupts takes the head of the list. */
  lemma {:induction false} AllocateAlone(s: Pool) returns (s': Pool)
    requires PoolInv(s) && Quiet(s) && s.free != []
    ensures s.freeHead < s.capacity && OwnerOk(s, s.freeHead) && s.owner[s.freeHead].Listed?
    ensures var h := s.freeHead;
            s' == s.(slots := s.slots[h := s.slots[h].(inUse := true)], freeHead := s.slots[h].nextFree,
                     count := s.count + 1, owner := s.owner[h := Client], free := s.free[1..],
                     visible := {s.slots[h].nextFree})
    ensures PoolInv(s')
  {
    var h := s.freeHead;
    assert OwnerOk(s, h);
    var s1 := Next(s, AllocLoad(h));
    var s2 := Next(s1, AllocReadNext);
    var s3 := Next(s2, AllocCas);
    var s4 := Next(s3, AllocMark);
    s' := Next(s4, AllocReturn);
    assert s.owner[h := Allocating][h := Client] == s.owner[h := Client];
    FiveSteps(s, AllocLoad(h), AllocReadNext, AllocCas, AllocMark, AllocReturn);
  }

  lemma {:induction false} FiveSteps(s: Pool, a: PoolStep, b: PoolStep, c: PoolStep, d: PoolStep, e: PoolStep)
    requires PoolInv(s)
    requires Enabled(s, a) && Enabled(Next(s, a), b) && Enabled(Next(Next(s, a), b), c)
    requires Enabled(Next(Next(Next(s, a), b), c), d) && Enabled(Next(Next(Next(Next(s, a), b), c), d), e)
    ensures PoolInv(Next(Next(Next(Next(Next(s, a), b), c), d), e))
  {
    StepKeepsPool(s, a);
    StepKeepsPool(Next(s, a), b);
    StepKeepsPool(Next(Next(s, a), b), c);
    StepKeepsPool(Next(Next(Next(s, a), b), c), d);
    StepKeepsPool(Next(Next(Next(Next(s, a), b), c), d), e);
  }

  /** A deallocation that nobody interrupts puts the slot at the head of the list. */
  lemma {:induction false} DeallocateAlone(s: Pool, i: nat) returns (s': Pool)
    requires PoolInv(s) && Quiet(s) && i < s.capacity && s.owner[i].Client?
    ensures s' == s.(slots := s.slots[i := Slot(s.freeHead, false)], freeHead := i,
                     count := s.count - 1, owner := s.owner[i := Listed], free := [i] + s.free,
                     visible := s.visible + {i})
    ensures PoolInv(s')
  {
    s' := s.(slots := s.slots[i := Slot(s.freeHead, false)], freeHead := i,
             count := s.count - 1, owner := s.owner[i := Listed], free := [i] + s.free,
             visible := s.visible + {i});
    DeallocateSteps(s, i, s');
    FiveSteps(s, FreeBegin(0, i), FreeLoad(0, s.freeHead), FreeLink(0), FreeCas(0), FreeReturn(0));
  }

  lemma {:induction false} DeallocateSteps(s: Pool, i: nat, s': Pool)
    requires Quiet(s) && i < |s.slots| == |s.owner| && s.owner[i].Client?
    requires s' == s.(slots := s.slots[i := Slot(s.freeHead, false)], freeHead := i,
                      count := s.count - 1, owner := s.owner[i := Listed], free := [i] + s.free,
                      visible := s.visible + {i})
    ensures var a, b, c, d, e := FreeBegin(0, i), FreeLoad(0, s.freeHead), FreeLink(0), FreeCas(0), FreeReturn(0);
            && Enabled(s, a) && Enabled(Next(s, a), b) && Enabled(Next(Next(s, a), b), c)
            && Enabled(Next(Next(Next(s, a), b), c), d) && Enabled(Next(Next(Next(Next(s, a), b), c), d), e)
            && Next(Next(Next(Next(Next(s, a), b), c), d), e) == s'
  {
    NobodyLeft(s.freers, FMarked(i), FLoaded(i, s.freeHead), FLinked(i, s.freeHead));
    GivenTwice(s.owner, i, Freeing(0), Listed);
    GivenTwice(s.slots, i, s.slots[i].(inUse := false), Slot(s.freeHead, false));
  }

  lemma {:induction false} NobodyLeft(freers: map<ThreadId, Freer>, a: Freer, b: Freer, c: Freer)
    requires freers == map[]
    ensures freers[0 := a][0 := b][0 := c][0 := FPushed] - {0} == map[]
  {
  }

  lemma {:induction false} GivenTwice<T>(s: seq<T>, i: nat, x: T, y: T)
    requires i < |s|
    ensures s[i := x][i := y] == s[i := y]
  {
  }

  // ---------------------------------------------------------------- the object

  class MemoryPool {
    const capacity: nat
    const nextFree: array<nat>
    const inUse: array<bool>
    var freeHead: nat
    var count: int
    /** The state of the protocol between calls. */
    ghost var pool: Pool

    ghost predicate Valid()
      reads this, nextFree, inUse
    {
      && PoolInv(pool)
      && Quiet(pool)
      && pool.capacity == capacity == nextFree.Length == inUse.Length
      && (forall i :: 0 <= i < capacity ==> pool.slots[i] == Slot(nextFree[i], inUse[i]))
      && pool.freeHead == freeHead
      && pool.count == count
    }

    /** Threads the free list through all slots. */
    constructor (capacity: nat)
      ensures Valid() && fresh(nextFree) && fresh(inUse) && this.capacity == capacity
      ensures pool == Start(capacity) && count == 0
    {
      this.capacity := capacity;
      nextFree := new nat[capacity];
      inUse := new bool[capacity];
      new;
      var i: nat := 0;
      while i < capacity
        invariant i <= capacity == nextFree.Length == inUse.Length == this.capacity
        invariant forall j :: 0 <= j < i ==> nextFree[j] == j + 1 && !inUse[j]
      {
        nextFree[i] := i + 1;
        inUse[i] := false;
        i := i + 1;
      }
      freeHead := 0;
      count := 0;
      pool := Start(capacity);
      StartOk(capacity);
    }

    /** Hands out the slot at the head of the free list; fails exactly when it is empty. */
    method Allocate() returns (slot: Option<nat>)
      requires Valid()
      modifies this`freeHead, this`count, this`pool, inUse
      ensures Valid()
      ensures match slot
              case None => old(pool.free) == [] && pool.owner == old(pool.owner) && pool.free == []
              case Some(i) =>
                && i < capacity && !old(pool.owner[i].Client?) && pool.owner == old(pool.owner)[i := Client]
                && old(pool.free) == [i] + pool.free
                && inUse[i]
    {
      hide Partitioned;
      hide ThreadsOk;
      hide Counted;
      if freeHead >= capacity {
        return None;
      }
      ghost var next := AllocateAlone(pool);
      var head := freeHead;
      assert pool.free == [head] + pool.free[1..];
      freeHead := nextFree[head];
      inUse[head] := true;
      count := count + 1;
      pool := next;
      slot := Some(head);
    }

    /** Puts a slot a client holds back at the head of the free list. */
    method Deallocate(slot: nat)
      requires Valid() && slot < capacity && pool.owner[slot].Client?
      modifies this`freeHead, this`count, this`pool, nextFree, inUse
      ensures Valid()
      ensures pool.owner == old(pool.owner)[slot := Listed]
      ensures pool.free == [slot] + old(pool.free)
      ensures count == old(count) - 1 && freeHead == slot && !inUse[slot]
    {
      hide Partitioned;
      hide ThreadsOk;
      hide Counted;
      hide Chain;
      ghost var next := DeallocateAlone(pool, slot);
      inUse[slot] := false;
      nextFree[slot] := freeHead;
      freeHead := slot;
      count := count - 1;
      pool := next;
    }

    /** How many slots are handed out, and how many can be. */
    method Available() returns (used: int, free: int)
      requires Valid()
      ensures used == |Clients(pool)| && free == |pool.free|
    {
      QuietAccounts(pool);
      used, free := count, capacity - count;
    }
  }
}
