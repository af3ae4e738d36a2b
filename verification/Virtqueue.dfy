/** The split virtqueue: free list, available ring and used ring, driven together with a conforming
    device (section 2.4 of Virtual I/O Device Version 1.0).

    `Vq` is the queue as a value. Its first fields are the shared memory and the driver's own; then
    the device's private index; the rest records who has each descriptor and what happened so far. */
module Virtqueues {
  import opened Bits
  import opened Rings

  const VIRTQ_DESC_F_WRITE: nat := 2

  datatype Option<T> = None | Some(value: T)

  datatype Desc = Desc(addr: nat, len: nat, flags: nat, next: nat)
  datatype UsedElem = UsedElem(id: nat, len: nat)

  datatype Vq = Vq(
    descs: seq<Desc>, avail: seq<nat>, availIdx: nat, used: seq<UsedElem>, usedIdx: nat,
    freeHead: nat, numFree: nat, lastUsedIdx: nat,
    devAvail: nat,
    free: seq<nat>, offered: seq<nat>, device: multiset<nat>, returned: seq<UsedElem>,
    added: seq<nat>, polled: seq<UsedElem>)
  {
    function Size(): nat { |descs| }
  }

  // ---- Counters and slots ----

  /** A 16-bit counter that has been incremented `n` times. */
  function U16(n: nat): nat {
    n % 65536
  }

  /** Counting in 16 bits finds the right slot, across wrap-around, exactly when the size divides 65536. */
  lemma WrapKeepsSlotsIff(size: nat)
    requires size > 0
    ensures (forall n: nat :: Slot(U16(n), size) == Slot(n, size)) <==> 65536 % size == 0
  {
    if 65536 % size == 0 {
      forall n: nat
        ensures Slot(U16(n), size) == Slot(n, size)
      {
        WrappedSlot(n, size);
      }
    } else {
      assert Slot(U16(65536), size) == 0 by {
        assert U16(65536) == 0;
      }
      assert Slot(65536, size) != 0;
    }
  }

  lemma WrappedSlot(n: nat, size: nat)
    requires size > 0 && 65536 % size == 0
    ensures Slot(U16(n), size) == Slot(n, size)
  {
    var k := 65536 / size;
    assert 65536 == k * size;
    var q, r := n / 65536, n % 65536;
    var q', r' := r / size, r % size;
    assert r == q' * size + r';
    assert q * (k * size) == (q * k) * size;
    assert n == (q * k + q') * size + r' by {
      assert (q * k + q') * size == (q * k) * size + q' * size;
    }
    DivModUnique(n, size, q * k + q', r');
  }

  /** The sizes for which the protocol works are exactly the powers of two up to 32768. */
  lemma PowersDivide(size: nat)
    ensures SizeOk(size) <==> exists k: nat :: k <= 15 && size == Pow2(k)
  {
    assert Pow2(8) == 256 && Pow2(15) == 32768 && Pow2(16) == 65536 by {
      assert Pow2(12) == 4096;
    }
    if SizeOk(size) {
      var k := DivisorOfPow2(size, 16);
    }
    if k: nat :| k <= 15 && size == Pow2(k) {
      Pow2Mono(k, 15);
      Pow2Add(16 - k, k);
      DivModUnique(65536, Pow2(k), Pow2(16 - k), 0);
    }
  }

  lemma {:induction false} DivisorOfPow2(m: nat, n: nat) returns (k: nat)
    requires m > 0 && Pow2(n) % m == 0
    ensures k <= n && m == Pow2(k)
  {
    var q := Pow2(n) / m;
    assert Pow2(n) == m * q;
    if n == 0 {
      k := 0;
      assert m == 1 by {
        if m > 1 {
          DivModUnique(1, m, 0, 1);
        }
      }
    } else if m % 2 == 0 {
      Doubled(m / 2, q);
      DivModUnique(Pow2(n - 1), m / 2, q, 0);
      k := DivisorOfPow2(m / 2, n - 1);
      k := k + 1;
    } else {
      OddTimes(m, q);
      DivModUnique(Pow2(n - 1), m, q / 2, 0);
      k := DivisorOfPow2(m, n - 1);
    }
  }

  lemma Doubled(h: nat, q: nat)
    ensures (2 * h) * q == 2 * (q * h)
  {
  }

  /** An even multiple of an odd number is an even number of times that number. */
  lemma OddTimes(m: nat, q: nat)
    requires m % 2 == 1 && (m * q) % 2 == 0
    ensures q % 2 == 0 && m * q == 2 * ((q / 2) * m)
  {
    var h := m / 2;
    assert m == 2 * h + 1;
    Doubled(h, q);
    assert m * q == (2 * h) * q + q;
    assert m * (2 * (q / 2)) == 2 * ((q / 2) * m);
  }

  // ---- The invariant ----

  function Ids(s: seq<UsedElem>): (ids: seq<nat>)
    ensures |ids| == |s| && forall i :: 0 <= i < |s| ==> ids[i] == s[i].id
  {
    seq(|s|, i requires 0 <= i < |s| => s[i].id)
  }

  ghost predicate SizeOk(size: nat) {
    0 < size <= 32768 && 65536 % size == 0
  }

  /** The free list is threaded through `next`; the last link does not matter. */
  ghost predicate FreeListOk(q: Vq) {
    && q.numFree == |q.free| && (q.free != [] ==> q.freeHead == q.free[0])
    && (forall i :: 0 <= i < |q.free| ==> q.free[i] < q.Size())
    && forall i :: 0 <= i < |q.free| - 1 ==> q.descs[q.free[i]].next == q.free[i + 1]
  }

  /** How many buffers the device has taken. */
  function Taken(q: Vq): int {
    |q.added| - |q.offered|
  }

  ghost predicate CountersOk(q: Vq) {
    && Taken(q) >= 0
    && q.availIdx == U16(|q.added|) && q.devAvail == U16(Taken(q))
    && q.lastUsedIdx == U16(|q.polled|) && q.usedIdx == U16(|q.polled| + |q.returned|)
  }

  /** The rings hold, in order, what has been offered and not taken, and what has been returned and not polled. */
  ghost predicate RingsOk(q: Vq) {
    && q.Size() > 0 && |q.avail| == |q.used| == q.Size() && Taken(q) >= 0
    && RingHolds(q.avail, Taken(q), q.offered) && RingHolds(q.used, |q.polled|, q.returned)
  }

  /** Every descriptor is in exactly one place. */
  ghost predicate Partition(q: Vq) {
    multiset(q.free) + multiset(q.offered) + q.device + multiset(Ids(q.returned)) == multiset(seq(q.Size(), i => i))
  }

  /** Buffers reach the device in the order they were added, and each added one is offered, with the
      device, returned, or polled, as often as it was added. */
  ghost predicate HistoryOk(q: Vq) {
    && Taken(q) >= 0 && q.offered == q.added[Taken(q)..]
    && multiset(q.added) == multiset(q.offered) + q.device + multiset(Ids(q.returned)) + multiset(Ids(q.polled))
  }

  ghost predicate Inv(q: Vq) {
    SizeOk(q.Size()) && FreeListOk(q) && CountersOk(q) && RingsOk(q) && Partition(q) && HistoryOk(q)
  }

  // ---- Steps of the driver ----

  /** `add_buf` when a descriptor is free. */
  function Added(q: Vq, addr: nat, len: nat, writable: bool): Vq
    requires q.free != [] && q.freeHead < q.Size() && 0 < q.Size() == |q.avail| && q.numFree > 0
  {
    var idx := q.freeHead;
    q.(descs := q.descs[idx := Desc(addr, len, if writable then VIRTQ_DESC_F_WRITE else 0, 0)],
       avail := q.avail[q.availIdx % q.Size() := idx], availIdx := U16(q.availIdx + 1),
       freeHead := q.descs[idx].next, numFree := q.numFree - 1,
       free := q.free[1..], offered := q.offered + [idx], added := q.added + [idx])
  }

  /** `poll_used` when the device has returned something. */
  function Polled(q: Vq): Vq
    requires q.returned != [] && 0 < q.Size() == |q.used| && q.used[q.lastUsedIdx % q.Size()].id < q.Size()
  {
    var entry := q.used[q.lastUsedIdx % q.Size()];
    q.(descs := q.descs[entry.id := q.descs[entry.id].(next := q.freeHead)],
       lastUsedIdx := U16(q.lastUsedIdx + 1), freeHead := entry.id, numFree := q.numFree + 1,
       free := [entry.id] + q.free, returned := q.returned[1..], polled := q.polled + [q.returned[0]])
  }

  // ---- Steps of a conforming device ----

  /** Take the next offered buffer, found through the available ring. */
  ghost predicate TakeStep(q: Vq, q': Vq) {
    && q.devAvail != q.availIdx && q.Size() > 0 && |q.avail| == q.Size() && q.offered != []
    && q' == q.(devAvail := U16(q.devAvail + 1), offered := q.offered[1..],
                device := q.device + multiset{q.avail[q.devAvail % q.Size()]})
  }

  /** Return a buffer it holds, in any order. */
  ghost predicate ReturnStep(q: Vq, q': Vq, e: UsedElem) {
    && e.id in q.device && q.Size() > 0 && |q.used| == q.Size()
    && q' == q.(used := q.used[q.usedIdx % q.Size() := e], usedIdx := U16(q.usedIdx + 1),
                device := q.device - multiset{e.id}, returned := q.returned + [e])
  }

  // ---- What every step keeps ----

  lemma U16Next(n: nat)
    ensures U16(U16(n) + 1) == U16(n + 1)
  {
  }

  /** The number of descriptors in each place. */
  lemma PlacesAddUp(q: Vq)
    requires Inv(q)
    ensures |q.free| + |q.offered| + |q.device| + |q.returned| == q.Size()
    ensures forall x :: x in q.free || x in q.offered || x in q.device || x in Ids(q.returned) ==> x < q.Size()
  {
    var all := multiset(seq(q.Size(), i => i));
    assert |all| == q.Size();
    assert |multiset(Ids(q.returned))| == |q.returned|;
    forall x | x in q.free || x in q.offered || x in q.device || x in Ids(q.returned)
      ensures x < q.Size()
    {
      assert x in multiset(q.free) + multiset(q.offered) + q.device + multiset(Ids(q.returned));
      assert x in seq(q.Size(), i => i);
    }
  }

  /** The free list has `numFree` entries, so it is empty exactly when the counter is 0; its head is a descriptor. */
  lemma FreeHeadOk(q: Vq)
    requires Inv(q) && q.numFree > 0
    ensures q.free != [] && q.freeHead == q.free[0] < q.Size() && |q.offered| < q.Size()
  {
    PlacesAddUp(q);
  }

  lemma AddKeepsInv(q: Vq, addr: nat, len: nat, writable: bool)
    requires Inv(q) && q.numFree > 0
    ensures q.free != [] && q.freeHead < q.Size() && Inv(Added(q, addr, len, writable))
  {
    FreeHeadOk(q);
    AddFreeList(q, addr, len, writable);
    AddCounters(q, addr, len, writable);
    AddPartition(q, addr, len, writable);
  }

  lemma AddCounters(q: Vq, addr: nat, len: nat, writable: bool)
    requires Inv(q) && q.free != [] && q.freeHead == q.free[0] < q.Size() && |q.offered| < q.Size()
    ensures CountersOk(Added(q, addr, len, writable)) && RingsOk(Added(q, addr, len, writable))
  {
    hide Slot, U16, RingHolds, FreeListOk, Partition, HistoryOk;
    U16Next(|q.added|);
    WrappedSlot(|q.added|, q.Size());
    IsSlot(q.availIdx, q.Size());
    RingPush(q.avail, Taken(q), q.offered, q.freeHead);
  }

  /** No descriptor is twice in the free list. */
  lemma FreeDistinct(q: Vq)
    requires Partition(q)
    ensures forall i, j :: 0 <= i < j < |q.free| ==> q.free[i] != q.free[j]
    ensures forall i :: 0 <= i < |q.free| ==> q.free[i] !in q.device && q.free[i] !in q.offered && q.free[i] !in Ids(q.returned)
  {
    var all := seq(q.Size(), i => i);
    forall i, j | 0 <= i < j < |q.free|
      ensures q.free[i] != q.free[j]
    {
      if q.free[i] == q.free[j] {
        TwiceInSeq(q.free, i, j);
        OnceInIndices(q.Size(), q.free[i]);
      }
    }
    forall i | 0 <= i < |q.free|
      ensures q.free[i] !in q.device && q.free[i] !in q.offered && q.free[i] !in Ids(q.returned)
    {
      OnceInIndices(q.Size(), q.free[i]);
      assert q.free[i] in multiset(q.free);
    }
  }

  lemma TwiceInSeq(s: seq<nat>, i: nat, j: nat)
    requires i < j < |s| && s[i] == s[j]
    ensures multiset(s)[s[i]] >= 2
  {
    assert s == s[..j] + [s[j]] + s[j + 1..];
    assert s[i] in s[..j];
    assert s[i] in multiset(s[..j]);
  }

  lemma {:induction false} OnceInIndices(n: nat, x: nat)
    ensures multiset(seq(n, i => i))[x] <= 1
  {
    if n > 0 {
      OnceInIndices(n - 1, x);
      assert seq(n, i => i) == seq(n - 1, i => i) + [n - 1];
      if x == n - 1 {
        assert n - 1 !in seq(n - 1, i => i);
      }
    }
  }

  lemma AddFreeList(q: Vq, addr: nat, len: nat, writable: bool)
    requires Inv(q) && q.free != [] && q.freeHead == q.free[0] < q.Size()
    ensures FreeListOk(Added(q, addr, len, writable))
  {
    FreeDistinct(q);
  }

  lemma AddPartition(q: Vq, addr: nat, len: nat, writable: bool)
    requires Inv(q) && q.free != [] && q.freeHead == q.free[0] < q.Size()
    ensures Partition(Added(q, addr, len, writable)) && HistoryOk(Added(q, addr, len, writable))
  {
    hide Ids, FreeListOk, RingsOk, CountersOk, SizeOk;
    HeadOut(q.free);
    LastIn(q.offered, q.freeHead);
    LastIn(q.added, q.freeHead);
  }

  lemma TakeKeepsInv(q: Vq, q': Vq)
    requires Inv(q) && TakeStep(q, q')
    ensures Inv(q') && q.avail[q.devAvail % q.Size()] == q.offered[0]
  {
    TakeCounters(q, q');
    TakePartition(q, q');
    assert FreeListOk(q');
  }

  lemma TakeCounters(q: Vq, q': Vq)
    requires Inv(q) && TakeStep(q, q')
    ensures CountersOk(q') && RingsOk(q') && q.avail[q.devAvail % q.Size()] == q.offered[0]
  {
    hide Slot, U16, RingHolds, FreeListOk, Partition, HistoryOk;
    U16Next(Taken(q));
    WrappedSlot(Taken(q), q.Size());
    IsSlot(q.devAvail, q.Size());
    RingPop(q.avail, Taken(q), q.offered);
  }

  lemma TakePartition(q: Vq, q': Vq)
    requires Inv(q) && TakeStep(q, q') && q.avail[q.devAvail % q.Size()] == q.offered[0]
    ensures Partition(q') && HistoryOk(q')
  {
    hide Ids, FreeListOk, RingsOk, CountersOk, SizeOk;
    HeadOut(q.offered);
  }

  lemma ReturnKeepsInv(q: Vq, q': Vq, e: UsedElem)
    requires Inv(q) && ReturnStep(q, q', e)
    ensures Inv(q')
  {
    ReturnCounters(q, q', e);
    ReturnPartition(q, q', e);
    assert FreeListOk(q');
  }

  lemma ReturnCounters(q: Vq, q': Vq, e: UsedElem)
    requires Inv(q) && ReturnStep(q, q', e)
    ensures CountersOk(q') && RingsOk(q')
  {
    hide Slot, U16, RingHolds, FreeListOk, HistoryOk;
    PlacesAddUp(q);
    assert |q.device| > 0;
    U16Next(|q.polled| + |q.returned|);
    WrappedSlot(|q.polled| + |q.returned|, q.Size());
    IsSlot(q.usedIdx, q.Size());
    RingPush(q.used, |q.polled|, q.returned, e);
  }

  lemma ReturnPartition(q: Vq, q': Vq, e: UsedElem)
    requires Inv(q) && ReturnStep(q, q', e)
    ensures Partition(q') && HistoryOk(q')
  {
    hide FreeListOk, RingsOk, CountersOk, SizeOk, Slot, U16;
    assert Ids(q'.returned) == Ids(q.returned) + [e.id];
    hide Ids;
    MovedOne(multiset(q.offered), multiset(Ids(q.polled)), q.device, Ids(q.returned), e.id);
    MovedOne(multiset(q.free) + multiset(q.offered), multiset{}, q.device, Ids(q.returned), e.id);
  }

  /** One element goes from a multiset to the end of a sequence. */
  lemma MovedOne(a: multiset<nat>, b: multiset<nat>, device: multiset<nat>, ids: seq<nat>, id: nat)
    requires id in device
    ensures a + (device - multiset{id}) + multiset(ids + [id]) + b == a + device + multiset(ids) + b
  {
  }

  /** The driver sees a returned buffer exactly when there is one: the 16-bit indices differ. */
  lemma PollSeesIff(q: Vq)
    requires Inv(q)
    ensures q.lastUsedIdx != q.usedIdx <==> q.returned != []
    ensures q.returned != [] ==> q.used[q.lastUsedIdx % q.Size()] == q.returned[0] && q.returned[0].id < q.Size()
  {
    PlacesAddUp(q);
    FewInFlight(|q.polled|, |q.returned|);
    hide U16, Slot, RingHolds, Partition, HistoryOk, FreeListOk;
    if q.returned != [] {
      WrappedSlot(|q.polled|, q.Size());
      IsSlot(q.lastUsedIdx, q.Size());
      RingPop(q.used, |q.polled|, q.returned);
      assert Ids(q.returned)[0] in Ids(q.returned);
    }
  }

  /** The device, too, sees an offered buffer exactly when there is one. */
  lemma DeviceSeesIff(q: Vq)
    requires Inv(q)
    ensures q.devAvail != q.availIdx <==> q.offered != []
  {
    PlacesAddUp(q);
    FewInFlight(Taken(q), |q.offered|);
  }

  /** Sixteen bits tell apart counts that differ by less than 65536. */
  lemma FewInFlight(n: nat, ahead: nat)
    requires ahead < 65536
    ensures U16(n) == U16(n + ahead) <==> ahead == 0
  {
  }

  lemma PollKeepsInv(q: Vq)
    requires Inv(q) && q.returned != []
    ensures q.used[q.lastUsedIdx % q.Size()] == q.returned[0] && q.returned[0].id < q.Size() && Inv(Polled(q))
  {
    PollSeesIff(q);
    PollFreeList(q);
    PollCounters(q);
    PollPartition(q);
  }

  lemma PollCounters(q: Vq)
    requires Inv(q) && q.returned != [] && q.used[q.lastUsedIdx % q.Size()] == q.returned[0] && q.returned[0].id < q.Size()
    ensures CountersOk(Polled(q)) && RingsOk(Polled(q))
  {
    hide Slot, U16, RingHolds, FreeListOk, Partition, HistoryOk;
    U16Next(|q.polled|);
    RingPop(q.used, |q.polled|, q.returned);
  }

  lemma PollFreeList(q: Vq)
    requires Inv(q) && q.returned != [] && q.used[q.lastUsedIdx % q.Size()] == q.returned[0] && q.returned[0].id < q.Size()
    ensures FreeListOk(Polled(q))
  {
    FreeDistinct(q);
    assert q.returned[0].id == Ids(q.returned)[0];
    assert q.returned[0].id !in q.free;
  }

  lemma PollPartition(q: Vq)
    requires Inv(q) && q.returned != [] && q.used[q.lastUsedIdx % q.Size()] == q.returned[0] && q.returned[0].id < q.Size()
    ensures Partition(Polled(q)) && HistoryOk(Polled(q))
  {
    SizePositive(q);
    hide FreeListOk, RingsOk, CountersOk, SizeOk;
    var q' := Polled(q);
    var id := q.returned[0].id;
    assert Ids(q.returned) == [id] + Ids(q'.returned);
    assert Ids(q'.polled) == Ids(q.polled) + [id];
    assert [id] + q.free == q'.free;
    hide Ids;
    LastIn(Ids(q.polled), id);
  }

  // ---- Runs ----

  datatype QueueEvent =
    | Add(addr: nat, len: nat, writable: bool, got: Option<nat>)
    | Poll(seen: Option<UsedElem>)
    | DeviceTakes
    | DeviceReturns(e: UsedElem)

  ghost predicate QueueStep(q: Vq, e: QueueEvent, q': Vq) {
    match e
    case Add(addr, len, writable, got) =>
      if q.numFree == 0 then q' == q && got == None
      else
        && q.free != [] && q.freeHead < q.Size() && 0 < q.Size() == |q.avail|
        && q' == Added(q, addr, len, writable) && got == Some(q.freeHead)
    case Poll(seen) =>
      if q.lastUsedIdx == q.usedIdx then q' == q && seen == None
      else
        && q.returned != [] && 0 < q.Size() == |q.used| && q.used[q.lastUsedIdx % q.Size()].id < q.Size()
        && q' == Polled(q) && seen == Some(q.used[q.lastUsedIdx % q.Size()])
    case DeviceTakes => TakeStep(q, q')
    case DeviceReturns(u) => ReturnStep(q, q', u)
  }

  lemma StepKeepsQueue(q: Vq, e: QueueEvent, q': Vq)
    requires Inv(q) && QueueStep(q, e, q')
    ensures Inv(q')
  {
    hide Inv, Added, Polled;
    match e {
      case Add(addr, len, writable, got) =>
        if q.numFree > 0 { AddKeepsInv(q, addr, len, writable); }
      case Poll(_) =>
        if q.lastUsedIdx != q.usedIdx { PollKeepsInv(q); }
      case DeviceTakes => TakeKeepsInv(q, q');
      case DeviceReturns(u) => ReturnKeepsInv(q, q', u);
    }
  }

  ghost predicate QueueRun(states: seq<Vq>, events: seq<QueueEvent>) {
    && |states| == |events| + 1
    && forall i :: 0 <= i < |events| ==> QueueStep(states[i], events[i], states[i + 1])
  }

  /** Results of the polls of a run, and descriptors handed out by its adds, in order. */
  function PolledIn(events: seq<QueueEvent>): seq<UsedElem> {
    if events == [] then []
    else
      var before, e := PolledIn(events[..|events| - 1]), events[|events| - 1];
      if e.Poll? && e.seen.Some? then before + [e.seen.value] else before
  }

  function AddedIn(events: seq<QueueEvent>): seq<nat> {
    if events == [] then []
    else
      var before, e := AddedIn(events[..|events| - 1]), events[|events| - 1];
      if e.Add? && e.got.Some? then before + [e.got.value] else before
  }

  /** A new queue: all descriptors free, in order. */
  function FreshQueue(size: nat): Vq {
    Vq(seq(size, (i: nat) => Desc(0, 0, 0, if i + 1 < size then i + 1 else 0)), seq(size, _ => 0), 0, seq(size, _ => UsedElem(0, 0)), 0,
       0, size, 0, 0, seq(size, i => i), [], multiset{}, [], [], [])
  }

  lemma FreshQueueOk(size: nat)
    requires SizeOk(size)
    ensures Inv(FreshQueue(size))
  {
    var q := FreshQueue(size);
    assert q.added[Taken(q)..] == q.offered;
    assert multiset(Ids(q.returned)) == multiset{} && multiset(q.offered) == multiset{} && multiset(Ids(q.polled)) == multiset{};
  }

  /** Over any interleaving of driver and device, from a new queue: the descriptors stay partitioned, and
      what was polled, is returned, is with the device or still offered are exactly the added buffers. */
  lemma {:induction false} RunConserves(size: nat, states: seq<Vq>, events: seq<QueueEvent>)
    requires SizeOk(size) && QueueRun(states, events) && states[0] == FreshQueue(size)
    ensures var q := states[|events|];
            && Inv(q) && q.added == AddedIn(events) && q.polled == PolledIn(events)
            && multiset(AddedIn(events))
               == multiset(q.offered) + q.device + multiset(Ids(q.returned)) + multiset(Ids(PolledIn(events)))
  {
    hide QueueStep;
    var n := |events|;
    if n == 0 {
      FreshQueueOk(size);
    } else {
      RunConserves(size, states[..n], events[..n - 1]);
      StepKeepsQueue(states[n - 1], events[n - 1], states[n]);
      StepLogs(states[n - 1], events[n - 1], states[n]);
    }
  }

  lemma StepLogs(q: Vq, e: QueueEvent, q': Vq)
    requires Inv(q) && QueueStep(q, e, q')
    ensures q'.added == if e.Add? && e.got.Some? then q.added + [e.got.value] else q.added
    ensures q'.polled == if e.Poll? && e.seen.Some? then q.polled + [e.seen.value] else q.polled
  {
    if e.Poll? && q.lastUsedIdx != q.usedIdx {
      PollSeesIff(q);
    }
  }

  // ---- The driver ----

  /** The legacy memory layout: descriptors, available ring, used ring on the next page boundary. */
  function LegacyLayout(size: nat): (nat, nat, nat) {
    var availOffset, availSize := 16 * size, 6 + 2 * size;
    var usedOffset := AlignUp4096(availOffset + availSize);
    (usedOffset + 6 + 8 * size, availOffset, usedOffset)
  }

  function AlignUp4096(n: nat): nat {
    (n + 4095) / 4096 * 4096
  }

  /** The three parts follow each other without overlap, the used ring page-aligned and as early as possible. */
  lemma LayoutOk(size: nat)
    ensures var (total, availOffset, usedOffset) := LegacyLayout(size);
            && availOffset == 16 * size && availOffset + (6 + 2 * size) <= usedOffset < availOffset + (6 + 2 * size) + 4096
            && usedOffset % 4096 == 0 && total == usedOffset + (6 + 8 * size)
  {
  }

  class Virtqueue {
    const size: nat
    const descs: array<Desc>
    const availRing: array<nat>
    const usedRing: array<UsedElem>
    var availIdx: nat
    var usedIdx: nat
    var freeHead: nat
    var numFree: nat
    var lastUsedIdx: nat
    ghost var devAvail: nat
    ghost var free: seq<nat>
    ghost var offered: seq<nat>
    ghost var device: multiset<nat>
    ghost var returned: seq<UsedElem>
    ghost var added: seq<nat>
    ghost var polled: seq<UsedElem>

    ghost function Contents(): Vq
      reads this, descs, availRing, usedRing
    {
      Vq(descs[..], availRing[..], availIdx, usedRing[..], usedIdx, freeHead, numFree, lastUsedIdx,
         devAvail, free, offered, device, returned, added, polled)
    }

    ghost predicate Valid()
      reads this, descs, availRing, usedRing
    {
      Inv(Contents()) && descs.Length == size
    }

    constructor (queueSize: nat)
      requires SizeOk(queueSize)
      ensures Valid() && size == queueSize && Contents() == FreshQueue(queueSize)
      ensures fresh(descs) && fresh(availRing) && fresh(usedRing)
    {
      size, availIdx, usedIdx, freeHead, numFree, lastUsedIdx := queueSize, 0, 0, 0, queueSize, 0;
      devAvail, free, offered, device, returned := 0, seq(queueSize, i => i), [], multiset{}, [];
      added, polled := [], [];
      descs := new Desc[queueSize](_ => Desc(0, 0, 0, 0));
      availRing := new nat[queueSize](_ => 0);
      usedRing := new UsedElem[queueSize](_ => UsedElem(0, 0));
      new;
      for i := 0 to queueSize
        invariant Contents() == FreshQueue(queueSize).(descs := descs[..])
        invariant fresh(descs) && fresh(availRing) && fresh(usedRing)
        invariant forall j :: 0 <= j < i ==> descs[j] == FreshQueue(queueSize).descs[j]
        invariant forall j :: i <= j < queueSize ==> descs[j] == Desc(0, 0, 0, 0)
      {
        descs[i] := descs[i].(next := if i + 1 < queueSize then i + 1 else 0, flags := 0);
      }
      assert descs[..] == FreshQueue(queueSize).descs;
      FreshQueueOk(queueSize);
    }

    /** Offer a buffer to the device; none when all descriptors are in use. */
    method AddBuf(addr: nat, len: nat, deviceWritable: bool) returns (r: Option<nat>)
      requires Valid()
      modifies this, descs, availRing
      ensures Valid() && QueueStep(old(Contents()), Add(addr, len, deviceWritable, r), Contents())
    {
      hide Inv, Slot, U16, Ids;
      if numFree == 0 {
        return None;
      }
      ghost var q := Contents();
      FreeHeadOk(q);
      SizePositive(q);
      AddKeepsInv(q, addr, len, deviceWritable);
      var idx := TakeFree(addr, len, deviceWritable);
      Publish(idx);
      assert Contents() == Added(q, addr, len, deviceWritable);
      return Some(idx);
    }

    /** Unlink the first free descriptor and fill it in. */
    method TakeFree(addr: nat, len: nat, deviceWritable: bool) returns (idx: nat)
      requires numFree > 0 && freeHead < descs.Length && free != []
      modifies this`freeHead, this`numFree, this`free, descs
      ensures idx == old(freeHead) && numFree == old(numFree) - 1 && free == old(free[1..])
      ensures freeHead == old(descs[freeHead].next)
      ensures descs[..] == old(descs[..])[idx := Desc(addr, len, if deviceWritable then VIRTQ_DESC_F_WRITE else 0, 0)]
    {
      idx := freeHead;
      freeHead := descs[idx].next;
      descs[idx] := Desc(addr, len, if deviceWritable then VIRTQ_DESC_F_WRITE else 0, 0);
      numFree := numFree - 1;
      free := free[1..];
    }

    /** Put it into the available ring. */
    method Publish(idx: nat)
      requires size > 0 && availRing.Length == size
      modifies this`availIdx, this`offered, this`added, availRing
      ensures availRing[..] == old(availRing[..])[old(availIdx) % size := idx] && availIdx == U16(old(availIdx) + 1)
      ensures offered == old(offered) + [idx] && added == old(added) + [idx]
    {
      availRing[availIdx % size] := idx;
      availIdx := U16(availIdx + 1);
      offered, added := offered + [idx], added + [idx];
    }

    /** Take back a buffer the device has returned, if any. */
    method PollUsed() returns (r: Option<UsedElem>)
      requires Valid()
      modifies this, descs
      ensures Valid() && QueueStep(old(Contents()), Poll(r), Contents())
    {
      hide Inv;
      ghost var q := Contents();
      SizePositive(q);
      PollSeesIff(q);
      if lastUsedIdx == usedIdx {
        return None;
      }
      PollKeepsInv(q);
      var entry := usedRing[lastUsedIdx % size];
      lastUsedIdx := U16(lastUsedIdx + 1);
      descs[entry.id] := descs[entry.id].(next := freeHead);
      freeHead := entry.id;
      numFree := numFree + 1;
      free, returned, polled := [entry.id] + free, returned[1..], polled + [returned[0]];
      return Some(entry);
    }
  }

  lemma SizePositive(q: Vq)
    requires Inv(q)
    ensures 0 < q.Size() == |q.avail| == |q.used|
  {
  }
}
