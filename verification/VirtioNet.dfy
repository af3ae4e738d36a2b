/** The network driver's buffers: which descriptor points at which buffer, and which buffers are alive. */
module VirtioNet {
  import opened Bits
  import opened Bytes
  import opened Rings
  import opened Virtqueues

  const NET_HDR_SIZE: nat := 10
  const RX_BUF_SIZE: nat := 1524
  const RX_POOL_SIZE: nat := 64

  /** Both queues, the buffers by address, and `pending`: the data of the completions not yet polled. */
  datatype Nic = Nic(rx: Vq, tx: Vq, rxBuffers: seq<nat>, txInflight: seq<Option<nat>>,
                     memory: map<nat, seq<byte>>, pending: seq<seq<byte>>)

  /** The descriptor is offered, with the device, or returned and not polled. */
  ghost predicate InFlight(q: Vq, d: nat) {
    d in q.offered || d in q.device || d in Ids(q.returned)
  }

  /** The receive pool: distinct buffers of full size; a descriptor in flight points at its own buffer. */
  ghost predicate RxOk(n: Nic) {
    && (forall i :: 0 <= i < |n.rxBuffers| ==> n.rxBuffers[i] in n.memory && |n.memory[n.rxBuffers[i]]| == RX_BUF_SIZE)
    && (forall i, j :: 0 <= i < j < |n.rxBuffers| ==> n.rxBuffers[i] != n.rxBuffers[j])
    && forall d: nat :: InFlight(n.rx, d) ==>
         && d < |n.rxBuffers| && d < n.rx.Size()
         && n.rx.descs[d].addr == n.rxBuffers[d] && n.rx.descs[d].len == RX_BUF_SIZE && n.rx.descs[d].flags == VIRTQ_DESC_F_WRITE
  }

  /** The buffers still hold what the device delivered and nobody has received. */
  ghost predicate PendingOk(n: Nic) {
    && |n.pending| == |n.rx.returned|
    && forall i :: 0 <= i < |n.pending| ==> Delivered(n, n.rx.returned[i], n.pending[i])
  }

  ghost predicate Delivered(n: Nic, e: UsedElem, data: seq<byte>) {
    && e.id < |n.rxBuffers| && n.rxBuffers[e.id] in n.memory && e.len == |data| <= |n.memory[n.rxBuffers[e.id]]|
    && n.memory[n.rxBuffers[e.id]][..e.len] == data
  }

  /** A header that asks for no offload. */
  const NO_OFFLOAD: seq<byte> := [0, 0, 0, 0, 0, 0, 0, 0, 0, 0]

  /** What the device reads through descriptor `d`: the stated number of bytes of the buffer, if it is one to read. */
  ghost function DeviceReads(n: Nic, d: nat): Option<seq<byte>> {
    if d < n.tx.Size() && n.tx.descs[d].flags == 0 && n.tx.descs[d].addr in n.memory
       && n.tx.descs[d].len <= |n.memory[n.tx.descs[d].addr]|
    then Some(n.memory[n.tx.descs[d].addr][..n.tx.descs[d].len])
    else None
  }

  /** A transmit descriptor has its buffer alive exactly as long as the device may read it, and the device reads the
      whole of it, which begins with the header. */
  ghost predicate TxOk(n: Nic) {
    && (forall d: nat :: InFlight(n.tx, d) ==>
          d < |n.txInflight| && d < n.tx.Size() && n.txInflight[d] == Some(n.tx.descs[d].addr))
    && (forall d: nat :: InFlight(n.tx, d) ==>
          && DeviceReads(n, d).Some? && NO_OFFLOAD <= DeviceReads(n, d).value
          && n.tx.descs[d].len == |n.memory[n.tx.descs[d].addr]|)
    && (forall d :: 0 <= d < |n.txInflight| && n.txInflight[d].Some? ==> n.txInflight[d].value in n.memory && InFlight(n.tx, d))
    && (forall d, i :: 0 <= d < |n.txInflight| && n.txInflight[d].Some? && 0 <= i < |n.rxBuffers| ==>
          n.txInflight[d].value != n.rxBuffers[i])
    && (forall d, e :: 0 <= d < e < |n.txInflight| && n.txInflight[d].Some? ==> n.txInflight[d] != n.txInflight[e])
  }

  ghost predicate NicInv(n: Nic) {
    Inv(n.rx) && Inv(n.tx) && RxOk(n) && PendingOk(n) && TxOk(n)
  }

  // ---- Which descriptors are in flight ----

  lemma AddInFlight(q: Vq, addr: nat, len: nat, writable: bool)
    requires Inv(q) && q.numFree > 0
    ensures q.free != [] && q.freeHead < q.Size()
    ensures forall d: nat :: InFlight(Added(q, addr, len, writable), d) <==> InFlight(q, d) || d == q.freeHead
  {
    FreeHeadOk(q);
  }

  lemma PollInFlight(q: Vq)
    requires Inv(q) && q.returned != []
    ensures q.used[q.lastUsedIdx % q.Size()] == q.returned[0] && q.returned[0].id < q.Size()
    ensures forall d: nat :: InFlight(Polled(q), d) <==> InFlight(q, d) && d != q.returned[0].id
  {
    PollKeepsInv(q);
    var q' := Polled(q);
    FreeDistinct(q');
    assert q'.free[0] == q.returned[0].id;
    assert Ids(q.returned) == [q.returned[0].id] + Ids(q'.returned);
    hide Inv, Ids;
  }

  lemma TakeInFlight(q: Vq, q': Vq)
    requires Inv(q) && TakeStep(q, q')
    ensures forall d: nat :: InFlight(q', d) <==> InFlight(q, d)
  {
    TakeKeepsInv(q, q');
    assert q.offered == [q.offered[0]] + q.offered[1..];
  }

  lemma ReturnInFlight(q: Vq, q': Vq, e: UsedElem)
    requires Inv(q) && ReturnStep(q, q', e)
    ensures forall d: nat :: InFlight(q', d) <==> InFlight(q, d)
  {
    assert Ids(q'.returned) == Ids(q.returned) + [e.id];
  }

  // ---- The device's steps ----

  datatype NicEvent =
    | RxTake
    | RxDeliver(id: nat, data: seq<byte>)
    | TxTake(read: Option<seq<byte>>)
    | TxReturn(e: UsedElem)
    | Receive(frame: Option<seq<byte>>)
    | Transmit(sent: seq<byte>, result: TransmitResult)

  /** The device takes the next transmit buffer, found through the available ring, and reads it. */
  ghost predicate TxTakeStep(n: Nic, n': Nic, read: Option<seq<byte>>) {
    && TakeStep(n.tx, n'.tx) && n' == n.(tx := n'.tx)
    && read == DeviceReads(n, n.tx.avail[n.tx.devAvail % n.tx.Size()])
  }

  /** The device writes no more than the descriptor allows, into the buffer it names. */
  ghost predicate DeliverStep(n: Nic, n': Nic, id: nat, data: seq<byte>) {
    && id in n.rx.device && id < n.rx.Size() && |data| <= n.rx.descs[id].len
    && var addr := n.rx.descs[id].addr;
    && addr in n.memory && |data| <= |n.memory[addr]|
    && ReturnStep(n.rx, n'.rx, UsedElem(id, |data|))
    && n' == n.(rx := n'.rx, memory := n.memory[addr := Splice(n.memory[addr], 0, data)], pending := n.pending + [data])
  }

  lemma DeliverKeepsInv(n: Nic, n': Nic, id: nat, data: seq<byte>)
    requires NicInv(n) && DeliverStep(n, n', id, data)
    ensures NicInv(n')
  {
    hide Inv, Ids;
    ReturnKeepsInv(n.rx, n'.rx, UsedElem(id, |data|));
    ReturnInFlight(n.rx, n'.rx, UsedElem(id, |data|));
    assert InFlight(n.rx, id);
    PendingDistinct(n.rx, id);
    forall i | 0 <= i < |n'.pending|
      ensures Delivered(n', n'.rx.returned[i], n'.pending[i])
    {
      if i < |n.pending| {
        assert Delivered(n, n.rx.returned[i], n.pending[i]);
        assert n.rx.returned[i].id != id;
      }
    }
  }

  /** A descriptor with the device is not among the returned ones. */
  lemma PendingDistinct(q: Vq, id: nat)
    requires Inv(q) && id in q.device
    ensures forall i :: 0 <= i < |q.returned| ==> q.returned[i].id != id
  {
    OnceInIndices(q.Size(), id);
    forall i | 0 <= i < |q.returned|
      ensures q.returned[i].id != id
    {
      assert Ids(q.returned)[i] in Ids(q.returned);
    }
  }

  /** A step of a queue that only the device makes, without touching buffers. */
  lemma RxTakeKeepsInv(n: Nic, n': Nic)
    requires NicInv(n) && TakeStep(n.rx, n'.rx) && n' == n.(rx := n'.rx)
    ensures NicInv(n')
  {
    hide Inv, Ids;
    TakeKeepsInv(n.rx, n'.rx);
    TakeInFlight(n.rx, n'.rx);
    assert forall i :: 0 <= i < |n'.pending| ==> Delivered(n, n.rx.returned[i], n.pending[i]);
  }

  lemma TxStepKeepsInv(n: Nic, n': Nic)
    requires NicInv(n) && n' == n.(tx := n'.tx)
    requires TakeStep(n.tx, n'.tx) || exists e :: ReturnStep(n.tx, n'.tx, e)
    ensures NicInv(n')
  {
    hide Inv, Ids;
    if TakeStep(n.tx, n'.tx) {
      TakeKeepsInv(n.tx, n'.tx);
      TakeInFlight(n.tx, n'.tx);
    } else {
      var e :| ReturnStep(n.tx, n'.tx, e);
      ReturnKeepsInv(n.tx, n'.tx, e);
      ReturnInFlight(n.tx, n'.tx, e);
    }
    assert forall i :: 0 <= i < |n'.pending| ==> Delivered(n, n.rx.returned[i], n.pending[i]);
  }

  // ---- Receiving ----

  /** Poll one completion; a frame longer than the header is handed out and its buffer offered again. */
  ghost predicate ReceiveStep(n: Nic, n': Nic, frame: Option<seq<byte>>) {
    if n.rx.returned == [] then n' == n && frame == None
    else
      && n.pending != [] && 0 < n.rx.Size() == |n.rx.used| && n.rx.used[n.rx.lastUsedIdx % n.rx.Size()].id < n.rx.Size()
      && var data := n.pending[0];
      var q := Polled(n.rx);
      if |data| > NET_HDR_SIZE then
        && n.rx.returned[0].id < |n.rxBuffers| && q.free != [] && q.freeHead < q.Size() && |q.avail| == q.Size() && q.numFree > 0
        && n' == n.(rx := Added(q, n.rxBuffers[n.rx.returned[0].id], RX_BUF_SIZE, true), pending := n.pending[1..])
        && frame == Some(data[NET_HDR_SIZE..])
      else n' == n.(rx := q, pending := n.pending[1..]) && frame == None
  }

  /** The descriptor just polled is the next one handed out: the free list is last-in first-out. */
  lemma PolledIsNext(q: Vq)
    requires Inv(q) && q.returned != []
    ensures q.used[q.lastUsedIdx % q.Size()] == q.returned[0] && q.returned[0].id < q.Size()
    ensures Inv(Polled(q)) && Polled(q).freeHead == q.returned[0].id && Polled(q).numFree > 0
  {
    PollKeepsInv(q);
  }

  lemma ReceiveKeepsInv(n: Nic, n': Nic, frame: Option<seq<byte>>)
    requires NicInv(n) && ReceiveStep(n, n', frame)
    ensures NicInv(n')
  {
    hide Inv, Ids, Added, Polled, TxOk;
    if n.rx.returned != [] {
      PolledIsNext(n.rx);
      PollInFlight(n.rx);
      var d := n.rx.returned[0].id;
      var q := Polled(n.rx);
      PolledDescs(n.rx);
      if |n.pending[0]| > NET_HDR_SIZE {
        AddInFlight(q, n.rxBuffers[d], RX_BUF_SIZE, true);
        AddKeepsInv(q, n.rxBuffers[d], RX_BUF_SIZE, true);
        AddedDescs(q, n.rxBuffers[d], RX_BUF_SIZE, true);
      }
      PendingAfter(n, n');
      TxKept(n, n');
    }
  }

  lemma PolledDescs(q: Vq)
    requires Inv(q) && q.returned != [] && q.used[q.lastUsedIdx % q.Size()] == q.returned[0] && q.returned[0].id < q.Size()
    ensures var q' := Polled(q);
            && q'.Size() == q.Size() && q'.returned == q.returned[1..]
            && forall d :: 0 <= d < q.Size() ==> SameBuffer(q'.descs[d], q.descs[d])
  {
  }

  lemma AddedDescs(q: Vq, addr: nat, len: nat, writable: bool)
    requires Inv(q) && q.numFree > 0 && q.free != [] && q.freeHead < q.Size()
    ensures var q' := Added(q, addr, len, writable);
            && q'.Size() == q.Size() && q'.returned == q.returned
            && q'.descs[q.freeHead].addr == addr && q'.descs[q.freeHead].len == len
            && q'.descs[q.freeHead].flags == (if writable then VIRTQ_DESC_F_WRITE else 0)
            && forall d :: 0 <= d < q.Size() && d != q.freeHead ==> q'.descs[d] == q.descs[d]
  {
  }

  lemma PendingAfter(n: Nic, n': Nic)
    requires PendingOk(n) && n.pending != [] && n'.pending == n.pending[1..] && n'.rx.returned == n.rx.returned[1..]
    requires n'.memory == n.memory && n'.rxBuffers == n.rxBuffers
    ensures PendingOk(n')
  {
    forall i | 0 <= i < |n'.pending|
      ensures Delivered(n', n'.rx.returned[i], n'.pending[i])
    {
      assert Delivered(n, n.rx.returned[i + 1], n.pending[i + 1]);
    }
  }

  lemma TxKept(n: Nic, n': Nic)
    requires TxOk(n) && n'.tx == n.tx && n'.txInflight == n.txInflight && n'.memory == n.memory && n'.rxBuffers == n.rxBuffers
    ensures TxOk(n')
  {
  }

  // ---- Transmitting ----

  /** Drop the buffer of each returned transmit descriptor. */
  ghost function Reclaimed(n: Nic): Nic
    requires 0 < n.tx.Size() == |n.tx.used| && n.tx.returned != [] && n.tx.used[n.tx.lastUsedIdx % n.tx.Size()].id < n.tx.Size()
  {
    var d := n.tx.returned[0].id;
    if d < |n.txInflight| then
      n.(tx := Polled(n.tx), txInflight := n.txInflight[d := None],
         memory := if n.txInflight[d].Some? then n.memory - {n.txInflight[d].value} else n.memory)
    else n.(tx := Polled(n.tx))
  }

  lemma ReclaimKeepsInv(n: Nic)
    requires NicInv(n) && n.tx.returned != []
    ensures 0 < n.tx.Size() == |n.tx.used| && n.tx.used[n.tx.lastUsedIdx % n.tx.Size()].id < n.tx.Size()
    ensures NicInv(Reclaimed(n)) && |Reclaimed(n).tx.returned| == |n.tx.returned| - 1
  {
    SizePositive(n.tx);
    PolledIsNext(n.tx);
    PollInFlight(n.tx);
    PolledDescs(n.tx);
    var n' := Reclaimed(n);
    hide Inv, Ids, Polled;
    ReclaimRx(n);
    ReclaimTx(n);
  }

  lemma ReclaimRx(n: Nic)
    requires NicInv(n) && n.tx.returned != []
    requires 0 < n.tx.Size() == |n.tx.used| && n.tx.used[n.tx.lastUsedIdx % n.tx.Size()].id < n.tx.Size()
    ensures RxOk(Reclaimed(n)) && PendingOk(Reclaimed(n))
  {
    hide Inv, Ids, Polled;
    var n' := Reclaimed(n);
    assert forall i :: 0 <= i < |n.rxBuffers| ==> n.rxBuffers[i] in n'.memory && n'.memory[n.rxBuffers[i]] == n.memory[n.rxBuffers[i]];
    forall i | 0 <= i < |n.pending|
      ensures Delivered(n', n'.rx.returned[i], n'.pending[i])
    {
      assert Delivered(n, n.rx.returned[i], n.pending[i]);
    }
  }

  lemma ReclaimTx(n: Nic)
    requires NicInv(n) && n.tx.returned != []
    requires n.tx.used[n.tx.lastUsedIdx % n.tx.Size()] == n.tx.returned[0] && n.tx.returned[0].id < n.tx.Size() == |n.tx.used|
    requires forall d: nat :: InFlight(Polled(n.tx), d) <==> InFlight(n.tx, d) && d != n.tx.returned[0].id
    requires Polled(n.tx).Size() == n.tx.Size() && forall d :: 0 <= d < n.tx.Size() ==> SameBuffer(Polled(n.tx).descs[d], n.tx.descs[d])
    ensures TxOk(Reclaimed(n))
    ensures forall d: nat :: InFlight(n.tx, d) && d != n.tx.returned[0].id ==> DeviceReads(Reclaimed(n), d) == DeviceReads(n, d)
  {
    hide Inv, Ids, Polled, RxOk, PendingOk, InFlight;
    var n' := Reclaimed(n);
    forall d: nat | InFlight(n.tx, d) && d != n.tx.returned[0].id
      ensures DeviceReads(n', d) == DeviceReads(n, d) && n'.tx.descs[d].len == n.tx.descs[d].len
      ensures n'.tx.descs[d].addr == n.tx.descs[d].addr && n'.memory[n.tx.descs[d].addr] == n.memory[n.tx.descs[d].addr]
    {
      assert SameBuffer(n'.tx.descs[d], n.tx.descs[d]);
    }
    hide DeviceReads;
  }

  predicate SameBuffer(a: Desc, b: Desc) {
    a.addr == b.addr && a.len == b.len && a.flags == b.flags
  }

  /** Reclaim until the device has returned nothing more. */
  ghost function ReclaimedAll(n: Nic): Nic
    requires NicInv(n)
    decreases |n.tx.returned|
  {
    if n.tx.returned == [] then n
    else
      ReclaimKeepsInv(n);
      ReclaimedAll(Reclaimed(n))
  }

  lemma {:induction false} ReclaimedAllOk(n: Nic)
    requires NicInv(n)
    ensures var n' := ReclaimedAll(n); NicInv(n') && n'.tx.returned == [] && n'.rx == n.rx && n'.pending == n.pending
    decreases |n.tx.returned|
  {
    hide Inv, RxOk, PendingOk, TxOk, Polled;
    if n.tx.returned != [] {
      ReclaimKeepsInv(n);
      ReclaimedAllOk(Reclaimed(n));
    }
  }

  /** The slots of a grown `Vec`: new ones are empty. */
  function Padded(slots: seq<Option<nat>>, size: nat): (r: seq<Option<nat>>)
    ensures |r| >= size && |r| >= |slots|
    ensures forall i :: 0 <= i < |r| ==> r[i] == if i < |slots| then slots[i] else None
  {
    if |slots| < size then slots + seq(size - |slots|, _ => None) else slots
  }

  /** Queue one frame in a buffer of its own. */
  ghost function Queued(n: Nic, addr: nat, frame: seq<byte>): Nic
    requires n.tx.free != [] && n.tx.freeHead < n.tx.Size() && 0 < n.tx.Size() == |n.tx.avail| && n.tx.numFree > 0
  {
    n.(tx := Added(n.tx, addr, NET_HDR_SIZE + |frame|, false),
       txInflight := Padded(n.txInflight, n.tx.freeHead + 1)[n.tx.freeHead := Some(addr)],
       memory := n.memory[addr := Zeros(NET_HDR_SIZE) + frame])
  }

  datatype TransmitResult = Sent | QueueFull | OutOfMemory

  ghost predicate TransmitStep(n: Nic, n': Nic, frame: seq<byte>, r: TransmitResult) {
    && NicInv(n)
    && var n1 := ReclaimedAll(n);
    match r
    case OutOfMemory => n' == n1
    case QueueFull => n' == n1 && n1.tx.numFree == 0
    case Sent =>
      && n1.tx.free != [] && n1.tx.freeHead < n1.tx.Size() && 0 < n1.tx.Size() == |n1.tx.avail| && n1.tx.numFree > 0
      && exists addr: nat :: addr !in n1.memory && n' == Queued(n1, addr, frame)
  }

  lemma QueuedKeepsInv(n: Nic, addr: nat, frame: seq<byte>)
    requires NicInv(n) && n.tx.numFree > 0 && addr !in n.memory
    ensures n.tx.free != [] && n.tx.freeHead < n.tx.Size() == |n.tx.avail| && NicInv(Queued(n, addr, frame))
  {
    hide Ids, Polled;
    SizePositive(n.tx);
    AddInFlight(n.tx, addr, NET_HDR_SIZE + |frame|, false);
    AddKeepsInv(n.tx, addr, NET_HDR_SIZE + |frame|, false);
    AddedDescs(n.tx, addr, NET_HDR_SIZE + |frame|, false);
    hide Inv, Added;
    QueuedRx(n, addr, frame);
    QueuedTx(n, addr, frame);
  }

  lemma QueuedRx(n: Nic, addr: nat, frame: seq<byte>)
    requires NicInv(n) && n.tx.free != [] && n.tx.freeHead < n.tx.Size() && 0 < n.tx.Size() == |n.tx.avail| && n.tx.numFree > 0
    requires addr !in n.memory
    ensures RxOk(Queued(n, addr, frame)) && PendingOk(Queued(n, addr, frame))
  {
    hide Inv, Ids, Added;
    var n' := Queued(n, addr, frame);
    forall i | 0 <= i < |n.pending|
      ensures Delivered(n', n'.rx.returned[i], n'.pending[i])
    {
      assert Delivered(n, n.rx.returned[i], n.pending[i]);
    }
  }

  lemma QueuedTx(n: Nic, addr: nat, frame: seq<byte>)
    requires NicInv(n) && n.tx.free != [] && n.tx.freeHead < n.tx.Size() && 0 < n.tx.Size() == |n.tx.avail| && n.tx.numFree > 0
    requires addr !in n.memory
    requires var q' := Added(n.tx, addr, NET_HDR_SIZE + |frame|, false);
             && q'.Size() == n.tx.Size() && SameBuffer(q'.descs[n.tx.freeHead], Desc(addr, NET_HDR_SIZE + |frame|, 0, 0))
             && (forall d :: 0 <= d < n.tx.Size() && d != n.tx.freeHead ==> q'.descs[d] == n.tx.descs[d])
             && forall d: nat :: InFlight(q', d) <==> InFlight(n.tx, d) || d == n.tx.freeHead
    ensures TxOk(Queued(n, addr, frame)) && DeviceReads(Queued(n, addr, frame), n.tx.freeHead) == Some(NO_OFFLOAD + frame)
    ensures forall d: nat :: InFlight(n.tx, d) && d != n.tx.freeHead ==> DeviceReads(Queued(n, addr, frame), d) == DeviceReads(n, d)
  {
    hide Inv, Ids, Added, InFlight, PendingOk;
    var n', buf := Queued(n, addr, frame), NO_OFFLOAD + frame;
    assert Zeros(NET_HDR_SIZE) + frame == buf && buf[..|buf|] == buf;
    assert n'.memory[addr] == buf && DeviceReads(n', n.tx.freeHead) == Some(buf);
    forall d: nat | InFlight(n.tx, d) && d != n.tx.freeHead
      ensures DeviceReads(n', d) == DeviceReads(n, d) && n'.memory[n.tx.descs[d].addr] == n.memory[n.tx.descs[d].addr]
    {
      assert n'.tx.descs[d] == n.tx.descs[d];
    }
    hide DeviceReads;
  }

  // ---- Runs ----

  ghost predicate NicStep(n: Nic, e: NicEvent, n': Nic) {
    match e
    case RxTake => TakeStep(n.rx, n'.rx) && n' == n.(rx := n'.rx)
    case RxDeliver(id, data) => DeliverStep(n, n', id, data)
    case TxTake(read) => TxTakeStep(n, n', read)
    case TxReturn(u) => ReturnStep(n.tx, n'.tx, u) && n' == n.(tx := n'.tx)
    case Receive(frame) => ReceiveStep(n, n', frame)
    case Transmit(frame, r) => TransmitStep(n, n', frame, r)
  }

  lemma StepKeepsNic(n: Nic, e: NicEvent, n': Nic)
    requires NicInv(n) && NicStep(n, e, n')
    ensures NicInv(n')
  {
    hide NicInv, DeliverStep, ReceiveStep, ReturnStep, TakeStep;
    match e {
      case RxTake => RxTakeKeepsInv(n, n');
      case RxDeliver(id, data) => DeliverKeepsInv(n, n', id, data);
      case TxTake(read) => TxStepKeepsInv(n, n');
      case TxReturn(u) => TxStepKeepsInv(n, n');
      case Receive(frame) => ReceiveKeepsInv(n, n', frame);
      case Transmit(frame, r) => TransmitKeepsInv(n, n', frame, r);
    }
  }

  lemma TransmitKeepsInv(n: Nic, n': Nic, frame: seq<byte>, r: TransmitResult)
    requires TransmitStep(n, n', frame, r)
    ensures NicInv(n') && n'.pending == n.pending && n'.rx == n.rx
  {
    hide NicInv, ReclaimedAll, Queued;
    ReclaimedAllOk(n);
    var n1 := ReclaimedAll(n);
    if r == Sent {
      var addr: nat :| addr !in n1.memory && n' == Queued(n1, addr, frame);
      QueuedKeepsInv(n1, addr, frame);
      QueuedElsewhere(n1, addr, frame);
    }
  }

  lemma QueuedElsewhere(n: Nic, addr: nat, frame: seq<byte>)
    requires n.tx.free != [] && n.tx.freeHead < n.tx.Size() && 0 < n.tx.Size() == |n.tx.avail| && n.tx.numFree > 0
    ensures Queued(n, addr, frame).rx == n.rx && Queued(n, addr, frame).pending == n.pending
  {
  }

  ghost predicate NicRun(states: seq<Nic>, events: seq<NicEvent>) {
    && |states| == |events| + 1
    && forall i :: 0 <= i < |events| ==> NicStep(states[i], events[i], states[i + 1])
  }

  /** The frames in completions: the header stripped, runts dropped. */
  function Frames(datas: seq<seq<byte>>): seq<seq<byte>> {
    if datas == [] then []
    else
      var last := datas[|datas| - 1];
      Frames(datas[..|datas| - 1]) + if |last| > NET_HDR_SIZE then [last[NET_HDR_SIZE..]] else []
  }

  function DeliveredIn(events: seq<NicEvent>): seq<seq<byte>> {
    if events == [] then []
    else
      var e := events[|events| - 1];
      DeliveredIn(events[..|events| - 1]) + if e.RxDeliver? then [e.data] else []
  }

  function ReceivedIn(events: seq<NicEvent>): seq<seq<byte>> {
    if events == [] then []
    else
      var e := events[|events| - 1];
      ReceivedIn(events[..|events| - 1]) + if e.Receive? && e.frame.Some? then [e.frame.value] else []
  }

  lemma {:induction false} FramesAppend(a: seq<seq<byte>>, b: seq<seq<byte>>)
    ensures Frames(a + b) == Frames(a) + Frames(b)
  {
    if b == [] {
      assert a + b == a;
    } else {
      var n := |b| - 1;
      FramesAppend(a, b[..n]);
      assert (a + b)[..|a + b| - 1] == a + b[..n];
    }
  }

  /** Over any run the invariant holds, and the frames received are the frames the device delivered, in
      order and unaltered, up to those that still wait in the receive buffers. */
  lemma {:induction false} RunReceivesInOrder(states: seq<Nic>, events: seq<NicEvent>)
    requires NicRun(states, events) && NicInv(states[0]) && states[0].pending == []
    ensures NicInv(states[|events|])
    ensures Frames(DeliveredIn(events)) == ReceivedIn(events) + Frames(states[|events|].pending)
  {
    hide NicInv, NicStep, Frames;
    var n := |events|;
    if n == 0 {
      NoFrames();
    } else {
      RunReceivesInOrder(states[..n], events[..n - 1]);
      StepKeepsNic(states[n - 1], events[n - 1], states[n]);
      var e, p, p' := events[n - 1], Frames(states[n - 1].pending), Frames(states[n].pending);
      StepFrames(states[n - 1], e, states[n], DeliveredIn(events[..n - 1]));
      var r := ReceivedIn(events[..n - 1]);
      var now := if e.Receive? && e.frame.Some? then [e.frame.value] else [];
      var more := if e.RxDeliver? then Frames([e.data]) else [];
      assert (r + p) + more == r + (p + more) && (r + now) + p' == r + (now + p');
    }
  }

  lemma NoFrames()
    ensures Frames([]) == []
  {
  }

  lemma StepFrames(n: Nic, e: NicEvent, n': Nic, delivered: seq<seq<byte>>)
    requires NicInv(n) && NicStep(n, e, n')
    ensures Frames(delivered + if e.RxDeliver? then [e.data] else [])
            == Frames(delivered) + if e.RxDeliver? then Frames([e.data]) else []
    ensures Frames(n.pending) + (if e.RxDeliver? then Frames([e.data]) else [])
            == (if e.Receive? && e.frame.Some? then [e.frame.value] else []) + Frames(n'.pending)
  {
    hide Inv, RxOk, TxOk, Frames, TransmitStep, TakeStep, ReturnStep, Polled, Added;
    assert delivered + [] == delivered;
    match e {
      case RxDeliver(id, data) =>
        FramesAppend(delivered, [data]);
        FramesAppend(n.pending, [data]);
      case Receive(frame) =>
        if n.rx.returned != [] {
          assert n.pending == [n.pending[0]] + n.pending[1..];
          FramesAppend([n.pending[0]], n.pending[1..]);
          OneFrame(n.pending[0]);
        }
      case Transmit(frame, r) => TransmitKeepsInv(n, n', frame, r);
      case _ =>
    }
  }

  lemma OneFrame(data: seq<byte>)
    ensures Frames([data]) == if |data| > NET_HDR_SIZE then [data[NET_HDR_SIZE..]] else []
  {
    assert [data][..0] == [];
    NoFrames();
  }

  // ---- What the device is given to send ----

  /** What the device will read through the buffers still offered to it. */
  ghost function OfferedReads(n: Nic): seq<Option<seq<byte>>> {
    seq(|n.tx.offered|, i requires 0 <= i < |n.tx.offered| => DeviceReads(n, n.tx.offered[i]))
  }

  function TakenIn(events: seq<NicEvent>): seq<Option<seq<byte>>> {
    if events == [] then []
    else TakenIn(events[..|events| - 1]) + Taken1(events[|events| - 1])
  }

  function Taken1(e: NicEvent): seq<Option<seq<byte>>> {
    if e.TxTake? then [e.read] else []
  }

  /** A header without offload and the frame, for each frame sent. */
  function SentIn(events: seq<NicEvent>): seq<Option<seq<byte>>> {
    if events == [] then []
    else SentIn(events[..|events| - 1]) + Sent1(events[|events| - 1])
  }

  function Sent1(e: NicEvent): seq<Option<seq<byte>>> {
    if e.Transmit? && e.result == Sent then [Some(NO_OFFLOAD + e.sent)] else []
  }

  /** Over any run what the device has read, with what is still offered to it, is header and frame of each frame sent,
      in order and unaltered. */
  lemma {:induction false} RunSendsInOrder(states: seq<Nic>, events: seq<NicEvent>)
    requires NicRun(states, events) && NicInv(states[0]) && states[0].tx.offered == []
    ensures NicInv(states[|events|])
    ensures TakenIn(events) + OfferedReads(states[|events|]) == SentIn(events)
  {
    hide NicInv, NicStep, Taken1, Sent1;
    if events != [] {
      var n := |events| - 1;
      RunSendsInOrder(states[..n + 1], events[..n]);
      StepKeepsNic(states[n], events[n], states[n + 1]);
      StepSends(states[n], events[n], states[n + 1]);
      Regroup(TakenIn(events[..n]), Taken1(events[n]), OfferedReads(states[n + 1]), OfferedReads(states[n]), Sent1(events[n]));
    }
  }

  lemma Regroup<T>(a: seq<T>, b: seq<T>, c: seq<T>, d: seq<T>, e: seq<T>)
    requires b + c == d + e
    ensures a + b + c == a + d + e
  {
    assert a + b + c == a + (b + c) && a + d + e == a + (d + e);
  }

  lemma StepSends(n: Nic, e: NicEvent, n': Nic)
    requires NicInv(n) && NicStep(n, e, n')
    ensures Taken1(e) + OfferedReads(n') == OfferedReads(n) + Sent1(e)
  {
    hide NicInv, DeliverStep, ReceiveStep, TransmitStep, DeviceReads;
    match e {
      case TxTake(read) => TakenReads(n, n', read);
      case RxDeliver(id, data) => DeliveredReads(n, n', id, data);
      case Receive(frame) => ReceivedReads(n, n', frame);
      case Transmit(frame, r) => TransmittedReads(n, n', frame, r);
      case TxReturn(u) => SameReads(n, n');
      case RxTake => SameReads(n, n');
    }
  }

  lemma SameReads(n: Nic, n': Nic)
    requires n'.tx.offered == n.tx.offered && n'.tx.descs == n.tx.descs && n'.memory == n.memory
    ensures OfferedReads(n') == OfferedReads(n)
  {
  }

  lemma ReceivedReads(n: Nic, n': Nic, frame: Option<seq<byte>>)
    requires ReceiveStep(n, n', frame)
    ensures OfferedReads(n') == OfferedReads(n)
  {
    hide DeviceReads, Added, Polled;
    SameReads(n, n');
  }

  lemma TakenReads(n: Nic, n': Nic, read: Option<seq<byte>>)
    requires NicInv(n) && TxTakeStep(n, n', read)
    ensures [read] + OfferedReads(n') == OfferedReads(n)
  {
    TakeKeepsInv(n.tx, n'.tx);
    hide NicInv, Inv;
    assert forall i :: 0 <= i < |n'.tx.offered| ==> n'.tx.offered[i] == n.tx.offered[i + 1];
    assert OfferedReads(n)[0] == read;
  }

  lemma DeliveredReads(n: Nic, n': Nic, id: nat, data: seq<byte>)
    requires NicInv(n) && DeliverStep(n, n', id, data)
    ensures OfferedReads(n') == OfferedReads(n)
  {
    hide Inv, PendingOk, ReturnStep;
    assert InFlight(n.rx, id);
    forall i | 0 <= i < |n.tx.offered|
      ensures DeviceReads(n', n.tx.offered[i]) == DeviceReads(n, n.tx.offered[i])
    {
      assert InFlight(n.tx, n.tx.offered[i]);
    }
    hide DeviceReads;
  }

  lemma TransmittedReads(n: Nic, n': Nic, frame: seq<byte>, r: TransmitResult)
    requires TransmitStep(n, n', frame, r)
    ensures OfferedReads(n') == OfferedReads(n) + if r == Sent then [Some(NO_OFFLOAD + frame)] else []
  {
    hide NicInv, ReclaimedAll, Queued, DeviceReads;
    ReclaimedAllOk(n);
    ReclaimedAllReads(n);
    var n1 := ReclaimedAll(n);
    if r == Sent {
      var addr: nat :| addr !in n1.memory && n' == Queued(n1, addr, frame);
      QueuedReads(n1, addr, frame);
    }
  }

  lemma {:induction false} ReclaimedAllReads(n: Nic)
    requires NicInv(n)
    ensures OfferedReads(ReclaimedAll(n)) == OfferedReads(n)
    decreases |n.tx.returned|
  {
    hide Inv, RxOk, PendingOk, TxOk, Polled;
    if n.tx.returned != [] {
      ReclaimKeepsInv(n);
      ReclaimedReads(n);
      ReclaimedAllReads(Reclaimed(n));
    }
  }

  lemma ReclaimedReads(n: Nic)
    requires NicInv(n) && n.tx.returned != []
    requires 0 < n.tx.Size() == |n.tx.used| && n.tx.used[n.tx.lastUsedIdx % n.tx.Size()].id < n.tx.Size()
    ensures OfferedReads(Reclaimed(n)) == OfferedReads(n)
  {
    PolledIsNext(n.tx);
    PollInFlight(n.tx);
    PolledDescs(n.tx);
    assert Polled(n.tx).offered == n.tx.offered;
    hide Inv, Ids, Polled, RxOk, PendingOk;
    ReclaimTx(n);
    forall i | 0 <= i < |n.tx.offered|
      ensures DeviceReads(Reclaimed(n), n.tx.offered[i]) == DeviceReads(n, n.tx.offered[i])
    {
      assert InFlight(Polled(n.tx), n.tx.offered[i]);
    }
    hide DeviceReads, TxOk;
  }

  lemma QueuedReads(n: Nic, addr: nat, frame: seq<byte>)
    requires NicInv(n) && n.tx.free != [] && n.tx.freeHead < n.tx.Size() && 0 < n.tx.Size() == |n.tx.avail| && n.tx.numFree > 0
    requires addr !in n.memory
    ensures OfferedReads(Queued(n, addr, frame)) == OfferedReads(n) + [Some(NO_OFFLOAD + frame)]
  {
    AddInFlight(n.tx, addr, NET_HDR_SIZE + |frame|, false);
    AddedDescs(n.tx, addr, NET_HDR_SIZE + |frame|, false);
    FreeDistinct(n.tx);
    FreeHeadOk(n.tx);
    var q' := Added(n.tx, addr, NET_HDR_SIZE + |frame|, false);
    assert q'.offered == n.tx.offered + [n.tx.freeHead] && n.tx.freeHead !in n.tx.offered;
    hide Inv, Ids, Added, RxOk, PendingOk;
    QueuedTx(n, addr, frame);
    var n' := Queued(n, addr, frame);
    forall i | 0 <= i < |n.tx.offered|
      ensures DeviceReads(n', n.tx.offered[i]) == DeviceReads(n, n.tx.offered[i])
    {
      assert InFlight(n.tx, n.tx.offered[i]);
    }
    hide DeviceReads, TxOk;
  }

  // ---- Runts ----

  /** The receive descriptors that are not free. */
  function RxInFlight(n: Nic): nat {
    |n.rx.offered| + |n.rx.device| + |n.rx.returned|
  }

  /** A runt was polled: something had been returned, and no frame came of it. */
  predicate IsRunt(n: Nic, e: NicEvent) {
    e.Receive? && e.frame == None && n.rx.returned != []
  }

  function RuntsPolled(states: seq<Nic>, events: seq<NicEvent>): nat
    requires |states| == |events| + 1
  {
    if events == [] then 0
    else
      var n := |events| - 1;
      RuntsPolled(states[..n + 1], events[..n]) + if IsRunt(states[n], events[n]) then 1 else 0
  }

  lemma StepInFlight(n: Nic, e: NicEvent, n': Nic)
    requires NicInv(n) && NicStep(n, e, n')
    ensures RxInFlight(n') + (if IsRunt(n, e) then 1 else 0) == RxInFlight(n)
  {
    StepKeepsNic(n, e, n');
    StepFreeCount(n, e, n');
    hide *;
    RxPlaces(n);
    RxPlaces(n');
  }

  lemma StepFreeCount(n: Nic, e: NicEvent, n': Nic)
    requires NicInv(n) && NicStep(n, e, n')
    ensures n'.rx.Size() == n.rx.Size() && n'.rx.numFree == n.rx.numFree + if IsRunt(n, e) then 1 else 0
  {
    match e {
      case Transmit(sent, result) => TransmitKeepsInv(n, n', sent, result);
      case Receive(frame) => ReceiveFreeCount(n, n', frame);
      case _ => hide NicInv;
    }
  }

  lemma ReceiveFreeCount(n: Nic, n': Nic, frame: Option<seq<byte>>)
    requires ReceiveStep(n, n', frame)
    ensures n'.rx.Size() == n.rx.Size()
    ensures n'.rx.numFree == n.rx.numFree + if frame == None && n.rx.returned != [] then 1 else 0
  {
    hide U16;
  }

  lemma RxPlaces(n: Nic)
    requires NicInv(n)
    ensures n.rx.numFree + RxInFlight(n) == n.rx.Size()
  {
    PlacesAddUp(n.rx);
    hide RxOk, PendingOk, TxOk;
  }

  /** Over any run the descriptors in flight are the ones at the start less the runts polled: a runt's buffer is
      never offered again. */
  lemma {:induction false} RuntsDrainThePool(states: seq<Nic>, events: seq<NicEvent>)
    requires NicRun(states, events) && NicInv(states[0])
    ensures NicInv(states[|events|]) && RxInFlight(states[|events|]) + RuntsPolled(states, events) == RxInFlight(states[0])
  {
    hide NicInv, NicStep, IsRunt;
    if events != [] {
      var n := |events| - 1;
      RuntsDrainThePool(states[..n + 1], events[..n]);
      StepKeepsNic(states[n], events[n], states[n + 1]);
      StepInFlight(states[n], events[n], states[n + 1]);
    }
  }

  /** After as many runts as buffers were posted nothing is ever received again. */
  lemma DrainedReceivesNothing(n: Nic, e: NicEvent, n': Nic)
    requires NicInv(n) && NicStep(n, e, n') && RxInFlight(n) == 0
    ensures !e.RxTake? && !e.RxDeliver? && (e.Receive? ==> e.frame == None) && RxInFlight(n') == 0
  {
    StepInFlight(n, e, n');
    hide NicInv;
  }

  // ---- The driver ----

  class VirtioNet {
    const rxQueue: Virtqueue
    const txQueue: Virtqueue
    var rxBuffers: seq<nat>
    var txInflight: seq<Option<nat>>
    /** DMA memory, by the address of the live buffer. */
    var memory: map<nat, seq<byte>>
    ghost var pending: seq<seq<byte>>
    /** How often physical memory had no buffer left. */
    ghost var denied: nat

    ghost function Contents(): Nic
      reads this, rxQueue, rxQueue.descs, rxQueue.availRing, rxQueue.usedRing
      reads txQueue, txQueue.descs, txQueue.availRing, txQueue.usedRing
    {
      Nic(rxQueue.Contents(), txQueue.Contents(), rxBuffers, txInflight, memory, pending)
    }

    /** The queues do not share memory. */
    ghost predicate Apart()
    {
      && rxQueue != txQueue && rxQueue.descs != txQueue.descs
      && rxQueue.availRing != txQueue.availRing && rxQueue.usedRing != txQueue.usedRing
    }

    ghost predicate Valid()
      reads this, rxQueue, rxQueue.descs, rxQueue.availRing, rxQueue.usedRing
      reads txQueue, txQueue.descs, txQueue.availRing, txQueue.usedRing
    {
      Apart() && rxQueue.Valid() && txQueue.Valid() && NicInv(Contents())
    }

    constructor (rxSize: nat, txSize: nat)
      requires SizeOk(rxSize) && SizeOk(txSize)
      ensures Apart() && rxQueue.Valid() && txQueue.Valid() && PoolFilled(Contents(), 0)
      ensures fresh(rxQueue) && fresh(rxQueue.descs) && fresh(rxQueue.availRing)
    {
      rxQueue := new Virtqueue(rxSize);
      txQueue := new Virtqueue(txSize);
      rxBuffers, txInflight, memory, pending, denied := [], [], map[], [], 0;
      new;
      NoPool(Contents(), rxSize, txSize);
    }

    /** A DMA buffer at an address of its own, or none. */
    method AllocBuffer() returns (r: Option<nat>)
      modifies this`denied
      ensures r.Some? ==> r.value !in memory && denied == old(denied)
      ensures r == None ==> denied == old(denied) + 1
    {
      if * {
        denied := denied + 1;
        return None;
      }
      var addr := 0;
      ghost var left := memory.Keys;
      while addr in memory
        invariant denied == old(denied)
        invariant forall a: nat :: a in left <==> a in memory && a >= addr
        decreases |left|
      {
        left := left - {addr};
        addr := addr + 1;
      }
      return Some(addr);
    }

    /** Post the pool of receive buffers, unless memory runs out; the queue may be too small to take them all. */
    method FillRxPool() returns (ok: bool)
      requires Apart() && rxQueue.Valid() && txQueue.Valid() && PoolFilled(Contents(), 0)
      modifies this, rxQueue, rxQueue.descs, rxQueue.availRing
      ensures ok <==> denied == old(denied)
      ensures ok ==> Valid() && pending == [] && |rxBuffers| == RX_POOL_SIZE
    {
      hide PoolFilled, Inv, QueueStep, NicInv;
      for i := 0 to RX_POOL_SIZE
        invariant Apart() && rxQueue.Valid() && txQueue.Valid() && PoolFilled(Contents(), i) && denied == old(denied)
      {
        ghost var n := Contents();
        var phys := AllocBuffer();
        if phys == None {
          return false;
        }
        memory := memory[phys.value := Zeros(RX_BUF_SIZE)];
        var idx := rxQueue.AddBuf(phys.value, RX_BUF_SIZE, true);
        rxBuffers := rxBuffers + [phys.value];
        assert txQueue.Contents() == n.tx;
        PoolGrows(n, Contents(), i, phys.value, idx);
      }
      FilledIsValid(Contents(), RX_POOL_SIZE);
      return true;
    }

    /** Drop the buffers of completed transmissions. */
    method ReclaimTxBuffers()
      requires Valid()
      modifies this`txInflight, this`memory, txQueue, txQueue.descs
      ensures Valid() && Contents() == ReclaimedAll(old(Contents()))
    {
      hide NicInv, Inv, QueueStep, Reclaimed;
      ghost var n := Contents();
      var more := true;
      while more
        invariant Valid() && ReclaimedAll(Contents()) == ReclaimedAll(n)
        invariant !more ==> txQueue.returned == []
        decreases |txQueue.returned|, more
      {
        more := ReclaimOne();
      }
    }

    method ReclaimOne() returns (some: bool)
      requires Valid()
      modifies this`txInflight, this`memory, txQueue, txQueue.descs
      ensures Valid() && (some <==> old(txQueue.returned) != [])
      ensures !some ==> Contents() == old(Contents())
      ensures some ==> |txQueue.returned| < |old(txQueue.returned)| && ReclaimedAll(Contents()) == ReclaimedAll(old(Contents()))
    {
      hide NicInv, Inv, Polled, ReclaimedAll;
      ghost var n := Contents();
      QueuesOk(n);
      PollSeesIff(n.tx);
      var r := txQueue.PollUsed();
      assert rxQueue.Contents() == n.rx;
      if r == None {
        assert Contents() == n;
        return false;
      }
      ReclaimKeepsInv(n);
      var d := r.value.id;
      if d < |txInflight| {
        if txInflight[d].Some? {
          memory := memory - {txInflight[d].value};
        }
        txInflight := txInflight[d := None];
      }
      assert Contents() == Reclaimed(n);
      OneReclaimed(n);
      return true;
    }

    /** Send one frame, with a header that asks for no offload. */
    method Transmit(frame: seq<byte>) returns (r: TransmitResult)
      requires Valid()
      modifies this`txInflight, this`memory, this`denied, txQueue, txQueue.descs, txQueue.availRing
      ensures r == OutOfMemory <==> denied != old(denied)
      ensures Valid() && TransmitStep(old(Contents()), Contents(), frame, r)
    {
      hide NicInv, Inv, ReclaimedAll, Added;
      ghost var n := Contents();
      ReclaimTxBuffers();
      ghost var n1 := Contents();
      QueuesOk(n1);
      var phys := AllocBuffer();
      if phys == None {
        return OutOfMemory;
      }
      var idx := txQueue.AddBuf(phys.value, NET_HDR_SIZE + |frame|, false);
      assert rxQueue.Contents() == n1.rx;
      if idx == None {
        assert Contents() == n1;
        return QueueFull;
      }
      QueuedKeepsInv(n1, phys.value, frame);
      memory := memory[phys.value := Zeros(NET_HDR_SIZE) + frame];
      txInflight := Padded(txInflight, idx.value + 1)[idx.value := phys];
      assert Contents() == Queued(n1, phys.value, frame);
      return Sent;
    }

    /** The next received frame without its header; none also for a runt, whose buffer is not offered again. */
    method Receive() returns (frame: Option<seq<byte>>)
      requires Valid()
      modifies this`pending, rxQueue, rxQueue.descs, rxQueue.availRing
      ensures Valid() && ReceiveStep(old(Contents()), Contents(), frame)
    {
      hide NicInv, Inv, Added, Polled;
      ghost var n := Contents();
      QueuesOk(n);
      PollSeesIff(n.rx);
      var r := rxQueue.PollUsed();
      assert txQueue.Contents() == n.tx;
      if r == None {
        assert Contents() == n;
        return None;
      }
      PolledIsNext(n.rx);
      FirstPending(n);
      frame := Repost(r.value);
      ReceiveKeepsInv(n, Contents(), frame);
    }

    method Repost(e: UsedElem) returns (frame: Option<seq<byte>>)
      requires Apart() && rxQueue.Valid() && txQueue.Valid() && pending != [] && Delivered(Contents(), e, pending[0])
      requires rxQueue.numFree > 0
      modifies this`pending, rxQueue, rxQueue.descs, rxQueue.availRing
      ensures rxQueue.Valid() && txQueue.Valid() && pending == old(pending[1..])
      ensures if e.len > NET_HDR_SIZE
              then QueueStep(old(rxQueue.Contents()), Add(rxBuffers[e.id], RX_BUF_SIZE, true, Some(old(rxQueue.freeHead))), rxQueue.Contents())
                   && frame == Some(old(pending[0])[NET_HDR_SIZE..])
              else rxQueue.Contents() == old(rxQueue.Contents()) && frame == None
      ensures txQueue.Contents() == old(txQueue.Contents())
    {
      hide Inv, Added;
      frame := None;
      if e.id < |rxBuffers| && e.len > NET_HDR_SIZE {
        var buf := memory[rxBuffers[e.id]];
        assert buf[NET_HDR_SIZE..e.len] == buf[..e.len][NET_HDR_SIZE..];
        frame := Some(buf[NET_HDR_SIZE..e.len]);
        var idx := rxQueue.AddBuf(rxBuffers[e.id], RX_BUF_SIZE, true);
      }
      pending := pending[1..];
    }
  }

  // ---- Facts the driver uses ----

  lemma QueuesOk(n: Nic)
    requires NicInv(n)
    ensures Inv(n.rx) && Inv(n.tx) && 0 < n.tx.Size() == |n.tx.avail| == |n.tx.used| && 0 < n.rx.Size() == |n.rx.avail| == |n.rx.used|
  {
  }

  lemma FirstPending(n: Nic)
    requires NicInv(n) && n.rx.returned != []
    ensures n.pending != [] && Delivered(n, n.rx.returned[0], n.pending[0])
  {
  }

  lemma OneReclaimed(n: Nic)
    requires NicInv(n) && n.tx.returned != []
    requires 0 < n.tx.Size() == |n.tx.used| && n.tx.used[n.tx.lastUsedIdx % n.tx.Size()].id < n.tx.Size() && NicInv(Reclaimed(n))
    ensures ReclaimedAll(n) == ReclaimedAll(Reclaimed(n))
  {
  }

  /** Receive buffers posted so far: as many as fit the queue, in descriptor order. */
  ghost predicate PoolFilled(n: Nic, k: nat) {
    && Inv(n.rx) && n.rx.device == multiset{} && n.rx.returned == [] && |n.rxBuffers| == k && RxOk(n)
    && (forall j :: 0 <= j < |n.rx.free| ==> n.rx.free[j] == n.rx.Size() - |n.rx.free| + j)
    && |n.rx.free| == (if k < n.rx.Size() then n.rx.Size() - k else 0)
    && Inv(n.tx) && n.tx.offered == [] && n.tx.device == multiset{} && n.tx.returned == []
    && n.txInflight == [] && n.pending == []
  }

  lemma NoPool(n: Nic, rxSize: nat, txSize: nat)
    requires SizeOk(rxSize) && SizeOk(txSize) && n.rx == FreshQueue(rxSize) && n.tx == FreshQueue(txSize)
    requires n.rxBuffers == [] && n.txInflight == [] && n.pending == []
    ensures PoolFilled(n, 0)
  {
    FreshQueueOk(rxSize);
    FreshQueueOk(txSize);
  }

  lemma PoolGrows(n: Nic, n': Nic, k: nat, addr: nat, idx: Option<nat>)
    requires PoolFilled(n, k) && addr !in n.memory && QueueStep(n.rx, Add(addr, RX_BUF_SIZE, true, idx), n'.rx)
    requires n' == n.(rx := n'.rx, rxBuffers := n.rxBuffers + [addr], memory := n.memory[addr := Zeros(RX_BUF_SIZE)])
    ensures PoolFilled(n', k + 1)
  {
    hide Added, RingsOk, HistoryOk, CountersOk, Partition, Ids, Padded;
    if n.rx.numFree > 0 {
      AddInFlight(n.rx, addr, RX_BUF_SIZE, true);
      AddKeepsInv(n.rx, addr, RX_BUF_SIZE, true);
      AddedDescs(n.rx, addr, RX_BUF_SIZE, true);
      AddedFree(n.rx, addr, RX_BUF_SIZE, true);
      FreeHeadOk(n.rx);
      assert n.rx.freeHead == k;
      hide Inv, InFlight;
      PoolBufferPosted(n, n', k, addr);
    } else {
      hide Inv, InFlight;
      PoolBufferSpare(n, n', k, addr);
    }
  }

  lemma PoolBufferPosted(n: Nic, n': Nic, k: nat, addr: nat)
    requires RxOk(n) && |n.rxBuffers| == k && addr !in n.memory && k < n.rx.Size() == n'.rx.Size()
    requires forall d: nat :: InFlight(n'.rx, d) <==> InFlight(n.rx, d) || d == k
    requires n'.rx.descs[k].addr == addr && n'.rx.descs[k].len == RX_BUF_SIZE && n'.rx.descs[k].flags == VIRTQ_DESC_F_WRITE
    requires forall d :: 0 <= d < n.rx.Size() && d != k ==> n'.rx.descs[d] == n.rx.descs[d]
    requires n' == n.(rx := n'.rx, rxBuffers := n.rxBuffers + [addr], memory := n.memory[addr := Zeros(RX_BUF_SIZE)])
    ensures RxOk(n')
  {
    hide InFlight;
  }

  lemma PoolBufferSpare(n: Nic, n': Nic, k: nat, addr: nat)
    requires RxOk(n) && |n.rxBuffers| == k && addr !in n.memory
    requires n' == n.(rxBuffers := n.rxBuffers + [addr], memory := n.memory[addr := Zeros(RX_BUF_SIZE)])
    ensures RxOk(n')
  {
    hide InFlight;
  }

  lemma AddedFree(q: Vq, addr: nat, len: nat, writable: bool)
    requires q.free != [] && q.freeHead < q.Size() && 0 < q.Size() == |q.avail| && q.numFree > 0
    ensures var q' := Added(q, addr, len, writable); q'.free == q.free[1..] && q'.device == q.device && q'.returned == q.returned
  {
  }

  lemma FilledIsValid(n: Nic, k: nat)
    requires PoolFilled(n, k)
    ensures NicInv(n) && n.pending == [] && |n.rxBuffers| == k
  {
    hide Inv;
  }
}
