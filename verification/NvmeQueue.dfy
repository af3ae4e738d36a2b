/** The NVMe queue pair: submission ring, completion ring and phase bit, driven together with a
    conforming device (section 4.6 of NVM Express 1.4), and the driver's one-command-at-a-time use of it. */
module NvmeQueues {
  import opened Bits
  import opened Rings

  datatype Option<T> = None | Some(value: T)

  datatype Command = Command(cdw0: nat, body: nat)
  datatype Completion = Completion(cid: nat, status: nat, phase: bool)

  /** What a completion means, without the phase. */
  datatype Outcome = Outcome(cid: nat, status: nat)

  /** The rings, the driver's fields, the device's own counters, and what happened: commands submitted,
      how many the device has fetched, outcomes it has posted, how many the driver has consumed. */
  datatype Pair = Pair(
    sq: seq<Command>, cq: seq<Completion>, sqTail: nat, cqHead: nat, cqPhase: bool, nextCid: nat,
    submitted: seq<Command>, fetched: nat, posted: seq<Outcome>, consumed: nat)
  {
    function Size(): nat { |cq| }
  }

  // ---- Laps ----

  /** The phase of the `n`th completion: true on the first lap, then alternating. */
  function PhaseOf(n: nat, size: nat): bool
    requires size > 0
  {
    (n / size) % 2 == 0
  }

  lemma NextSlot(n: nat, size: nat)
    requires size > 0
    ensures (Slot(n, size) + 1) % size == Slot(n + 1, size)
    ensures Slot(n + 1, size) == 0 <==> PhaseOf(n + 1, size) != PhaseOf(n, size)
  {
    var q, r := n / size, n % size;
    assert n == q * size + r;
    if r + 1 == size {
      assert (q + 1) * size == q * size + size;
      DivModUnique(n + 1, size, q + 1, 0);
    } else {
      DivModUnique(n + 1, size, q, r + 1);
    }
    Below(r + 1, size);
  }

  lemma Below(r: nat, size: nat)
    requires size > 0 && r <= size
    ensures r % size == if r == size then 0 else r
  {
  }

  lemma NextLap(n: nat, size: nat)
    requires size > 0
    ensures Slot(n + size, size) == Slot(n, size) && PhaseOf(n + size, size) != PhaseOf(n, size)
  {
    var q, r := n / size, n % size;
    assert n == q * size + r && (q + 1) * size == q * size + size;
    DivModUnique(n + size, size, q + 1, r);
  }

  // ---- The invariant ----

  /** The slot of entry `n` holds a completion of this lap exactly if one has been posted. */
  ghost predicate EntryOk(p: Pair, n: nat) {
    && p.Size() > 0
    && var e := p.cq[Slot(n, p.Size())];
    if n < |p.posted| then e == Completion(p.posted[n].cid, p.posted[n].status, PhaseOf(n, p.Size()))
    else e.phase != PhaseOf(n, p.Size())
  }

  ghost predicate CqOk(p: Pair) {
    && p.Size() > 0
    && p.consumed <= |p.posted| <= p.consumed + p.Size()
    && p.cqHead == Slot(p.consumed, p.Size()) && p.cqPhase == PhaseOf(p.consumed, p.Size())
    && forall n: nat :: p.consumed <= n < p.consumed + p.Size() ==> EntryOk(p, n)
  }

  ghost predicate SqOk(p: Pair) {
    && |p.sq| == p.Size() > 0 && p.fetched <= |p.submitted| <= p.fetched + p.Size()
    && p.sqTail == Slot(|p.submitted|, p.Size()) && p.nextCid == Cid(|p.submitted|)
    && RingHolds(p.sq, p.fetched, p.submitted[p.fetched..])
    && forall i :: 0 <= i < |p.submitted| ==> CidOf(p.submitted[i]) == Cid(i)
  }

  ghost predicate Inv(p: Pair) {
    CqOk(p) && SqOk(p)
  }

  /** Command identifiers count in 16 bits. */
  function Cid(n: nat): nat {
    n % 65536
  }

  function CidOf(c: Command): nat {
    c.cdw0 / 65536
  }

  // ---- Steps ----

  /** `(cdw0 & 0xFFFF) | (cid << 16)`, then the entry goes to the tail. */
  function WithCid(c: Command, cid: nat): Command {
    c.(cdw0 := c.cdw0 % 65536 + cid * 65536)
  }

  function Submitted(p: Pair, c: Command): Pair
    requires |p.sq| == p.Size() > 0 && p.sqTail < p.Size()
  {
    var entry := WithCid(c, p.nextCid);
    p.(sq := p.sq[p.sqTail := entry], sqTail := (p.sqTail + 1) % p.Size(), nextCid := Cid(p.nextCid + 1),
       submitted := p.submitted + [entry])
  }

  function Consumed(p: Pair): Pair
    requires p.Size() > 0
  {
    var head := (p.cqHead + 1) % p.Size();
    p.(cqHead := head, cqPhase := if head == 0 then !p.cqPhase else p.cqPhase, consumed := p.consumed + 1)
  }

  /** `poll_completion`: the status of the entry at the head if its phase is the expected one. */
  ghost predicate PollStep(p: Pair, p': Pair, r: Option<nat>) {
    && p.Size() > 0 && p.cqHead < p.Size()
    && if p.cq[p.cqHead].phase == p.cqPhase then p' == Consumed(p) && r == Some(p.cq[p.cqHead].status)
       else p' == p && r == None
  }

  /** The device fetches the next command it has been told of. */
  ghost predicate FetchStep(p: Pair, p': Pair, c: Command) {
    && |p.sq| == p.Size() > 0 && p.fetched < |p.submitted|
    && c == p.sq[Slot(p.fetched, p.Size())] && p' == p.(fetched := p.fetched + 1)
  }

  /** The device posts a completion into the next slot, with the phase of its lap; there must be room. */
  ghost predicate PostStep(p: Pair, p': Pair, o: Outcome) {
    && p.Size() > 0 && |p.posted| < p.consumed + p.Size()
    && var n := |p.posted|;
    p' == p.(cq := p.cq[Slot(n, p.Size()) := Completion(o.cid, o.status, PhaseOf(n, p.Size()))], posted := p.posted + [o])
  }

  // ---- Every step keeps the invariant; polling sees exactly what was posted ----

  lemma PollIsExact(p: Pair, p': Pair, r: Option<nat>)
    requires Inv(p) && PollStep(p, p', r)
    ensures Inv(p')
    ensures r == None <==> p.consumed == |p.posted|
    ensures r != None ==> p.consumed < |p.posted| && r == Some(p.posted[p.consumed].status) && p'.consumed == p.consumed + 1
    ensures p'.posted == p.posted && p'.submitted == p.submitted && p'.fetched == p.fetched
  {
    hide Slot, PhaseOf, RingHolds;
    assert EntryOk(p, p.consumed);
    if r != None {
      NextSlot(p.consumed, p.Size());
      NextLap(p.consumed, p.Size());
      forall n: nat | p'.consumed <= n < p'.consumed + p'.Size()
        ensures EntryOk(p', n)
      {
        if n < p.consumed + p.Size() {
          assert EntryOk(p, n);
        } else {
          assert n == p.consumed + p.Size();
        }
      }
    }
  }

  lemma PostKeepsInv(p: Pair, p': Pair, o: Outcome)
    requires Inv(p) && PostStep(p, p', o)
    ensures Inv(p')
  {
    hide Slot, PhaseOf, RingHolds;
    var m := |p.posted|;
    forall n: nat | p'.consumed <= n < p'.consumed + p'.Size()
      ensures EntryOk(p', n)
    {
      assert EntryOk(p, n);
      if n < m {
        SlotsDiffer(n, m, p.Size());
      } else if n > m {
        SlotsDiffer(m, n, p.Size());
      }
    }
  }

  lemma SubmitKeepsInv(p: Pair, c: Command)
    requires Inv(p) && |p.submitted| < p.fetched + p.Size()
    ensures Inv(Submitted(p, c))
  {
    SubmitKeepsSq(p, c);
    SubmitKeepsCq(p, c);
  }

  lemma SubmitKeepsSq(p: Pair, c: Command)
    requires Inv(p) && |p.submitted| < p.fetched + p.Size()
    ensures SqOk(Submitted(p, c))
  {
    hide PhaseOf, RingHolds, Slot, CqOk, EntryOk, WithCid, CidOf, Cid;
    var entry := WithCid(c, p.nextCid);
    NextSlot(|p.submitted|, p.Size());
    NextCid(|p.submitted|);
    CidOfNumbered(c, p.nextCid);
    RingPush(p.sq, p.fetched, p.submitted[p.fetched..], entry);
    var p' := Submitted(p, c);
    assert p'.submitted[p'.fetched..] == p.submitted[p.fetched..] + [entry];
  }

  lemma NextCid(n: nat)
    ensures Cid(Cid(n) + 1) == Cid(n + 1)
  {
  }

  lemma CidOfNumbered(c: Command, cid: nat)
    ensures CidOf(WithCid(c, cid)) == cid
  {
    DivModUnique(c.cdw0 % 65536 + cid * 65536, 65536, cid, c.cdw0 % 65536);
  }

  lemma SubmitKeepsCq(p: Pair, c: Command)
    requires Inv(p) && |p.submitted| < p.fetched + p.Size() && p.sqTail < p.Size()
    ensures CqOk(Submitted(p, c))
  {
    hide PhaseOf, Slot, RingHolds;
    var p' := Submitted(p, c);
    forall n: nat | p.consumed <= n < p.consumed + p.Size()
      ensures EntryOk(p', n)
    {
      assert EntryOk(p, n);
    }
  }

  lemma FetchIsExact(p: Pair, p': Pair, c: Command)
    requires Inv(p) && FetchStep(p, p', c)
    ensures Inv(p') && c == p.submitted[p.fetched]
  {
    hide PhaseOf, Slot;
    RingPop(p.sq, p.fetched, p.submitted[p.fetched..]);
    assert p.submitted[p.fetched..][1..] == p'.submitted[p'.fetched..];
    forall n: nat | p.consumed <= n < p.consumed + p.Size()
      ensures EntryOk(p', n)
    {
      assert EntryOk(p, n);
    }
  }

  // ---- Runs of the queue ----

  datatype PairEvent =
    | Submit(c: Command)
    | Poll(seen: Option<nat>)
    | Fetch(fetched: Command)
    | Post(o: Outcome)

  /** The submission queue is not overrun; the device fetches and posts as it likes within the ring. */
  ghost predicate PairStep(p: Pair, e: PairEvent, p': Pair) {
    match e
    case Submit(c) =>
      && |p.sq| == p.Size() > 0 && p.sqTail < p.Size() && |p.submitted| < p.fetched + p.Size() && p' == Submitted(p, c)
    case Poll(seen) => PollStep(p, p', seen)
    case Fetch(c) => FetchStep(p, p', c)
    case Post(o) => PostStep(p, p', o)
  }

  ghost predicate PairRun(states: seq<Pair>, events: seq<PairEvent>) {
    && |states| == |events| + 1
    && forall i :: 0 <= i < |events| ==> PairStep(states[i], events[i], states[i + 1])
  }

  function FreshPair(size: nat): Pair {
    Pair(seq(size, _ => Command(0, 0)), seq(size, _ => Completion(0, 0, false)), 0, 0, true, 0, [], 0, [], 0)
  }

  lemma FreshPairOk(size: nat)
    requires size > 0
    ensures Inv(FreshPair(size))
  {
    var p := FreshPair(size);
    forall n: nat | n < size
      ensures EntryOk(p, n)
    {
      DivModUnique(n, size, 0, n);
    }
  }

  function StatusesSeen(events: seq<PairEvent>): seq<nat> {
    if events == [] then []
    else
      var e := events[|events| - 1];
      StatusesSeen(events[..|events| - 1]) + if e.Poll? && e.seen.Some? then [e.seen.value] else []
  }

  function CommandsFetched(events: seq<PairEvent>): seq<Command> {
    if events == [] then []
    else
      var e := events[|events| - 1];
      CommandsFetched(events[..|events| - 1]) + if e.Fetch? then [e.fetched] else []
  }

  function Statuses(posted: seq<Outcome>): (s: seq<nat>)
    ensures |s| == |posted| && forall i :: 0 <= i < |s| ==> s[i] == posted[i].status
  {
    seq(|posted|, i requires 0 <= i < |posted| => posted[i].status)
  }

  /** Over any number of laps: the polls return exactly the posted completions, once each and in order,
      and the device fetches exactly the submitted commands, in order. */
  lemma {:induction false} RunIsExact(size: nat, states: seq<Pair>, events: seq<PairEvent>)
    requires size > 0 && PairRun(states, events) && states[0] == FreshPair(size)
    ensures var p := states[|events|];
            && Inv(p) && StatusesSeen(events) == Statuses(p.posted)[..p.consumed]
            && CommandsFetched(events) == p.submitted[..p.fetched]
  {
    var n := |events|;
    if n == 0 {
      FreshPairOk(size);
    } else {
      RunIsExact(size, states[..n], events[..n - 1]);
      StepIsExact(states[n - 1], events[n - 1], states[n]);
    }
  }

  lemma StepIsExact(p: Pair, e: PairEvent, p': Pair)
    requires Inv(p) && PairStep(p, e, p')
    ensures Inv(p') && p.fetched <= |p.submitted| && p'.fetched <= |p'.submitted|
    ensures Statuses(p'.posted)[..p'.consumed]
            == Statuses(p.posted)[..p.consumed] + if e.Poll? && e.seen.Some? then [e.seen.value] else []
    ensures p'.submitted[..p'.fetched] == p.submitted[..p.fetched] + if e.Fetch? then [e.fetched] else []
  {
    match e {
      case Submit(c) => SubmitKeepsInv(p, c);
      case Poll(seen) => PollIsExact(p, p', seen);
      case Fetch(c) => FetchIsExact(p, p', c);
      case Post(o) => PostKeepsInv(p, p', o);
    }
  }

  /** The commands the driver was asked to submit. */
  function Issued(events: seq<PairEvent>): seq<Command> {
    if events == [] then []
    else
      var e := events[|events| - 1];
      Issued(events[..|events| - 1]) + if e.Submit? then [e.c] else []
  }

  /** An entry of the submission queue carries the command, and the identifier where the upper half of its first word was. */
  predicate Carries(entry: Command, c: Command, cid: nat) {
    entry.body == c.body && entry.cdw0 % 65536 == c.cdw0 % 65536 && CidOf(entry) == cid
  }

  lemma Numbered(c: Command, cid: nat)
    ensures Carries(WithCid(c, cid), c, cid)
  {
    DivModUnique(c.cdw0 % 65536 + cid * 65536, 65536, cid, c.cdw0 % 65536);
  }

  lemma {:induction false} SubmittedAreIssued(size: nat, states: seq<Pair>, events: seq<PairEvent>)
    requires size > 0 && PairRun(states, events) && states[0] == FreshPair(size)
    ensures var p := states[|events|];
            |p.submitted| == |Issued(events)| && forall i :: 0 <= i < |p.submitted| ==> Carries(p.submitted[i], Issued(events)[i], Cid(i))
  {
    var n := |events|;
    if n > 0 {
      hide Carries, WithCid, Inv, RingHolds, FreshPair;
      SubmittedAreIssued(size, states[..n], events[..n - 1]);
      RunIsExact(size, states[..n], events[..n - 1]);
      NextCidOf(states[n - 1]);
      var e := events[n - 1];
      assert PairStep(states[n - 1], e, states[n]);
      if e.Submit? {
        Numbered(e.c, states[n - 1].nextCid);
      }
    }
  }

  lemma NextCidOf(p: Pair)
    requires Inv(p)
    ensures p.nextCid == Cid(|p.submitted|) && p.fetched <= |p.submitted|
  {
  }

  /** Over any number of laps the device fetches the issued commands in order, each with its opcode, flags and body
      as issued and with the next identifier. */
  lemma CommandsArrive(size: nat, states: seq<Pair>, events: seq<PairEvent>)
    requires size > 0 && PairRun(states, events) && states[0] == FreshPair(size)
    ensures var fetched, issued := CommandsFetched(events), Issued(events);
            |fetched| <= |issued| && forall i :: 0 <= i < |fetched| ==> Carries(fetched[i], issued[i], Cid(i))
  {
    RunIsExact(size, states, events);
    SubmittedAreIssued(size, states, events);
    NextCidOf(states[|events|]);
    hide Carries, Inv, Issued, CommandsFetched, FreshPair;
  }

  // ---- One command at a time ----

  /** The driver waits for each command before it submits the next (`waiting`). Commands are known by their
      position in `submitted`, which tells them apart when identifiers repeat: the device answers only
      commands it has fetched and not answered, `open`; `answered` says which command each posted completion
      is for. */
  datatype Driver = Driver(pair: Pair, waiting: bool, open: set<nat>, answered: seq<nat>)

  datatype DriverEvent =
    | Issue(c: Command)
    | Got(status: nat)
    | TimedOut
    | DeviceFetches(c: Command)
    | DeviceAnswers(k: nat, o: Outcome)

  ghost predicate DriverStep(d: Driver, e: DriverEvent, d': Driver) {
    match e
    case Issue(c) => !d.waiting && PairStep(d.pair, Submit(c), d'.pair) && d' == d.(pair := d'.pair, waiting := true)
    case Got(status) => d.waiting && PollStep(d.pair, d'.pair, Some(status)) && d' == d.(pair := d'.pair, waiting := false)
    case TimedOut => d.waiting && d' == d.(waiting := false)
    case DeviceFetches(c) =>
      FetchStep(d.pair, d'.pair, c) && d' == d.(pair := d'.pair, open := d.open + {d.pair.fetched})
    case DeviceAnswers(k, o) =>
      && k in d.open && k < |d.pair.submitted| && o.cid == CidOf(d.pair.submitted[k])
      && PostStep(d.pair, d'.pair, o) && d' == d.(pair := d'.pair, open := d.open - {k}, answered := d.answered + [k])
  }

  /** Before the first command. */
  function FreshDriver(size: nat): Driver {
    Driver(FreshPair(size), false, {}, [])
  }

  ghost predicate DriverRun(states: seq<Driver>, events: seq<DriverEvent>) {
    && |states| == |events| + 1
    && forall i :: 0 <= i < |events| ==> DriverStep(states[i], events[i], states[i + 1])
  }

  /** What holds in every reachable state: answers are to commands that were fetched, and carry their identifiers. */
  ghost predicate DriverOk(d: Driver) {
    && Inv(d.pair)
    && (d.waiting ==> d.pair.submitted != [])
    && (forall k :: k in d.open ==> k < d.pair.fetched)
    && |d.answered| == |d.pair.posted|
    && forall i :: 0 <= i < |d.answered| ==>
         d.answered[i] < d.pair.fetched && d.pair.posted[i].cid == CidOf(d.pair.submitted[d.answered[i]])
  }

  lemma StepKeepsDriver(d: Driver, e: DriverEvent, d': Driver)
    requires DriverOk(d) && DriverStep(d, e, d')
    ensures DriverOk(d')
  {
    hide PhaseOf, Slot, RingHolds, EntryOk;
    match e {
      case Issue(c) => SubmitKeepsInv(d.pair, c);
      case Got(status) => PollIsExact(d.pair, d'.pair, Some(status));
      case TimedOut =>
      case DeviceFetches(c) => FetchIsExact(d.pair, d'.pair, c);
      case DeviceAnswers(k, o) => PostKeepsInv(d.pair, d'.pair, o);
    }
  }

  /** Every run, with time-outs or without. */
  lemma {:induction false} RunKeepsDriver(size: nat, states: seq<Driver>, events: seq<DriverEvent>, i: nat)
    requires size > 0 && DriverRun(states, events) && states[0] == FreshDriver(size) && i < |states|
    ensures DriverOk(states[i])
  {
    if i == 0 {
      FreshPairOk(size);
    } else {
      RunKeepsDriver(size, states, events, i - 1);
      StepKeepsDriver(states[i - 1], events[i - 1], states[i]);
    }
  }

  /** Nothing is outstanding: every command was fetched and answered, and every answer consumed. */
  ghost predicate Idle(d: Driver) {
    d.pair.fetched == |d.pair.submitted| && |d.pair.posted| == d.pair.consumed && d.open == {}
  }

  /** At most one command is under way, and it is the one whose answer is awaited. */
  ghost predicate InStep(d: Driver) {
    && DriverOk(d)
    && var p := d.pair;
    var n := |p.submitted|;
    if !d.waiting then Idle(d)
    else
      || (p.fetched == n - 1 && |p.posted| == p.consumed && d.open == {})
      || (p.fetched == n && |p.posted| == p.consumed && d.open == {n - 1})
      || (p.fetched == n && |p.posted| == p.consumed + 1 && d.open == {} && d.answered[p.consumed] == n - 1)
  }

  /** The completion that the waiting driver takes is the one for the command it waits for. */
  ghost predicate TakesItsOwn(d: Driver, e: DriverEvent) {
    e.Got? ==>
      && d.pair.submitted != [] && d.pair.consumed < |d.pair.posted| && d.pair.consumed < |d.answered|
      && d.answered[d.pair.consumed] == |d.pair.submitted| - 1
      && d.pair.posted[d.pair.consumed] == Outcome(CidOf(d.pair.submitted[|d.pair.submitted| - 1]), e.status)
  }

  lemma DriverStaysInStep(d: Driver, e: DriverEvent, d': Driver)
    requires InStep(d) && DriverStep(d, e, d') && e != TimedOut
    ensures InStep(d') && TakesItsOwn(d, e)
  {
    StepKeepsDriver(d, e, d');
    hide PhaseOf, Slot, RingHolds, EntryOk;
    match e {
      case Issue(c) =>
      case Got(status) => PollIsExact(d.pair, d'.pair, Some(status));
      case DeviceFetches(c) =>
      case DeviceAnswers(k, o) =>
    }
  }

  /** A run from `d` on in which no command times out. */
  ghost predicate Continues(d: Driver, states: seq<Driver>, events: seq<DriverEvent>) {
    DriverRun(states, events) && states[0] == d && TimedOut !in events
  }

  lemma {:induction false} StaysInStep(d: Driver, states: seq<Driver>, events: seq<DriverEvent>, i: nat)
    requires InStep(d) && Continues(d, states, events) && i < |states|
    ensures InStep(states[i]) && (i < |events| ==> TakesItsOwn(states[i], events[i]))
  {
    hide InStep, DriverStep, TakesItsOwn;
    if i > 0 {
      StaysInStep(d, states, events, i - 1);
      DriverStaysInStep(states[i - 1], events[i - 1], states[i]);
    }
    if i < |events| {
      DriverStaysInStep(states[i], events[i], states[i + 1]);
    }
  }

  /** In a run without time-outs every command gets its own completion. */
  lemma EachCommandGetsItsOwn(size: nat, states: seq<Driver>, events: seq<DriverEvent>, i: nat)
    requires size > 0 && Continues(FreshDriver(size), states, events) && i < |events|
    ensures TakesItsOwn(states[i], events[i])
  {
    FreshPairOk(size);
    StaysInStep(FreshDriver(size), states, events, i);
  }

  /** Exactly when a driver that is not waiting can go on: from now on every command is given its own completion,
      whatever the device does, if and only if nothing is outstanding. */
  lemma OwnAnswersIffIdle(d: Driver)
    requires DriverOk(d) && !d.waiting
    ensures (forall states, events, i :: Continues(d, states, events) && 0 <= i < |events| ==> TakesItsOwn(states[i], events[i]))
            <==> Idle(d)
  {
    hide DriverOk, TakesItsOwn, DriverStep;
    if Idle(d) {
      forall states, events, i | Continues(d, states, events) && 0 <= i < |events|
        ensures TakesItsOwn(states[i], events[i])
      {
        IdleIsInStep(d);
        StaysInStep(d, states, events, i);
      }
    } else {
      var states, events := StrayAnswer(d);
      assert !TakesItsOwn(states[|events| - 1], events[|events| - 1]);
    }
  }

  lemma IdleIsInStep(d: Driver)
    requires DriverOk(d) && !d.waiting && Idle(d)
    ensures InStep(d)
  {
    hide DriverOk;
  }

  /** Something outstanding can be answered first: the run in which the next command gets that answer. */
  lemma StrayAnswer(d: Driver) returns (states: seq<Driver>, events: seq<DriverEvent>)
    requires DriverOk(d) && !d.waiting && !Idle(d)
    ensures Continues(d, states, events) && events != [] && |states| == |events| + 1
    ensures !TakesItsOwn(states[|events| - 1], events[|events| - 1])
  {
    hide DriverOk, DriverStep, TakesItsOwn, Continues;
    DriverBounds(d);
    NothingYet(d);
    states, events := [d], [];
    var d1 := d;
    if d.pair.fetched < |d.pair.submitted| {
      var c;
      d1, c := Fetches(d);
      states, events := Extend(d, states, events, DeviceFetches(c), d1);
    }
    DriverBounds(d1);
    var c := Command(0, 0);
    var d2 := Issues(d1, c);
    states, events := Extend(d, states, events, Issue(c), d2);
    var d3 := d2;
    if |d2.pair.posted| == d2.pair.consumed {
      var k :| k in d1.open;
      var o;
      d3, o := Answers(d2, k);
      states, events := Extend(d, states, events, DeviceAnswers(k, o), d3);
    }
    var d4, status := Takes(d3);
    NotItsOwn(d3, status);
    states, events := Extend(d, states, events, Got(status), d4);
  }

  lemma NotItsOwn(d: Driver, status: nat)
    requires d.pair.consumed < |d.answered| && d.answered[d.pair.consumed] < |d.pair.submitted| - 1
    ensures !TakesItsOwn(d, Got(status))
  {
  }

  lemma NothingYet(d: Driver)
    ensures Continues(d, [d], [])
  {
  }

  lemma DriverBounds(d: Driver)
    requires DriverOk(d)
    ensures 0 < d.pair.Size() && d.pair.fetched <= |d.pair.submitted| <= d.pair.fetched + d.pair.Size()
    ensures d.pair.consumed <= |d.pair.posted| == |d.answered|
    ensures forall i :: 0 <= i < |d.answered| ==> d.answered[i] < d.pair.fetched
    ensures forall k :: k in d.open ==> k < d.pair.fetched
  {
    hide PhaseOf, Slot, EntryOk;
  }

  lemma Fetches(d: Driver) returns (d': Driver, c: Command)
    requires DriverOk(d) && d.pair.fetched < |d.pair.submitted|
    ensures DriverStep(d, DeviceFetches(c), d') && DriverOk(d')
    ensures d'.waiting == d.waiting && d'.answered == d.answered && d'.open == d.open + {d.pair.fetched}
    ensures d'.pair.submitted == d.pair.submitted && d'.pair.fetched == d.pair.fetched + 1 && d'.pair.Size() == d.pair.Size()
    ensures d'.pair.posted == d.pair.posted && d'.pair.consumed == d.pair.consumed
  {
    hide PhaseOf, RingHolds, EntryOk;
    c := d.pair.sq[Slot(d.pair.fetched, d.pair.Size())];
    d' := d.(pair := d.pair.(fetched := d.pair.fetched + 1), open := d.open + {d.pair.fetched});
    StepKeepsDriver(d, DeviceFetches(c), d');
  }

  lemma Issues(d: Driver, c: Command) returns (d': Driver)
    requires DriverOk(d) && !d.waiting && |d.pair.submitted| < d.pair.fetched + d.pair.Size()
    ensures DriverStep(d, Issue(c), d') && DriverOk(d') && d'.waiting
    ensures d'.answered == d.answered && d'.open == d.open && d'.pair.Size() == d.pair.Size()
    ensures |d'.pair.submitted| == |d.pair.submitted| + 1 && d'.pair.fetched == d.pair.fetched
    ensures d'.pair.posted == d.pair.posted && d'.pair.consumed == d.pair.consumed
  {
    hide PhaseOf, RingHolds, EntryOk;
    d' := d.(pair := Submitted(d.pair, c), waiting := true);
    StepKeepsDriver(d, Issue(c), d');
  }

  lemma Answers(d: Driver, k: nat) returns (d': Driver, o: Outcome)
    requires DriverOk(d) && k in d.open && |d.pair.posted| == d.pair.consumed
    ensures DriverStep(d, DeviceAnswers(k, o), d') && DriverOk(d') && d'.waiting == d.waiting
    ensures d'.answered == d.answered + [k] && d'.pair.submitted == d.pair.submitted
    ensures |d'.pair.posted| == |d.pair.posted| + 1 && d'.pair.consumed == d.pair.consumed
  {
    hide PhaseOf, RingHolds, EntryOk;
    o := Outcome(CidOf(d.pair.submitted[k]), 0);
    var p, n := d.pair, |d.pair.posted|;
    var p' := p.(cq := p.cq[Slot(n, p.Size()) := Completion(o.cid, o.status, PhaseOf(n, p.Size()))], posted := p.posted + [o]);
    d' := d.(pair := p', open := d.open - {k}, answered := d.answered + [k]);
    StepKeepsDriver(d, DeviceAnswers(k, o), d');
  }

  lemma Takes(d: Driver) returns (d': Driver, status: nat)
    requires DriverOk(d) && d.waiting && d.pair.consumed < |d.pair.posted|
    ensures DriverStep(d, Got(status), d')
  {
    hide PhaseOf, RingHolds;
    assert EntryOk(d.pair, d.pair.consumed);
    status := d.pair.cq[d.pair.cqHead].status;
    d' := d.(pair := Consumed(d.pair), waiting := false);
  }

  lemma Extend(d: Driver, states: seq<Driver>, events: seq<DriverEvent>, e: DriverEvent, d': Driver)
    returns (states': seq<Driver>, events': seq<DriverEvent>)
    requires Continues(d, states, events) && |states| == |events| + 1 && DriverStep(states[|states| - 1], e, d') && e != TimedOut
    ensures states' == states + [d'] && events' == events + [e] && Continues(d, states', events')
  {
    hide DriverStep;
    states', events' := states + [d'], events + [e];
    forall i | 0 <= i < |events'|
      ensures DriverStep(states'[i], events'[i], states'[i + 1])
    {
      if i < |events| {
        assert DriverStep(states[i], events[i], states[i + 1]);
      }
    }
  }

  /** A time-out leaves something outstanding, and then the next command can be given the late answer: for any
      two commands, from a new queue. */
  lemma TimeoutMixesAnswers(size: nat, a: Command, b: Command) returns (states: seq<Driver>, events: seq<DriverEvent>)
    requires size >= 2
    ensures DriverRun(states, events) && states[0] == FreshDriver(size) && |events| == 6
    ensures events[0] == Issue(a) && events[2] == TimedOut && events[3] == Issue(b) && events[5].Got?
    ensures !TakesItsOwn(states[5], events[5])
  {
    hide DriverOk, DriverStep, TakesItsOwn;
    var d0 := FreshDriver(size);
    RunKeepsDriver(size, [d0], [], 0);
    var d1 := Issues(d0, a);
    var d2, c := Fetches(d1);
    var d3 := d2.(waiting := false);
    TimesOut(d2, d3);
    var d4 := Issues(d3, b);
    var d5, o := Answers(d4, 0);
    var d6, status := Takes(d5);
    NotItsOwn(d5, status);
    states := [d0, d1, d2, d3, d4, d5, d6];
    events := [Issue(a), DeviceFetches(c), TimedOut, Issue(b), DeviceAnswers(0, o), Got(status)];
  }

  lemma TimesOut(d: Driver, d': Driver)
    requires DriverOk(d) && d.waiting && d' == d.(waiting := false)
    ensures DriverStep(d, TimedOut, d') && DriverOk(d')
  {
    StepKeepsDriver(d, TimedOut, d');
  }

  // ---- The bits of a completion ----

  /** Doubleword 3 of a completion as section 4.6 lays it out: identifier in bits 15:0, phase in bit 16,
      status in bits 31:17. */
  function Dw3(e: Completion): nat {
    e.cid + (if e.phase then 65536 else 0) + 131072 * e.status
  }

  /** What the driver reads out of it: phase from bit 0, status from bits 15:1, identifier from bits 31:16. */
  function DecodeDw3(dw3: nat): Completion {
    Completion(dw3 / 65536, (dw3 / 2) % 32768, dw3 % 2 == 1)
  }

  /** The driver's reading is right exactly for the entries on which both layouts happen to agree. */
  lemma DecodeIsRightIff(e: Completion)
    requires e.cid < 65536 && e.status < 32768
    ensures DecodeDw3(Dw3(e)) == e <==> e.cid == 2 * e.status + (if e.phase then 1 else 0)
    ensures DecodeDw3(Dw3(e)).phase == (e.cid % 2 == 1)
  {
    var bit := if e.phase then 1 else 0;
    Dw3Parts(e.cid, bit, e.status);
  }

  lemma Dw3Parts(cid: nat, bit: nat, status: nat)
    requires cid < 65536 && bit <= 1 && status < 32768
    ensures var dw3 := cid + 65536 * bit + 131072 * status;
            dw3 / 65536 == bit + 2 * status && dw3 % 2 == cid % 2 && (dw3 / 2) % 32768 == cid / 2
  {
    var dw3, high := cid + 65536 * bit + 131072 * status, bit + 2 * status;
    assert dw3 == 65536 * high + cid;
    assert dw3 / 2 == 32768 * high + cid / 2;
  }

  /** The entries of the last lap stay in the ring until they are overwritten; before the first lap it is zero. */
  ghost predicate Remembers(p: Pair) {
    && p.Size() > 0
    && (forall n: nat :: n < |p.posted| <= n + p.Size() ==>
          p.cq[Slot(n, p.Size())] == Completion(p.posted[n].cid, p.posted[n].status, PhaseOf(n, p.Size())))
    && forall n: nat :: |p.posted| <= n < p.Size() ==> p.cq[Slot(n, p.Size())] == Completion(0, 0, false)
  }

  lemma {:induction false} RunRemembers(size: nat, states: seq<Pair>, events: seq<PairEvent>, i: nat)
    requires size > 0 && PairRun(states, events) && states[0] == FreshPair(size) && i < |states|
    ensures Remembers(states[i])
  {
    if i > 0 {
      RunRemembers(size, states, events, i - 1);
      StepRemembers(states[i - 1], events[i - 1], states[i]);
    }
  }

  lemma StepRemembers(p: Pair, e: PairEvent, p': Pair)
    requires Remembers(p) && PairStep(p, e, p')
    ensures Remembers(p')
  {
    hide Slot, PhaseOf;
    if e.Post? {
      var m := |p.posted|;
      forall n: nat | n < m <= n + p.Size() - 1
        ensures Slot(n, p.Size()) != Slot(m, p.Size())
      {
        SlotsDiffer(n, m, p.Size());
      }
      forall n: nat | m < n < p.Size()
        ensures Slot(n, p.Size()) != Slot(m, p.Size())
      {
        SlotsDiffer(m, n, p.Size());
      }
    }
  }

  /** The code's poll takes the entry at the head for a new one. */
  ghost predicate CodeSees(p: Pair)
    requires p.cqHead < p.Size()
  {
    DecodeDw3(Dw3(p.cq[p.cqHead])).phase == p.cqPhase
  }

  /** What the code's reading makes of a ring filled by a conforming device: a posted completion is seen exactly
      when the parity of its identifier is the phase of the lap, and when nothing is waiting a completion of the
      lap before is seen again exactly when its parity is. */
  lemma CodeSeesIff(p: Pair)
    requires Inv(p) && Remembers(p) && forall i :: 0 <= i < |p.posted| ==> p.posted[i].cid < 65536 && p.posted[i].status < 32768
    ensures p.cqHead < p.Size()
    ensures p.consumed < |p.posted| ==> (CodeSees(p) <==> (p.posted[p.consumed].cid % 2 == 1) == PhaseOf(p.consumed, p.Size()))
    ensures p.consumed == |p.posted| >= p.Size() ==>
              (CodeSees(p) <==> (p.posted[p.consumed - p.Size()].cid % 2 == 1) == PhaseOf(p.consumed, p.Size()))
    ensures p.consumed == |p.posted| < p.Size() ==> !CodeSees(p)
  {
    hide Slot, RingHolds, DecodeDw3, Dw3;
    var n, size := p.consumed, p.Size();
    assert EntryOk(p, n);
    if n < |p.posted| {
      DecodeIsRightIff(p.cq[p.cqHead]);
    } else if n >= size {
      NextLap(n - size, size);
      DecodeIsRightIff(p.cq[p.cqHead]);
    } else {
      DecodeIsRightIff(Completion(0, 0, false));
      DivModUnique(n, size, 0, n);
    }
  }

  /** The answer to the first command, with identifier 0 on the first lap, is never seen. */
  lemma FirstAnswerUnseen(d: Driver)
    requires DriverOk(d) && Remembers(d.pair) && d.pair.consumed == 0 < |d.answered| && d.answered[0] == 0
    requires forall i :: 0 <= i < |d.pair.posted| ==> d.pair.posted[i].cid < 65536 && d.pair.posted[i].status < 32768
    ensures d.pair.cqHead < d.pair.Size() && !CodeSees(d.pair)
  {
    CodeSeesIff(d.pair);
    hide Remembers, CodeSees, Slot, EntryOk, RingHolds;
    DivModUnique(0, d.pair.Size(), 0, 0);
  }

  // ---- The driver's code ----

  class QueuePair {
    const size: nat
    const sq: array<Command>
    const cq: array<Completion>
    var sqTail: nat
    var cqHead: nat
    var cqPhase: bool
    var nextCid: nat
    ghost var submitted: seq<Command>
    ghost var fetched: nat
    ghost var posted: seq<Outcome>
    ghost var consumed: nat

    ghost function Contents(): Pair
      reads this, sq, cq
    {
      Pair(sq[..], cq[..], sqTail, cqHead, cqPhase, nextCid, submitted, fetched, posted, consumed)
    }

    ghost predicate Valid()
      reads this, sq, cq
    {
      sq.Length == cq.Length == size && Inv(Contents())
    }

    constructor (size: nat)
      requires size > 0
      ensures Valid() && this.size == size && Contents() == FreshPair(size)
    {
      this.size, sqTail, cqHead, cqPhase, nextCid := size, 0, 0, true, 0;
      sq := new Command[size](_ => Command(0, 0));
      cq := new Completion[size](_ => Completion(0, 0, false));
      submitted, fetched, posted, consumed := [], 0, [], 0;
      new;
      FreshPairOk(size);
    }

    /** Place a command at the tail. */
    method Submit(entry: Command)
      requires Valid() && |submitted| < fetched + size
      modifies this`sqTail, this`nextCid, this`submitted, sq
      ensures Valid() && Contents() == Submitted(old(Contents()), entry)
    {
      hide RingHolds, EntryOk;
      ghost var p := Contents();
      SubmitKeepsInv(p, entry);
      var cid := nextCid;
      nextCid := Cid(nextCid + 1);
      var filled := WithCid(entry, cid);
      sq[sqTail] := filled;
      sqTail := (sqTail + 1) % size;
      submitted := submitted + [filled];
      assert Contents() == Submitted(p, entry);
    }

    /** The status of the next completion, if one is there. */
    method PollCompletion() returns (r: Option<nat>)
      requires Valid()
      modifies this`cqHead, this`cqPhase, this`consumed
      ensures Valid() && PollStep(old(Contents()), Contents(), r)
    {
      hide RingHolds, EntryOk, SqOk;
      ghost var p := Contents();
      var cqe := cq[cqHead];
      if cqe.phase == cqPhase {
        PollIsExact(p, Consumed(p), Some(cqe.status));
        cqHead := (cqHead + 1) % size;
        if cqHead == 0 {
          cqPhase := !cqPhase;
        }
        consumed := consumed + 1;
        return Some(cqe.status);
      }
      return None;
    }
  }
}
