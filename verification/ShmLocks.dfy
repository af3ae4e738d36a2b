/** The lock table of the WAL shared memory. */
module ShmLocks {

  const SQLITE_SHM_NLOCK: nat := 8

  datatype Code = OK | ERROR | BUSY

  datatype ShmLock = ShmLock(sharedCount: nat, exclusive: bool)

  /** The lock words, and which clients hold what: a client may hold a slot shared more than once. */
  datatype Table = Table(locks: seq<ShmLock>, sharers: seq<multiset<nat>>, owners: seq<set<nat>>)

  // ---- The invariant ----

  ghost predicate SlotOk(l: ShmLock, sharers: multiset<nat>, owners: set<nat>) {
    && l.sharedCount == |sharers| && |owners| == (if l.exclusive then 1 else 0)
    && (l.exclusive ==> l.sharedCount == 0)
  }

  ghost predicate Inv(t: Table) {
    && |t.locks| == |t.sharers| == |t.owners| == SQLITE_SHM_NLOCK
    && forall i :: 0 <= i < SQLITE_SHM_NLOCK ==> SlotOk(t.locks[i], t.sharers[i], t.owners[i])
  }

  /** A slot held exclusively has no other holder of any kind. */
  lemma ExclusiveIsAlone(t: Table, i: nat, client: nat)
    requires Inv(t) && i < SQLITE_SHM_NLOCK && client in t.owners[i]
    ensures t.owners[i] == {client} && t.sharers[i] == multiset{} && t.locks[i] == ShmLock(0, true)
  {
    assert SlotOk(t.locks[i], t.sharers[i], t.owners[i]);
    assert |t.owners[i] - {client}| == 0;
    assert t.owners[i] == (t.owners[i] - {client}) + {client};
  }

  // ---- Requests ----

  predicate CanTake(l: ShmLock, exclusive: bool) {
    !l.exclusive && (exclusive ==> l.sharedCount == 0)
  }

  function TakeLock(l: ShmLock, exclusive: bool): ShmLock {
    if exclusive then l.(exclusive := true) else l.(sharedCount := l.sharedCount + 1)
  }

  function DropLock(l: ShmLock, exclusive: bool): ShmLock
    requires !exclusive ==> l.sharedCount > 0
  {
    if exclusive then l.(exclusive := false) else l.(sharedCount := l.sharedCount - 1)
  }

  /** `client` has taken the slots `lo..hi`. */
  ghost function Taken(t: Table, client: nat, lo: nat, hi: nat, exclusive: bool): (r: Table)
    requires |t.locks| == |t.sharers| == |t.owners| == SQLITE_SHM_NLOCK
    ensures |r.locks| == |r.sharers| == |r.owners| == SQLITE_SHM_NLOCK
  {
    Table(seq(SQLITE_SHM_NLOCK, i requires 0 <= i < SQLITE_SHM_NLOCK => if lo <= i < hi then TakeLock(t.locks[i], exclusive) else t.locks[i]),
          seq(SQLITE_SHM_NLOCK, i requires 0 <= i < SQLITE_SHM_NLOCK =>
                if lo <= i < hi && !exclusive then t.sharers[i] + multiset{client} else t.sharers[i]),
          seq(SQLITE_SHM_NLOCK, i requires 0 <= i < SQLITE_SHM_NLOCK =>
                if lo <= i < hi && exclusive then t.owners[i] + {client} else t.owners[i]))
  }

  ghost predicate Holds(t: Table, client: nat, i: nat, exclusive: bool)
    requires i < |t.sharers| && i < |t.owners|
  {
    if exclusive then client in t.owners[i] else client in t.sharers[i]
  }

  /** `client` holds everything in the range that is a slot. */
  ghost predicate HoldsAll(t: Table, client: nat, lo: nat, hi: nat, exclusive: bool)
    requires |t.sharers| == |t.owners| == SQLITE_SHM_NLOCK
  {
    forall i :: lo <= i < hi && i < SQLITE_SHM_NLOCK ==> Holds(t, client, i, exclusive)
  }

  ghost function Dropped(t: Table, client: nat, lo: nat, hi: nat, exclusive: bool): (r: Table)
    requires Inv(t) && HoldsAll(t, client, lo, hi, exclusive)
    ensures |r.locks| == |r.sharers| == |r.owners| == SQLITE_SHM_NLOCK
  {
    Table(seq(SQLITE_SHM_NLOCK, i requires 0 <= i < SQLITE_SHM_NLOCK =>
                if lo <= i < hi && (exclusive || t.locks[i].sharedCount > 0) then DropLock(t.locks[i], exclusive) else t.locks[i]),
          seq(SQLITE_SHM_NLOCK, i requires 0 <= i < SQLITE_SHM_NLOCK =>
                if lo <= i < hi && !exclusive then t.sharers[i] - multiset{client} else t.sharers[i]),
          seq(SQLITE_SHM_NLOCK, i requires 0 <= i < SQLITE_SHM_NLOCK =>
                if lo <= i < hi && exclusive then t.owners[i] - {client} else t.owners[i]))
  }

  /** Where the requested range leaves the table. */
  function LastSlot(offset: nat, n: nat): nat {
    if offset + n < SQLITE_SHM_NLOCK then offset + n else SQLITE_SHM_NLOCK
  }

  /** The code of a request that met no conflict: an error if it reaches past the last slot. */
  function Reached(offset: nat, n: nat): Code {
    if n > 0 && offset + n > SQLITE_SHM_NLOCK then ERROR else OK
  }

  /** A lock request: busy and without effect if any slot cannot be taken, otherwise all slots are taken. */
  ghost predicate LockStep(t: Table, t': Table, client: nat, offset: nat, n: nat, exclusive: bool, rc: Code)
    requires Inv(t)
  {
    if exists i :: offset <= i < LastSlot(offset, n) && !CanTake(t.locks[i], exclusive)
    then t' == t && rc == BUSY
    else t' == Taken(t, client, offset, LastSlot(offset, n), exclusive) && rc == Reached(offset, n)
  }

  ghost predicate UnlockStep(t: Table, t': Table, client: nat, offset: nat, n: nat, exclusive: bool, rc: Code)
    requires Inv(t)
  {
    && HoldsAll(t, client, offset, offset + n, exclusive)
    && t' == Dropped(t, client, offset, LastSlot(offset, n), exclusive) && rc == Reached(offset, n)
  }

  // ---- Every request keeps the invariant ----

  lemma LockKeepsInv(t: Table, t': Table, client: nat, offset: nat, n: nat, exclusive: bool, rc: Code)
    requires Inv(t) && LockStep(t, t', client, offset, n, exclusive, rc)
    ensures Inv(t')
    ensures rc == OK ==> forall i :: offset <= i < offset + n ==> i < SQLITE_SHM_NLOCK && Holds(t', client, i, exclusive)
  {
    if rc != BUSY {
      forall i | 0 <= i < SQLITE_SHM_NLOCK
        ensures SlotOk(t'.locks[i], t'.sharers[i], t'.owners[i])
      {
        assert SlotOk(t.locks[i], t.sharers[i], t.owners[i]);
      }
    }
  }

  lemma UnlockKeepsInv(t: Table, t': Table, client: nat, offset: nat, n: nat, exclusive: bool, rc: Code)
    requires Inv(t) && UnlockStep(t, t', client, offset, n, exclusive, rc)
    ensures Inv(t')
  {
    forall i | 0 <= i < SQLITE_SHM_NLOCK
      ensures SlotOk(t'.locks[i], t'.sharers[i], t'.owners[i])
    {
      assert SlotOk(t.locks[i], t.sharers[i], t.owners[i]);
      if offset <= i < LastSlot(offset, n) {
        assert Holds(t, client, i, exclusive);
        if exclusive {
          ExclusiveIsAlone(t, i, client);
        }
      }
    }
  }

  /** Nobody is in the way: a shared lock needs a slot with no owner, an exclusive one a slot with no holder at all. */
  ghost predicate Grantable(t: Table, i: nat, exclusive: bool)
    requires i < |t.sharers| && i < |t.owners|
  {
    t.owners[i] == {} && (exclusive ==> t.sharers[i] == multiset{})
  }

  lemma CanTakeIff(t: Table, i: nat, exclusive: bool)
    requires Inv(t) && i < SQLITE_SHM_NLOCK
    ensures CanTake(t.locks[i], exclusive) <==> Grantable(t, i, exclusive)
  {
    assert SlotOk(t.locks[i], t.sharers[i], t.owners[i]);
  }

  /** A request inside the table is granted exactly when nobody is in the way; then the client holds what it held
      and the range, and otherwise nothing changes. Readers do not shut each other out. */
  lemma LockGrantedIff(t: Table, t': Table, client: nat, offset: nat, n: nat, exclusive: bool, rc: Code)
    requires Inv(t) && LockStep(t, t', client, offset, n, exclusive, rc) && offset + n <= SQLITE_SHM_NLOCK
    ensures rc == OK <==> forall i :: offset <= i < offset + n ==> Grantable(t, i, exclusive)
    ensures rc == OK || (rc == BUSY && t' == t)
    ensures rc == OK ==> forall i :: 0 <= i < SQLITE_SHM_NLOCK ==>
              && |t'.sharers| == |t'.owners| == SQLITE_SHM_NLOCK
              && t'.sharers[i] == t.sharers[i] + (if offset <= i < offset + n && !exclusive then multiset{client} else multiset{})
              && t'.owners[i] == t.owners[i] + if offset <= i < offset + n && exclusive then {client} else {}
  {
    forall i | offset <= i < offset + n
      ensures CanTake(t.locks[i], exclusive) <==> Grantable(t, i, exclusive)
    {
      CanTakeIff(t, i, exclusive);
    }
    hide CanTake, Grantable, SlotOk;
  }

  /** A failed lock request leaves the table as it was, except one that starts inside the table, meets no
      conflict and runs past its end: that one keeps the slots it took. */
  lemma FailedLockChangesIff(t: Table, t': Table, client: nat, offset: nat, n: nat, exclusive: bool, rc: Code)
    requires Inv(t) && LockStep(t, t', client, offset, n, exclusive, rc) && rc != OK
    ensures t' == t <==>
            offset >= SQLITE_SHM_NLOCK || exists i :: offset <= i < LastSlot(offset, n) && !Grantable(t, i, exclusive)
  {
    forall i | offset <= i < LastSlot(offset, n)
      ensures CanTake(t.locks[i], exclusive) <==> Grantable(t, i, exclusive)
    {
      CanTakeIff(t, i, exclusive);
    }
    hide CanTake, Grantable, SlotOk;
    if rc == ERROR {
      if offset < SQLITE_SHM_NLOCK {
        assert t'.locks[offset] == TakeLock(t.locks[offset], exclusive) != t.locks[offset];
      } else {
        assert t'.locks == t.locks && t'.sharers == t.sharers && t'.owners == t.owners;
      }
    }
  }

  /** Unlocking gives back exactly what locking took. */
  lemma UnlockUndoesLock(t: Table, t1: Table, t2: Table, client: nat, offset: nat, n: nat, exclusive: bool, rc: Code)
    requires Inv(t) && offset + n <= SQLITE_SHM_NLOCK && LockStep(t, t1, client, offset, n, exclusive, OK)
    requires Inv(t1) && UnlockStep(t1, t2, client, offset, n, exclusive, rc)
    ensures t2 == t && rc == OK
  {
    forall i | 0 <= i < SQLITE_SHM_NLOCK
      ensures t2.locks[i] == t.locks[i] && t2.sharers[i] == t.sharers[i] && t2.owners[i] == t.owners[i]
    {
      assert SlotOk(t.locks[i], t.sharers[i], t.owners[i]);
      assert offset <= i < offset + n ==> t1.sharers[i] - multiset{client} == t.sharers[i] || exclusive;
    }
  }

  // ---- Runs ----

  datatype Request = Lock(client: nat, offset: nat, n: nat, exclusive: bool, rc: Code)
                   | Unlock(client: nat, offset: nat, n: nat, exclusive: bool, rc: Code)

  ghost predicate RequestStep(t: Table, r: Request, t': Table)
    requires Inv(t)
  {
    match r
    case Lock(client, offset, n, exclusive, rc) => LockStep(t, t', client, offset, n, exclusive, rc)
    case Unlock(client, offset, n, exclusive, rc) => UnlockStep(t, t', client, offset, n, exclusive, rc)
  }

  ghost predicate TableRun(tables: seq<Table>, requests: seq<Request>) {
    && |tables| == |requests| + 1
    && forall i :: 0 <= i < |requests| ==> Inv(tables[i]) ==> RequestStep(tables[i], requests[i], tables[i + 1])
  }

  /** For any interleaving of clients that unlock only what they hold: at every point the counts are the
      numbers of shared holders, and an exclusive holder is alone. */
  lemma {:induction false} RunKeepsLocks(tables: seq<Table>, requests: seq<Request>, k: nat, i: nat)
    requires TableRun(tables, requests) && Inv(tables[0]) && k < |tables| && i < SQLITE_SHM_NLOCK
    ensures Inv(tables[k]) && tables[k].locks[i].sharedCount == |tables[k].sharers[i]|
    ensures forall c, d :: c in tables[k].owners[i] && (d in tables[k].owners[i] || d in tables[k].sharers[i]) ==>
              d == c && d !in tables[k].sharers[i]
  {
    if k > 0 {
      RunKeepsLocks(tables, requests, k - 1, i);
      match requests[k - 1] {
        case Lock(client, offset, n, exclusive, rc) =>
          LockKeepsInv(tables[k - 1], tables[k], client, offset, n, exclusive, rc);
        case Unlock(client, offset, n, exclusive, rc) =>
          UnlockKeepsInv(tables[k - 1], tables[k], client, offset, n, exclusive, rc);
      }
    }
    assert SlotOk(tables[k].locks[i], tables[k].sharers[i], tables[k].owners[i]);
    forall c | c in tables[k].owners[i]
      ensures tables[k].owners[i] == {c} && tables[k].sharers[i] == multiset{}
    {
      ExclusiveIsAlone(tables[k], i, c);
    }
  }

  // ---- The shared memory's lock table ----

  class ShmState {
    const locks: array<ShmLock>
    ghost var sharers: seq<multiset<nat>>
    ghost var owners: seq<set<nat>>

    ghost function Contents(): Table
      reads this, locks
    {
      Table(locks[..], sharers, owners)
    }

    constructor ()
      ensures Inv(Contents()) && fresh(locks)
      ensures forall i :: 0 <= i < SQLITE_SHM_NLOCK ==> locks[i] == ShmLock(0, false)
    {
      locks := new ShmLock[SQLITE_SHM_NLOCK](_ => ShmLock(0, false));
      sharers, owners := seq(SQLITE_SHM_NLOCK, _ => multiset{}), seq(SQLITE_SHM_NLOCK, _ => {});
    }

    /** Take one slot if that is possible. */
    method TryTake(i: nat, exclusive: bool, ghost client: nat) returns (ok: bool)
      requires Inv(Contents()) && i < SQLITE_SHM_NLOCK
      modifies this, locks
      ensures ok <==> CanTake(old(locks[i]), exclusive)
      ensures Contents() == if ok then Taken(old(Contents()), client, i, i + 1, exclusive) else old(Contents())
    {
      ghost var t := Contents();
      if locks[i].exclusive || (exclusive && locks[i].sharedCount > 0) {
        return false;
      }
      locks[i] := TakeLock(locks[i], exclusive);
      if exclusive {
        owners := owners[i := owners[i] + {client}];
      } else {
        sharers := sharers[i := sharers[i] + multiset{client}];
      }
      TakenAt(t, Contents(), client, i, exclusive);
      return true;
    }

    /** Give one slot back. */
    method Release(i: nat, exclusive: bool, ghost client: nat)
      requires |locks[..]| == |sharers| == |owners| == SQLITE_SHM_NLOCK && i < SQLITE_SHM_NLOCK
      requires !exclusive ==> locks[i].sharedCount > 0
      modifies this, locks
      ensures locks[..] == old(locks[..])[i := DropLock(old(locks[i]), exclusive)]
      ensures owners == if exclusive then old(owners)[i := old(owners)[i] - {client}] else old(owners)
      ensures sharers == if exclusive then old(sharers) else old(sharers)[i := old(sharers)[i] - multiset{client}]
    {
      locks[i] := DropLock(locks[i], exclusive);
      if exclusive {
        owners := owners[i := owners[i] - {client}];
      } else {
        sharers := sharers[i := sharers[i] - multiset{client}];
      }
    }

    /** Lock `n` slots for `client`: all of them or, on a conflict, none. */
    method Acquire(offset: nat, n: nat, exclusive: bool, ghost client: nat) returns (rc: Code)
      requires Inv(Contents())
      modifies this, locks
      ensures LockStep(old(Contents()), Contents(), client, offset, n, exclusive, rc)
    {
      hide Taken, SlotOk, LockStep, CanTake;
      ghost var t := Contents();
      var i := offset;
      NothingTaken(t, client, offset, exclusive);
      while i < offset + n
        invariant offset <= i <= offset + n && (i <= SQLITE_SHM_NLOCK || i == offset)
        invariant Contents() == Taken(t, client, offset, i, exclusive)
        invariant forall j :: offset <= j < i && j < SQLITE_SHM_NLOCK ==> CanTake(t.locks[j], exclusive)
      {
        if i >= SQLITE_SHM_NLOCK {
          TakenToEnd(t, client, offset, i, exclusive);
          NoConflict(t, Contents(), client, offset, n, exclusive);
          return ERROR;
        }
        TakenKeepsInv(t, client, offset, i, exclusive);
        ghost var before := Contents();
        NotYetTaken(t, client, offset, i, exclusive);
        var ok := TryTake(i, exclusive, client);
        if !ok {
          Rollback(offset, i, exclusive, client, t);
          Conflict(t, client, offset, n, exclusive, i);
          return BUSY;
        }
        OneMoreTaken(t, before, client, offset, i, exclusive);
        i := i + 1;
      }
      TakenToEnd(t, client, offset, i, exclusive);
      NoConflict(t, Contents(), client, offset, n, exclusive);
      return OK;
    }

    /** Undo a partial acquisition. */
    method Rollback(offset: nat, i: nat, exclusive: bool, ghost client: nat, ghost t: Table)
      requires Inv(t) && i <= SQLITE_SHM_NLOCK && offset <= i && Contents() == Taken(t, client, offset, i, exclusive)
      requires forall j :: offset <= j < i ==> CanTake(t.locks[j], exclusive)
      modifies this, locks
      ensures Contents() == t
    {
      for j := offset to i
        invariant Contents() == Taken(t, client, j, i, exclusive)
      {
        assert locks[j] == TakeLock(t.locks[j], exclusive);
        Release(j, exclusive, client);
        OneGivenBack(t, client, j, i, exclusive);
      }
      NothingTaken(t, client, i, exclusive);
    }

    /** Unlock `n` slots that `client` holds. */
    method GiveBack(offset: nat, n: nat, exclusive: bool, ghost client: nat) returns (rc: Code)
      requires Inv(Contents()) && HoldsAll(Contents(), client, offset, offset + n, exclusive)
      modifies this, locks
      ensures UnlockStep(old(Contents()), Contents(), client, offset, n, exclusive, rc)
    {
      hide Dropped, SlotOk, Holds, DropLock;
      ghost var t := Contents();
      var i := offset;
      NothingDropped(t, client, offset, exclusive);
      while i < offset + n
        invariant offset <= i <= offset + n && (i <= SQLITE_SHM_NLOCK || i == offset)
        invariant Contents() == Dropped(t, client, offset, i, exclusive)
      {
        if i >= SQLITE_SHM_NLOCK {
          DroppedToEnd(t, client, offset, i, exclusive);
          return ERROR;
        }
        CanDrop(t, client, i, exclusive);
        OneMoreDropped(t, client, offset, i, exclusive);
        Release(i, exclusive, client);
        i := i + 1;
      }
      DroppedToEnd(t, client, offset, i, exclusive);
      return OK;
    }

    /** `shm_lock` once the shared memory is mapped. */
    method ShmLockRequest(offset: nat, n: nat, lock: bool, exclusive: bool, ghost client: nat) returns (rc: Code)
      requires Inv(Contents()) && (!lock ==> HoldsAll(Contents(), client, offset, offset + n, exclusive))
      modifies this, locks
      ensures Inv(Contents())
      ensures RequestStep(old(Contents()), if lock then Lock(client, offset, n, exclusive, rc) else Unlock(client, offset, n, exclusive, rc),
                          Contents())
    {
      ghost var t := Contents();
      if lock {
        rc := Acquire(offset, n, exclusive, client);
        LockKeepsInv(t, Contents(), client, offset, n, exclusive, rc);
      } else {
        rc := GiveBack(offset, n, exclusive, client);
        UnlockKeepsInv(t, Contents(), client, offset, n, exclusive, rc);
      }
    }
  }

  // ---- Facts about ranges ----

  lemma TableEquality(a: Table, b: Table)
    requires |a.locks| == |a.sharers| == |a.owners| == SQLITE_SHM_NLOCK == |b.locks| == |b.sharers| == |b.owners|
    requires forall i :: 0 <= i < SQLITE_SHM_NLOCK ==> a.locks[i] == b.locks[i] && a.sharers[i] == b.sharers[i] && a.owners[i] == b.owners[i]
    ensures a == b
  {
    assert a.locks == b.locks && a.sharers == b.sharers && a.owners == b.owners;
  }

  lemma NoConflict(t: Table, t': Table, client: nat, offset: nat, n: nat, exclusive: bool)
    requires Inv(t) && t' == Taken(t, client, offset, LastSlot(offset, n), exclusive)
    requires forall j :: offset <= j < LastSlot(offset, n) ==> CanTake(t.locks[j], exclusive)
    ensures LockStep(t, t', client, offset, n, exclusive, Reached(offset, n))
  {
    hide Taken, CanTake;
  }

  lemma Conflict(t: Table, client: nat, offset: nat, n: nat, exclusive: bool, i: nat)
    requires Inv(t) && offset <= i < LastSlot(offset, n) && !CanTake(t.locks[i], exclusive)
    ensures LockStep(t, t, client, offset, n, exclusive, BUSY)
  {
    hide Taken, CanTake;
  }

  lemma NotYetTaken(t: Table, client: nat, lo: nat, i: nat, exclusive: bool)
    requires Inv(t) && i < SQLITE_SHM_NLOCK
    ensures Taken(t, client, lo, i, exclusive).locks[i] == t.locks[i]
  {
  }

  lemma NothingTaken(t: Table, client: nat, i: nat, exclusive: bool)
    requires Inv(t)
    ensures Taken(t, client, i, i, exclusive) == t
  {
    TableEquality(Taken(t, client, i, i, exclusive), t);
  }

  lemma TakenAt(t: Table, t': Table, client: nat, i: nat, exclusive: bool)
    requires Inv(t) && i < SQLITE_SHM_NLOCK && t'.locks == t.locks[i := TakeLock(t.locks[i], exclusive)]
    requires t'.owners == if exclusive then t.owners[i := t.owners[i] + {client}] else t.owners
    requires t'.sharers == if exclusive then t.sharers else t.sharers[i := t.sharers[i] + multiset{client}]
    ensures t' == Taken(t, client, i, i + 1, exclusive)
  {
    TableEquality(t', Taken(t, client, i, i + 1, exclusive));
  }

  lemma TakenKeepsInv(t: Table, client: nat, lo: nat, hi: nat, exclusive: bool)
    requires Inv(t) && forall j :: lo <= j < hi && j < SQLITE_SHM_NLOCK ==> CanTake(t.locks[j], exclusive)
    ensures Inv(Taken(t, client, lo, hi, exclusive))
  {
    forall i | 0 <= i < SQLITE_SHM_NLOCK
      ensures var r := Taken(t, client, lo, hi, exclusive); SlotOk(r.locks[i], r.sharers[i], r.owners[i])
    {
      assert SlotOk(t.locks[i], t.sharers[i], t.owners[i]);
    }
  }

  lemma OneMoreTaken(t: Table, before: Table, client: nat, lo: nat, i: nat, exclusive: bool)
    requires Inv(t) && lo <= i < SQLITE_SHM_NLOCK && before == Taken(t, client, lo, i, exclusive)
    ensures Taken(before, client, i, i + 1, exclusive) == Taken(t, client, lo, i + 1, exclusive)
  {
    TableEquality(Taken(before, client, i, i + 1, exclusive), Taken(t, client, lo, i + 1, exclusive));
  }

  lemma TakenToEnd(t: Table, client: nat, lo: nat, hi: nat, exclusive: bool)
    requires Inv(t) && (hi <= SQLITE_SHM_NLOCK || hi == lo)
    ensures hi >= SQLITE_SHM_NLOCK ==> Taken(t, client, lo, hi, exclusive) == Taken(t, client, lo, SQLITE_SHM_NLOCK, exclusive)
  {
    if hi >= SQLITE_SHM_NLOCK {
      TableEquality(Taken(t, client, lo, hi, exclusive), Taken(t, client, lo, SQLITE_SHM_NLOCK, exclusive));
    }
  }

  lemma OneGivenBack(t: Table, client: nat, j: nat, i: nat, exclusive: bool)
    requires Inv(t) && j < i <= SQLITE_SHM_NLOCK && CanTake(t.locks[j], exclusive)
    ensures var a, b := Taken(t, client, j, i, exclusive), Taken(t, client, j + 1, i, exclusive);
            && b.locks == a.locks[j := DropLock(a.locks[j], exclusive)]
            && b.owners == (if exclusive then a.owners[j := a.owners[j] - {client}] else a.owners)
            && b.sharers == (if exclusive then a.sharers else a.sharers[j := a.sharers[j] - multiset{client}])
  {
    assert SlotOk(t.locks[j], t.sharers[j], t.owners[j]);
    assert t.owners[j] + {client} - {client} == t.owners[j];
    assert t.sharers[j] + multiset{client} - multiset{client} == t.sharers[j];
  }

  lemma NothingDropped(t: Table, client: nat, i: nat, exclusive: bool)
    requires Inv(t)
    ensures Dropped(t, client, i, i, exclusive) == t
  {
    TableEquality(Dropped(t, client, i, i, exclusive), t);
  }

  lemma CanDrop(t: Table, client: nat, i: nat, exclusive: bool)
    requires Inv(t) && i < SQLITE_SHM_NLOCK && Holds(t, client, i, exclusive)
    ensures t.locks[i].sharedCount > 0 || exclusive
  {
    assert SlotOk(t.locks[i], t.sharers[i], t.owners[i]);
  }

  lemma OneMoreDropped(t: Table, client: nat, lo: nat, i: nat, exclusive: bool)
    requires Inv(t) && lo <= i < SQLITE_SHM_NLOCK && HoldsAll(t, client, lo, i + 1, exclusive)
    requires t.locks[i].sharedCount > 0 || exclusive
    ensures var a, b := Dropped(t, client, lo, i, exclusive), Dropped(t, client, lo, i + 1, exclusive);
            && (!exclusive ==> a.locks[i].sharedCount > 0)
            && b.locks == a.locks[i := DropLock(a.locks[i], exclusive)]
            && b.owners == (if exclusive then a.owners[i := a.owners[i] - {client}] else a.owners)
            && b.sharers == (if exclusive then a.sharers else a.sharers[i := a.sharers[i] - multiset{client}])
  {
  }

  lemma DroppedToEnd(t: Table, client: nat, lo: nat, hi: nat, exclusive: bool)
    requires Inv(t) && (hi <= SQLITE_SHM_NLOCK || hi == lo) && HoldsAll(t, client, lo, hi, exclusive)
    ensures hi >= SQLITE_SHM_NLOCK ==>
              HoldsAll(t, client, lo, SQLITE_SHM_NLOCK, exclusive)
              && Dropped(t, client, lo, hi, exclusive) == Dropped(t, client, lo, SQLITE_SHM_NLOCK, exclusive)
  {
    if hi >= SQLITE_SHM_NLOCK {
      TableEquality(Dropped(t, client, lo, hi, exclusive), Dropped(t, client, lo, SQLITE_SHM_NLOCK, exclusive));
    }
  }
}
