/** No schedule deadlocks, and every schedule ends with all calls finished. */
module Progress {
  import opened Store
  import opened Protocol
  import opened ProtocolInvariant

  // Statements that a call has still to run, at most.
  function StepsLeft(pc: Pc): nat {
    match pc
    case Idle => 7
    case WantConnection => 6
    case Begun => 5
    case HaveProduct(_) => 4
    case HaveStock(_, _) => 3
    case StockUpdated(_, _) => 2
    case RowInserted(_, _, _) => 1
    case HaveReservation(_) => 4
    case StatusUpdated(_) => 3
    case StockRestored(_) => 2
    case AtpRead(_, _) => 1
    case Done(_) => 0
  }

  function Work(calls: seq<Call>): nat {
    if calls == [] then 0 else Work(calls[..|calls| - 1]) + StepsLeft(calls[|calls| - 1].pc)
  }

  lemma {:induction false} WorkUpdate(calls: seq<Call>, t: nat, c: Call)
    requires t < |calls|
    ensures Work(calls[t := c]) - StepsLeft(c.pc) == Work(calls) - StepsLeft(calls[t].pc)
    decreases |calls|
  {
    var n := |calls| - 1;
    if t < n {
      WorkUpdate(calls[..n], t, c);
      assert calls[t := c][..n] == calls[..n][t := c];
    } else {
      assert calls[t := c][..n] == calls[..n];
    }
  }

  lemma {:induction false} WorkBound(calls: seq<Call>)
    ensures Work(calls) <= 7 * |calls|
    decreases |calls|
  {
    if calls != [] {
      WorkBound(calls[..|calls| - 1]);
    }
  }

  lemma MoveWorks(catalog: Catalog, db: Db, nextId: int, c: Call)
    requires !c.pc.Done? && Informed(catalog, db, nextId, c)
    ensures StepsLeft(Moved(c, NextMove(catalog, db, nextId, c)).pc) < StepsLeft(c.pc)
  {
  }

  lemma StepWorks(s: State, t: nat)
    requires Enabled(s, t) && CallOk(s, s.calls[t])
    ensures Work(Step(s, t).calls) < Work(s.calls)
  {
    MoveWorks(s.catalog, s.db, s.nextId, s.calls[t]);
    WorkUpdate(s.calls, t, Moved(s.calls[t], MoveOf(s, t)));
  }

  lemma {:induction false} SomeoneOpen(calls: seq<Call>) returns (t: nat)
    requires OpenCount(calls) > 0
    ensures t < |calls| && InTransaction(calls[t].pc)
    decreases |calls|
  {
    var n := |calls| - 1;
    if InTransaction(calls[n].pc) {
      t := n;
    } else {
      t := SomeoneOpen(calls[..n]);
    }
  }

  // The holder of an inventory row lock never waits.
  lemma StockHolderRuns(s: State, key: Key, poolSize: nat)
    requires Inv(s, poolSize) && key in s.stockLocks
    ensures Enabled(s, s.stockLocks[key])
  {
    assert HoldsStock(s.calls[s.stockLocks[key]], key);
  }

  // A call in a transaction runs, or waits for one that does, or for one that waits for one that does.
  lemma OpenCallsProgress(s: State, t: nat, poolSize: nat) returns (u: nat)
    requires Inv(s, poolSize) && t < |s.calls| && InTransaction(s.calls[t].pc)
    ensures Enabled(s, u)
  {
    u := t;
    var c := s.calls[t];
    assert CallOk(s, c);
    if c.pc.Begun? && !Enabled(s, t) {
      u := s.reservationLocks[c.op.id];
      assert HoldsReservation(s.calls[u], c.op.id) && CallOk(s, s.calls[u]);
    }
    if !Enabled(s, u) {
      var d := s.calls[u];
      var key := if d.pc.HaveProduct? then Key(d.pc.product, d.op.warehouse) else d.pc.r.key;
      StockHolderRuns(s, key, poolSize);
      u := s.stockLocks[key];
    }
  }

  /** Deadlock freedom: while any call is unfinished, some call has a step to take. */
  lemma NoDeadlock(s: State, poolSize: nat) returns (u: nat)
    requires Inv(s, poolSize) && poolSize >= 1
    requires !AllFinished(s)
    ensures Enabled(s, u)
  {
    if OpenCount(s.calls) > 0 {
      var t := SomeoneOpen(s.calls);
      u := OpenCallsProgress(s, t, poolSize);
    } else {
      var t: nat :| t < |s.calls| && !s.calls[t].pc.Done?;
      assert !InTransaction(s.calls[t].pc) by {
        if InTransaction(s.calls[t].pc) {
          OpenCountUpdate(s.calls, t, Call(s.calls[t].op, Idle, NO_WRITES));
          assert false;
        }
      }
      u := t;
    }
  }

  lemma {:induction false} RunWorks(s: State, sched: seq<nat>, poolSize: nat)
    requires Runs(s, sched) && Inv(s, poolSize)
    ensures |sched| + Work(Run(s, sched).calls) <= Work(s.calls)
    ensures |Run(s, sched).calls| == |s.calls|
    decreases |sched|
  {
    if sched != [] {
      assert CallOk(s, s.calls[sched[0]]);
      StepWorks(s, sched[0]);
      StepKeepsInv(s, sched[0], poolSize);
      RunWorks(Step(s, sched[0]), sched[1..], poolSize);
    }
  }

  ghost predicate HeldByOpenCalls<K(!new)>(locks: map<K, nat>, calls: seq<Call>) {
    forall k :: k in locks ==> locks[k] < |calls| && !calls[locks[k]].pc.Done?
  }

  lemma NoEntries<K(!new)>(locks: map<K, nat>, calls: seq<Call>)
    requires HeldByOpenCalls(locks, calls)
    requires forall t: nat :: t < |calls| ==> calls[t].pc.Done?
    ensures locks == map[]
  {
    assert locks.Keys == {};
  }

  lemma HoldersAreOpen(s: State)
    requires LocksOk(s)
    ensures HeldByOpenCalls(s.stockLocks, s.calls) && HeldByOpenCalls(s.reservationLocks, s.calls)
  {
    assert forall k :: k in s.stockLocks ==> HoldsStock(s.calls[s.stockLocks[k]], k);
    assert forall i :: i in s.reservationLocks ==> HoldsReservation(s.calls[s.reservationLocks[i]], i);
  }

  // Nothing is left behind once every call is over.
  lemma AllFinishedIsClean(s: State, poolSize: nat)
    requires Inv(s, poolSize) && AllFinished(s)
    ensures s.stockLocks == map[] && s.reservationLocks == map[] && s.free == poolSize
  {
    HoldersAreOpen(s);
    NoEntries(s.stockLocks, s.calls);
    NoEntries(s.reservationLocks, s.calls);
    if OpenCount(s.calls) > 0 {
      var t := SomeoneOpen(s.calls);
    }
  }

  /**
   Termination: with at least one connection in the pool, n calls take at most 7n
   steps under any schedule, and a schedule that cannot go on has finished every call
   and given back every lock and every connection.
   */
  lemma EveryScheduleEnds(s: State, sched: seq<nat>)
    requires Init(s) && s.free >= 1 && Runs(s, sched)
    ensures |sched| <= 7 * |s.calls| && |Run(s, sched).calls| == |s.calls|
    ensures var s' := Run(s, sched);
      (forall t :: !Enabled(s', t)) ==>
        && AllFinished(s')
        && s'.stockLocks == map[] && s'.reservationLocks == map[] && s'.free == s.free
  {
    InitInv(s);
    RunWorks(s, sched, s.free);
    WorkBound(s.calls);
    RunKeepsInv(s, sched, s.free);
    var s' := Run(s, sched);
    if forall t :: !Enabled(s', t) {
      if !AllFinished(s') {
        var u := NoDeadlock(s', s.free);
      }
      AllFinishedIsClean(s', s.free);
    }
  }
}
