/** Inv holds in every state that any schedule reaches. */
module ProtocolInvariant {
  import opened Store
  import opened Protocol

  // ---- sums -------------------------------------------------------------------

  lemma {:induction false} ActiveUnitsUpdate(rs: map<int, Reservation>, key: Key, n: int, id: int, r: Reservation)
    requires 0 <= id
    ensures id < n ==>
              ActiveUnits(rs[id := r], key, n) ==
              ActiveUnits(rs, key, n) + Claim(r, key) - if id in rs then Claim(rs[id], key) else 0
    ensures n <= id ==> ActiveUnits(rs[id := r], key, n) == ActiveUnits(rs, key, n)
    decreases n
  {
    if n > 0 {
      ActiveUnitsUpdate(rs, key, n - 1, id, r);
    }
  }

  lemma {:induction false} ActiveUnitsAtLeast(rs: map<int, Reservation>, key: Key, n: int, id: int)
    requires forall i :: i in rs ==> rs[i].Ok()
    requires id in rs
    ensures 0 <= ActiveUnits(rs, key, n)
    ensures 0 <= id < n ==> Claim(rs[id], key) <= ActiveUnits(rs, key, n)
    decreases n
  {
    if n > 0 {
      ActiveUnitsAtLeast(rs, key, n - 1, id);
    }
  }

  lemma {:induction false} OpenCountUpdate(calls: seq<Call>, t: nat, c: Call)
    requires t < |calls|
    ensures OpenCount(calls[t := c]) - (if InTransaction(c.pc) then 1 else 0)
      == OpenCount(calls) - (if InTransaction(calls[t].pc) then 1 else 0)
    decreases |calls|
  {
    var n := |calls| - 1;
    if t < n {
      OpenCountUpdate(calls[..n], t, c);
      assert calls[t := c][..n] == calls[..n][t := c];
    } else {
      assert calls[t := c][..n] == calls[..n];
    }
  }

  // ---- one step ---------------------------------------------------------------

  // The committed tables after a step: unchanged, or one COMMIT's rows merged.
  lemma StepDb(s: State, t: nat)
    requires Enabled(s, t) && CallOk(s, s.calls[t])
    ensures var c := s.calls[t]; var s' := Step(s, t);
      match c.pc
      case RowInserted(key, atp, id) =>
        var row := s.db.inventory[key];
        s'.db == Db(s.db.inventory[key := Stock(row.onHand, row.reserved + c.op.quantity)],
                    s.db.reservations[id := Reservation(key, c.op.quantity, c.op.buyer, Active)])
      case AtpRead(r, seen) =>
        s'.db == if r.status == Released then s.db else
                   var row := s.db.inventory[r.key];
                   Db(s.db.inventory[r.key := Stock(row.onHand, row.reserved - r.quantity)],
                      s.db.reservations[c.op.id := r.(status := Released)])
      case _ => s'.db == s.db
  {
    var c := s.calls[t];
    match c.pc
    case RowInserted(key, atp, id) =>
      OverlayOfOne(s.db.inventory, key, c.tx.inventory[key]);
      OverlayOfOne(s.db.reservations, id, c.tx.reservations[id]);
    case AtpRead(r, seen) =>
      if r.status == Active {
        OverlayOfOne(s.db.inventory, r.key, c.tx.inventory[r.key]);
      } else {
        assert s.db.inventory + map[] == s.db.inventory;
      }
      OverlayOfOne(s.db.reservations, c.op.id, r.(status := Released));
    case _ =>
  }

  lemma StepFrame(s: State, t: nat)
    requires Enabled(s, t)
    ensures var s' := Step(s, t);
      && |s'.calls| == |s.calls| && s'.calls[t].op == s.calls[t].op && s'.catalog == s.catalog
      && s.nextId <= s'.nextId
      && (forall u: nat :: u < |s.calls| && u != t ==> s'.calls[u] == s.calls[u])
  {
  }

  lemma StepKeepsPool(s: State, t: nat)
    requires Enabled(s, t) && CallOk(s, s.calls[t])
    ensures var s' := Step(s, t); s'.free + OpenCount(s'.calls) == s.free + OpenCount(s.calls)
  {
    var s' := Step(s, t);
    OpenCountUpdate(s.calls, t, s'.calls[t]);
    assert s'.calls == s.calls[t := s'.calls[t]];
  }

  // What reserved covers: no release can drive it below zero.
  lemma ReservedCovers(s: State, id: int)
    requires Conserved(s.db, s.nextId)
    requires id in s.db.reservations && s.db.reservations[id].status == Active
    ensures var r := s.db.reservations[id];
      r.key in s.db.inventory && 0 < r.quantity <= s.db.inventory[r.key].reserved
  {
    var r := s.db.reservations[id];
    assert ReservationOk(s.db, id, s.nextId);
    assert StockOk(s.db, r.key, s.nextId);
    forall i | i in s.db.reservations ensures s.db.reservations[i].Ok() {
      assert ReservationOk(s.db, i, s.nextId);
    }
    ActiveUnitsAtLeast(s.db.reservations, r.key, s.nextId, id);
  }

  // The stepping call itself: no CHECK refuses its writes.
  lemma ReserveKeepsOwnCall(s: State, t: nat)
    requires Enabled(s, t) && Conserved(s.db, s.nextId) && CallOk(s, s.calls[t])
    requires s.calls[t].op.Reserve? && InTransaction(s.calls[t].pc)
    ensures var c := s.calls[t]; var m := ReserveMove(s.catalog, s.db, s.nextId, c);
      Informed(s.catalog, s.db, if c.pc.StockUpdated? then s.nextId + 1 else s.nextId, Moved(c, m))
  {
    var c := s.calls[t];
    match c.pc
    case HaveProduct(product) =>
      assert s.db.inventory + map[] == s.db.inventory;
    case HaveStock(key, stock) =>
      assert StockOk(s.db, key, s.nextId);
      OverlayOfOne(s.db.inventory, key, stock);
      assert map[][key := Stock(stock.onHand, stock.reserved + c.op.quantity)]
          == map[key := Stock(stock.onHand, stock.reserved + c.op.quantity)];
    case StockUpdated(key, atp) =>
      assert StockOk(s.db, key, s.nextId);
      assert s.nextId in s.db.reservations ==> ReservationOk(s.db, s.nextId, s.nextId);
      var r := Reservation(key, c.op.quantity, c.op.buyer, Active);
      assert map[][s.nextId := r] == map[s.nextId := r];
    case _ =>
  }

  lemma RestoreKeepsOwnCall(s: State, t: nat)
    requires Enabled(s, t) && Conserved(s.db, s.nextId) && CallOk(s, s.calls[t])
    requires s.calls[t].op.Release? && s.calls[t].pc.StatusUpdated?
    ensures var c := s.calls[t]; var m := ReleaseMove(s.db, c); var row := s.db.inventory[c.pc.r.key];
      && 0 < c.pc.r.quantity <= row.reserved
      && m == LockStock(c.pc.r.key, StockRestored(c.pc.r),
                        Db(map[c.pc.r.key := Stock(row.onHand, row.reserved - c.pc.r.quantity)], c.tx.reservations))
  {
    var c := s.calls[t];
    var r := c.pc.r;
    ReservedCovers(s, c.op.id);
    var row := s.db.inventory[r.key];
    assert StockOk(s.db, r.key, s.nextId);
    assert s.db.inventory + map[] == s.db.inventory;
    assert map[][r.key := Stock(row.onHand, row.reserved - r.quantity)]
        == map[r.key := Stock(row.onHand, row.reserved - r.quantity)];
  }

  lemma MarkKeepsOwnCall(s: State, t: nat)
    requires Enabled(s, t) && CallOk(s, s.calls[t])
    requires s.calls[t].op.Release? && s.calls[t].pc.HaveReservation?
    ensures var c := s.calls[t]; var r := c.pc.r;
      ReleaseMove(s.db, c) ==
        if r.status == Active then Goto(StatusUpdated(r), Db(map[], map[c.op.id := r.(status := Released)]))
        else Goto(AtpRead(r, SelectAtp(s.db, NO_WRITES, r.key)), NO_WRITES)
  {
    var c := s.calls[t];
    assert s.db.reservations + map[] == s.db.reservations;
    assert map[][c.op.id := c.pc.r.(status := Released)] == map[c.op.id := c.pc.r.(status := Released)];
  }

  lemma ReleaseKeepsOwnCall(s: State, t: nat)
    requires Enabled(s, t) && Conserved(s.db, s.nextId) && CallOk(s, s.calls[t])
    requires s.calls[t].op.Release? && InTransaction(s.calls[t].pc)
    ensures Informed(s.catalog, s.db, s.nextId, Moved(s.calls[t], ReleaseMove(s.db, s.calls[t])))
  {
    var c := s.calls[t];
    match c.pc
    case Begun =>
      assert s.db.reservations + map[] == s.db.reservations;
    case HaveReservation(r) =>
      MarkKeepsOwnCall(s, t);
      assert ReservationOk(s.db, c.op.id, s.nextId);
    case StatusUpdated(r) =>
      RestoreKeepsOwnCall(s, t);
    case StockRestored(r) =>
      assert r.key in s.db.inventory + c.tx.inventory;
    case _ =>
  }

  lemma StepKeepsOwnCall(s: State, t: nat)
    requires Enabled(s, t) && Conserved(s.db, s.nextId) && CallOk(s, s.calls[t])
    ensures CallOk(Step(s, t), Step(s, t).calls[t])
  {
    if InTransaction(s.calls[t].pc) {
      if s.calls[t].op.Reserve? {
        ReserveKeepsOwnCall(s, t);
      } else {
        ReleaseKeepsOwnCall(s, t);
      }
    }
  }

  // A row lock has one holder.
  lemma OneHolder(s: State, t: nat, u: nat)
    requires LocksOk(s) && t < |s.calls| && u < |s.calls| && t != u
    ensures forall k :: !(HoldsStock(s.calls[t], k) && HoldsStock(s.calls[u], k))
    ensures forall i :: !(HoldsReservation(s.calls[t], i) && HoldsReservation(s.calls[u], i))
  {
    forall k | HoldsStock(s.calls[t], k) ensures !HoldsStock(s.calls[u], k) {
      assert s.stockLocks[k] == t;
    }
    forall i | HoldsReservation(s.calls[t], i) ensures !HoldsReservation(s.calls[u], i) {
      assert s.reservationLocks[i] == t;
    }
  }

  // What a call knows stays true while nobody writes the rows it has locked.
  lemma CallOkFrame(s: State, s': State, d: Call)
    requires CallOk(s, d)
    requires s'.catalog == s.catalog && s.nextId <= s'.nextId
    requires forall k :: HoldsStock(d, k) && k in s.db.inventory ==>
      k in s'.db.inventory && s'.db.inventory[k] == s.db.inventory[k]
    requires forall i :: HoldsReservation(d, i) && i in s.db.reservations ==>
      i in s'.db.reservations && s'.db.reservations[i] == s.db.reservations[i]
    requires d.pc.RowInserted? && d.pc.id !in s.db.reservations ==> d.pc.id !in s'.db.reservations
    ensures CallOk(s', d)
  {
    match d.pc
    case HaveStock(key, _) => assert HoldsStock(d, key);
    case StockUpdated(key, _) => assert HoldsStock(d, key);
    case RowInserted(key, _, _) => assert HoldsStock(d, key);
    case HaveReservation(_) => assert HoldsReservation(d, d.op.id);
    case StatusUpdated(_) => assert HoldsReservation(d, d.op.id);
    case StockRestored(r) => assert HoldsReservation(d, d.op.id) && HoldsStock(d, r.key);
    case AtpRead(r, _) => assert HoldsReservation(d, d.op.id) && (r.status == Active ==> HoldsStock(d, r.key));
    case _ =>
  }

  // A step writes no committed row that another call has locked, nor inserts its row.
  lemma StepSpares(s: State, t: nat, u: nat)
    requires Enabled(s, t) && u < |s.calls| && u != t
    requires LocksOk(s) && CallsOk(s)
    ensures var s' := Step(s, t); var d := s.calls[u];
      && (forall k :: HoldsStock(d, k) && k in s.db.inventory ==>
            k in s'.db.inventory && s'.db.inventory[k] == s.db.inventory[k])
      && (forall i :: HoldsReservation(d, i) && i in s.db.reservations ==>
            i in s'.db.reservations && s'.db.reservations[i] == s.db.reservations[i])
      && (d.pc.RowInserted? && d.pc.id !in s.db.reservations ==> d.pc.id !in s'.db.reservations)
  {
    var c, d := s.calls[t], s.calls[u];
    assert CallOk(s, c) && CallOk(s, d);
    StepDb(s, t);
    OneHolder(s, t, u);
    match c.pc
    case RowInserted(key, atp, id) =>
      assert HoldsStock(c, key);
    case AtpRead(r, seen) =>
      if r.status == Active {
        assert HoldsStock(c, r.key);
        assert HoldsReservation(c, c.op.id);
      }
    case _ =>
  }

  // The other calls: what they know is locked, or not theirs to lose.
  lemma StepKeepsOtherCall(s: State, t: nat, u: nat)
    requires Enabled(s, t) && u < |s.calls| && u != t
    requires LocksOk(s) && CallsOk(s)
    ensures CallOk(Step(s, t), s.calls[u])
  {
    assert CallOk(s, s.calls[u]);
    StepSpares(s, t, u);
    StepFrame(s, t);
    CallOkFrame(s, Step(s, t), s.calls[u]);
  }

  lemma StepKeepsCalls(s: State, t: nat)
    requires Enabled(s, t) && Conserved(s.db, s.nextId) && LocksOk(s) && CallsOk(s)
    ensures CallsOk(Step(s, t))
  {
    var s' := Step(s, t);
    StepFrame(s, t);
    forall u: nat | u < |s'.calls| ensures CallOk(s', s'.calls[u]) {
      if u == t {
        StepKeepsOwnCall(s, t);
      } else {
        StepKeepsOtherCall(s, t, u);
      }
    }
    forall u: nat | u < |s.calls| && u != t && s.calls[u].pc.RowInserted? && s'.calls[t].pc.RowInserted?
      ensures s.calls[u].pc.id != s'.calls[t].pc.id
    {
      assert CallOk(s, s.calls[u]);
    }
  }

  predicate Ends(m: Move) { m.Rollback? || m.Commit? }

  // The locks a call holds after a move are those it held and the one the move takes.
  lemma ReserveMoveHolds(catalog: Catalog, db: Db, nextId: int, c: Call)
    requires Informed(catalog, db, nextId, c) && c.op.Reserve? && InTransaction(c.pc)
    ensures var m := ReserveMove(catalog, db, nextId, c);
      && (forall k :: HoldsStock(Moved(c, m), k) <==>
            !Ends(m) && (HoldsStock(c, k) || (m.LockStock? && m.key == k)))
      && (forall i :: !HoldsReservation(Moved(c, m), i))
      && !m.LockReservation?
  {
  }

  lemma ReleaseMoveHolds(s: State, c: Call)
    requires Conserved(s.db, s.nextId) && CallOk(s, c) && c.op.Release? && InTransaction(c.pc)
    ensures var m := ReleaseMove(s.db, c);
      && (forall k :: HoldsStock(Moved(c, m), k) <==>
            !Ends(m) && (HoldsStock(c, k) || (m.LockStock? && m.key == k)))
      && (forall i :: HoldsReservation(Moved(c, m), i) <==>
            !Ends(m) && (HoldsReservation(c, i) || (m.LockReservation? && m.id == i)))
  {
    if c.pc.StatusUpdated? {
      ReservedCovers(s, c.op.id);
      assert s.db.inventory + map[] == s.db.inventory;
    }
  }

  lemma MoveHolds(s: State, t: nat)
    requires Enabled(s, t) && Conserved(s.db, s.nextId) && CallOk(s, s.calls[t])
    ensures var c := s.calls[t]; var m := MoveOf(s, t);
      && (forall k :: HoldsStock(Moved(c, m), k) <==>
            !Ends(m) && (HoldsStock(c, k) || (m.LockStock? && m.key == k)))
      && (forall i :: HoldsReservation(Moved(c, m), i) <==>
            !Ends(m) && (HoldsReservation(c, i) || (m.LockReservation? && m.id == i)))
  {
    var c := s.calls[t];
    if InTransaction(c.pc) {
      if c.op.Reserve? {
        ReserveMoveHolds(s.catalog, s.db, s.nextId, c);
      } else {
        ReleaseMoveHolds(s, c);
      }
    }
  }

  // A statement that takes a lock runs only when the lock can be granted.
  lemma MoveGranted(s: State, t: nat)
    requires Enabled(s, t) && CallOk(s, s.calls[t])
    ensures var m := MoveOf(s, t);
      && (m.LockStock? ==> Grantable(s.stockLocks, m.key, t))
      && (m.LockReservation? ==> Grantable(s.reservationLocks, m.id, t))
  {
    assert s.db.inventory + map[] == s.db.inventory;
    assert s.db.reservations + map[] == s.db.reservations;
  }

  lemma StepKeepsStockLocks(s: State, t: nat)
    requires Enabled(s, t) && Conserved(s.db, s.nextId) && LocksOk(s) && CallOk(s, s.calls[t])
    ensures forall k :: k in Step(s, t).stockLocks ==> Step(s, t).stockLocks[k] < |s.calls|
    ensures var s' := Step(s, t);
      forall u: nat, k :: u < |s'.calls| ==>
        (HoldsStock(s'.calls[u], k) <==> k in s'.stockLocks && s'.stockLocks[k] == u)
  {
    var s' := Step(s, t);
    MoveHolds(s, t);
    MoveGranted(s, t);
    forall u: nat, k | u < |s'.calls|
      ensures HoldsStock(s'.calls[u], k) <==> k in s'.stockLocks && s'.stockLocks[k] == u
    {
      assert HoldsStock(s.calls[u], k) <==> k in s.stockLocks && s.stockLocks[k] == u;
    }
  }

  lemma StepKeepsReservationLocks(s: State, t: nat)
    requires Enabled(s, t) && Conserved(s.db, s.nextId) && LocksOk(s) && CallOk(s, s.calls[t])
    ensures forall i :: i in Step(s, t).reservationLocks ==> Step(s, t).reservationLocks[i] < |s.calls|
    ensures var s' := Step(s, t);
      forall u: nat, i :: u < |s'.calls| ==>
        (HoldsReservation(s'.calls[u], i) <==> i in s'.reservationLocks && s'.reservationLocks[i] == u)
  {
    var s' := Step(s, t);
    MoveHolds(s, t);
    MoveGranted(s, t);
    forall u: nat, i | u < |s'.calls|
      ensures HoldsReservation(s'.calls[u], i) <==> i in s'.reservationLocks && s'.reservationLocks[i] == u
    {
      assert HoldsReservation(s.calls[u], i) <==> i in s.reservationLocks && s.reservationLocks[i] == u;
    }
  }

  lemma StepKeepsLocks(s: State, t: nat)
    requires Enabled(s, t) && Conserved(s.db, s.nextId) && LocksOk(s) && CallOk(s, s.calls[t])
    ensures LocksOk(Step(s, t))
  {
    StepKeepsStockLocks(s, t);
    StepKeepsReservationLocks(s, t);
    StepFrame(s, t);
  }

  // A reserve's COMMIT adds an active reservation and the same units to its row.
  lemma ReserveConserves(db: Db, n: int, key: Key, id: int, r: Reservation)
    requires Conserved(db, n) && 0 <= id < n && id !in db.reservations
    requires r.key == key && r.status == Active && r.Ok()
    requires key in db.inventory && r.quantity <= db.inventory[key].Atp()
    ensures Conserved(Db(db.inventory[key := Stock(db.inventory[key].onHand, db.inventory[key].reserved + r.quantity)],
                         db.reservations[id := r]), n)
  {
    var db' := Db(db.inventory[key := Stock(db.inventory[key].onHand, db.inventory[key].reserved + r.quantity)],
                  db.reservations[id := r]);
    forall k | k in db'.inventory ensures StockOk(db', k, n) {
      assert StockOk(db, k, n);
      ActiveUnitsUpdate(db.reservations, k, n, id, r);
    }
    forall i | i in db'.reservations ensures ReservationOk(db', i, n) {
      assert i != id ==> ReservationOk(db, i, n);
    }
  }

  // A release's COMMIT takes the reservation out of the sum and its units off the row.
  lemma ReleaseConserves(db: Db, n: int, id: int)
    requires Conserved(db, n) && id in db.reservations && db.reservations[id].status == Active
    requires var r := db.reservations[id]; r.key in db.inventory && r.quantity <= db.inventory[r.key].reserved
    ensures var r := db.reservations[id];
      Conserved(Db(db.inventory[r.key := Stock(db.inventory[r.key].onHand, db.inventory[r.key].reserved - r.quantity)],
                   db.reservations[id := r.(status := Released)]), n)
  {
    var r := db.reservations[id];
    var db' := Db(db.inventory[r.key := Stock(db.inventory[r.key].onHand, db.inventory[r.key].reserved - r.quantity)],
                  db.reservations[id := r.(status := Released)]);
    assert ReservationOk(db, id, n);
    forall k | k in db'.inventory ensures StockOk(db', k, n) {
      assert StockOk(db, k, n);
      ActiveUnitsUpdate(db.reservations, k, n, id, r.(status := Released));
    }
    forall i | i in db'.reservations ensures ReservationOk(db', i, n) {
      assert ReservationOk(db, i, n);
    }
  }

  // Drawing an id that no row carries changes no sum.
  lemma SequenceConserves(db: Db, n: int)
    requires Conserved(db, n)
    ensures Conserved(db, n + 1)
  {
    forall k | k in db.inventory ensures StockOk(db, k, n + 1) {
      assert StockOk(db, k, n);
      assert n in db.reservations ==> ReservationOk(db, n, n);
    }
    forall i | i in db.reservations ensures ReservationOk(db, i, n + 1) {
      assert ReservationOk(db, i, n);
    }
  }

  lemma StepConserves(s: State, t: nat)
    requires Enabled(s, t) && Conserved(s.db, s.nextId) && CallOk(s, s.calls[t])
    ensures Conserved(Step(s, t).db, Step(s, t).nextId)
  {
    var c := s.calls[t];
    StepDb(s, t);
    match c.pc
    case StockUpdated(key, atp) =>
      SequenceConserves(s.db, s.nextId);
    case RowInserted(key, atp, id) =>
      assert StockOk(s.db, key, s.nextId);
      ReserveConserves(s.db, s.nextId, key, id, Reservation(key, c.op.quantity, c.op.buyer, Active));
    case AtpRead(r, seen) =>
      if r.status == Active {
        ReleaseConserves(s.db, s.nextId, c.op.id);
      }
    case _ =>
  }

  lemma StepKeepsInv(s: State, t: nat, poolSize: nat)
    requires Enabled(s, t) && Inv(s, poolSize)
    ensures Inv(Step(s, t), poolSize)
  {
    assert CallOk(s, s.calls[t]);
    StepConserves(s, t);
    StepKeepsLocks(s, t);
    StepKeepsCalls(s, t);
    StepKeepsPool(s, t);
  }

  // ---- whole runs -------------------------------------------------------------

  lemma {:induction false} AllIdleOpenCount(calls: seq<Call>)
    requires forall t: nat :: t < |calls| ==> calls[t].pc.Idle?
    ensures OpenCount(calls) == 0
    decreases |calls|
  {
    if calls != [] {
      AllIdleOpenCount(calls[..|calls| - 1]);
    }
  }

  lemma InitInv(s: State)
    requires Init(s)
    ensures Inv(s, s.free)
  {
    AllIdleOpenCount(s.calls);
  }

  lemma {:induction false} RunKeepsInv(s: State, sched: seq<nat>, poolSize: nat)
    requires Runs(s, sched) && Inv(s, poolSize)
    ensures Inv(Run(s, sched), poolSize)
    decreases |sched|
  {
    if sched != [] {
      StepKeepsInv(s, sched[0], poolSize);
      RunKeepsInv(Step(s, sched[0]), sched[1..], poolSize);
    }
  }

  /**
   Conservation and no oversell: whatever the schedule, every committed row has
   0 <= reserved <= on_hand with reserved the sum of its active reservations, and no
   call has ended because a CHECK constraint refused one of its writes.
   */
  lemma NoOversell(s: State, sched: seq<nat>)
    requires Init(s) && Runs(s, sched)
    ensures var s' := Run(s, sched);
      && (forall key :: key in s'.db.inventory ==>
            var row := s'.db.inventory[key];
            0 <= row.reserved <= row.onHand && row.reserved == ActiveUnits(s'.db.reservations, key, s'.nextId))
      && (forall t: nat :: t < |s'.calls| && s'.calls[t].pc.Done? ==>
            !s'.calls[t].pc.out.CheckViolation? && !s'.calls[t].pc.out.NoAtpRow?)
  {
    InitInv(s);
    RunKeepsInv(s, sched, s.free);
    var s' := Run(s, sched);
    forall key | key in s'.db.inventory
      ensures var row := s'.db.inventory[key];
        0 <= row.reserved <= row.onHand && row.reserved == ActiveUnits(s'.db.reservations, key, s'.nextId)
    {
      assert StockOk(s'.db, key, s'.nextId);
    }
    forall t: nat | t < |s'.calls| && s'.calls[t].pc.Done?
      ensures !s'.calls[t].pc.out.CheckViolation? && !s'.calls[t].pc.out.NoAtpRow?
    {
      assert CallOk(s', s'.calls[t]);
    }
  }
}
