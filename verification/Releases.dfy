/** What releases give back, and what they answer, under every schedule. */
module Releases {
  import opened Store
  import opened Protocol
  import opened ProtocolInvariant

  // ---- the status of a reservation ------------------------------------------------
  predicate IsReleased(db: Db, id: int) { id in db.reservations && db.reservations[id].status == Released }

  // The step of call t moves reservation id from active to released.
  predicate Frees(s: State, t: nat, id: int)
    requires Enabled(s, t)
  {
    id in s.db.reservations && s.db.reservations[id].status == Active && IsReleased(Step(s, t).db, id)
  }

  function TimesFreed(s: State, sched: seq<nat>, id: int): nat
    requires Runs(s, sched)
    decreases |sched|
  {
    if sched == [] then 0
    else (if Frees(s, sched[0], id) then 1 else 0) + TimesFreed(Step(s, sched[0]), sched[1..], id)
  }

  // Rows are never deleted or redirected, and released is final.
  ghost predicate Continues(db: Db, db': Db) {
    && db'.inventory.Keys == db.inventory.Keys
    && (forall k :: k in db.inventory ==> db'.inventory[k].onHand == db.inventory[k].onHand)
    && (forall id :: id in db.reservations ==>
          && id in db'.reservations
          && db'.reservations[id].(status := Active) == db.reservations[id].(status := Active)
          && (IsReleased(db, id) ==> IsReleased(db', id)))
  }

  lemma StepContinues(s: State, t: nat)
    requires Enabled(s, t) && CallOk(s, s.calls[t])
    ensures Continues(s.db, Step(s, t).db)
    ensures forall id :: id !in s.db.reservations ==> !IsReleased(Step(s, t).db, id)
  {
    StepDb(s, t);
  }

  // The step that frees a reservation takes exactly its units off its row.
  lemma FreeingReturnsUnits(s: State, t: nat, id: int)
    requires Enabled(s, t) && CallOk(s, s.calls[t]) && Frees(s, t, id)
    ensures var r := s.db.reservations[id];
      && r.key in s.db.inventory
      && Step(s, t).db.inventory ==
         s.db.inventory[r.key := Stock(s.db.inventory[r.key].onHand, s.db.inventory[r.key].reserved - r.quantity)]
  {
    StepDb(s, t);
  }

  lemma ContinuesOn(a: Db, b: Db, c: Db)
    requires Continues(a, b) && Continues(b, c)
    ensures Continues(a, c)
  {
  }

  lemma {:induction false} RunContinues(s: State, sched: seq<nat>, poolSize: nat)
    requires Inv(s, poolSize) && Runs(s, sched)
    ensures Continues(s.db, Run(s, sched).db)
    decreases |sched|
  {
    if sched != [] {
      assert CallOk(s, s.calls[sched[0]]);
      StepContinues(s, sched[0]);
      StepKeepsInv(s, sched[0], poolSize);
      RunContinues(Step(s, sched[0]), sched[1..], poolSize);
      ContinuesOn(s.db, Step(s, sched[0]).db, Run(s, sched).db);
    }
  }

  // A reservation leaves active in one step of a run that releases it, in none of any other.
  lemma {:induction false} FreedOnce(s: State, sched: seq<nat>, id: int, poolSize: nat)
    requires Inv(s, poolSize) && Runs(s, sched)
    ensures TimesFreed(s, sched, id) == if IsReleased(Run(s, sched).db, id) && !IsReleased(s.db, id) then 1 else 0
    decreases |sched|
  {
    if sched != [] {
      assert CallOk(s, s.calls[sched[0]]);
      StepContinues(s, sched[0]);
      StepKeepsInv(s, sched[0], poolSize);
      RunContinues(Step(s, sched[0]), sched[1..], poolSize);
      FreedOnce(Step(s, sched[0]), sched[1..], id, poolSize);
    }
  }

  // ---- what callers were told -----------------------------------------------------

  // Call c released id, as it told its caller.
  predicate Acknowledges(c: Call, id: int) {
    c.op == Op.Release(id) && c.pc.Done? && c.pc.out.ReleaseDone? && c.pc.out.id == id
  }

  // Call c made reservation id, as it told its caller.
  predicate Books(c: Call, id: int) {
    c.op.Reserve? && c.pc.Done? && c.pc.out.Reserved? && c.pc.out.id == id
  }

  ghost predicate Acknowledged(s: State, id: int) { exists t: nat :: t < |s.calls| && Acknowledges(s.calls[t], id) }

  ghost predicate Booked(s: State, id: int) { exists t: nat :: t < |s.calls| && Books(s.calls[t], id) }

  // What a finished call answered is so in the tables; `start` are those the run began with.
  predicate Truthful(start: Db, db: Db, c: Call) {
    c.pc.Done? ==>
      if c.op.Reserve? then
        && !c.pc.out.ReleaseDone?
        && (c.pc.out.Reserved? ==> c.pc.out.id in db.reservations && c.pc.out.id !in start.reservations)
      else
        || (Acknowledges(c, c.op.id) && IsReleased(db, c.op.id))
        || (c.pc.out == UnknownReservation(c.op.id) && c.op.id !in start.reservations)
  }

  // Every answer is so, and every change of the reservations was answered for.
  ghost predicate Accounted(start: Db, s: State) {
    && Continues(start, s.db)
    && (forall t: nat :: t < |s.calls| ==> Truthful(start, s.db, s.calls[t]))
    && (forall id :: IsReleased(s.db, id) && !IsReleased(start, id) ==> Acknowledged(s, id))
    && (forall id :: id in s.db.reservations && id !in start.reservations ==> Booked(s, id))
  }

  lemma ReserveTruthful(start: Db, s: State, t: nat)
    requires Enabled(s, t) && CallOk(s, s.calls[t]) && Continues(start, s.db) && s.calls[t].op.Reserve?
    ensures Truthful(start, Step(s, t).db, Step(s, t).calls[t])
  {
    StepDb(s, t);
  }

  lemma ReleaseTruthful(start: Db, s: State, t: nat)
    requires Enabled(s, t) && CallOk(s, s.calls[t]) && Continues(start, s.db) && s.calls[t].op.Release?
    requires CallOk(Step(s, t), Step(s, t).calls[t])
    ensures Truthful(start, Step(s, t).db, Step(s, t).calls[t])
  {
    StepDb(s, t);
  }

  lemma StepTruthful(start: Db, s: State, t: nat, poolSize: nat)
    requires Inv(s, poolSize) && Enabled(s, t) && Continues(start, s.db)
    ensures Truthful(start, Step(s, t).db, Step(s, t).calls[t])
  {
    assert CallOk(s, s.calls[t]);
    if s.calls[t].op.Reserve? {
      ReserveTruthful(start, s, t);
    } else {
      StepKeepsOwnCall(s, t);
      ReleaseTruthful(start, s, t);
    }
  }

  // Whoever changes a reservation says so in the same step, its COMMIT.
  lemma StepAnswers(s: State, t: nat)
    requires Enabled(s, t) && CallOk(s, s.calls[t])
    ensures var s' := Step(s, t);
      && (forall id :: IsReleased(s'.db, id) && !IsReleased(s.db, id) ==> Acknowledges(s'.calls[t], id))
      && (forall id :: id in s'.db.reservations && id !in s.db.reservations ==> Books(s'.calls[t], id))
  {
    StepDb(s, t);
  }

  // Answers are final.
  lemma AnswersStand(s: State, t: nat)
    requires Enabled(s, t)
    ensures forall id :: Acknowledged(s, id) ==> Acknowledged(Step(s, t), id)
    ensures forall id :: Booked(s, id) ==> Booked(Step(s, t), id)
  {
    StepFrame(s, t);
    forall id | Acknowledged(s, id) ensures Acknowledged(Step(s, t), id) {
      var u: nat :| u < |s.calls| && Acknowledges(s.calls[u], id);
      assert Acknowledges(Step(s, t).calls[u], id);
    }
    forall id | Booked(s, id) ensures Booked(Step(s, t), id) {
      var u: nat :| u < |s.calls| && Books(s.calls[u], id);
      assert Books(Step(s, t).calls[u], id);
    }
  }

  lemma AllTruthful(start: Db, s: State, t: nat, poolSize: nat)
    requires Inv(s, poolSize) && Enabled(s, t) && Accounted(start, s)
    ensures var s' := Step(s, t); forall u: nat :: u < |s'.calls| ==> Truthful(start, s'.db, s'.calls[u])
  {
    var s' := Step(s, t);
    assert CallOk(s, s.calls[t]);
    StepContinues(s, t);
    StepFrame(s, t);
    forall u: nat | u < |s'.calls| ensures Truthful(start, s'.db, s'.calls[u]) {
      if u == t {
        StepTruthful(start, s, t, poolSize);
      } else {
        assert Truthful(start, s.db, s.calls[u]);
      }
    }
  }

  lemma StepAccounts(start: Db, s: State, t: nat, poolSize: nat)
    requires Inv(s, poolSize) && Enabled(s, t) && Accounted(start, s)
    ensures Accounted(start, Step(s, t))
  {
    var s' := Step(s, t);
    assert CallOk(s, s.calls[t]);
    StepContinues(s, t);
    ContinuesOn(start, s.db, s'.db);
    AllTruthful(start, s, t, poolSize);
    StepFrame(s, t);
    StepAnswers(s, t);
    AnswersStand(s, t);
  }

  lemma {:induction false} RunAccounts(start: Db, s: State, sched: seq<nat>, poolSize: nat)
    requires Inv(s, poolSize) && Runs(s, sched) && Accounted(start, s)
    ensures Accounted(start, Run(s, sched))
    decreases |sched|
  {
    if sched != [] {
      StepKeepsInv(s, sched[0], poolSize);
      StepAccounts(start, s, sched[0], poolSize);
      RunAccounts(start, Step(s, sched[0]), sched[1..], poolSize);
    }
  }

  lemma AccountedFromStart(s: State, sched: seq<nat>)
    requires Init(s) && Runs(s, sched)
    ensures Accounted(s.db, Run(s, sched)) && Inv(Run(s, sched), s.free)
    ensures forall t: nat :: t < |s.calls| ==> Run(s, sched).calls[t].op == s.calls[t].op
  {
    InitInv(s);
    RunKeepsInv(s, sched, s.free);
    RunAccounts(s.db, s, sched, s.free);
    RunKeepsOps(s, sched);
  }

  lemma {:induction false} RunKeepsOps(s: State, sched: seq<nat>)
    requires Runs(s, sched)
    ensures Run(s, sched).catalog == s.catalog
    ensures forall t: nat :: t < |s.calls| ==> Run(s, sched).calls[t].op == s.calls[t].op
    decreases |sched|
  {
    if sched != [] {
      StepFrame(s, sched[0]);
      RunKeepsOps(Step(s, sched[0]), sched[1..]);
    }
  }

  /**
   Exactly-once release: however many release calls for an id run, concurrently or again
   and again, its status leaves active in exactly one step as soon as one of them has
   answered, and in no step before that or without one; nothing else about a reservation
   ever changes.
   */
  lemma ReleasedOnce(s: State, sched: seq<nat>, id: int)
    requires Init(s) && Runs(s, sched)
    ensures var s' := Run(s, sched);
      && Continues(s.db, s'.db)
      && (IsReleased(s'.db, id) <==> IsReleased(s.db, id) || Acknowledged(s', id))
      && TimesFreed(s, sched, id) == if Acknowledged(s', id) && !IsReleased(s.db, id) then 1 else 0
  {
    InitInv(s);
    FreedOnce(s, sched, id, s.free);
    AccountedFromStart(s, sched);
    var s' := Run(s, sched);
    if t: nat :| t < |s'.calls| && Acknowledges(s'.calls[t], id) {
      assert Truthful(s.db, s'.db, s'.calls[t]);
    }
  }

  /**
   A finished release has released its reservation, unless that did not exist when it
   looked; in particular it succeeds for every reservation older than the run.
   */
  lemma ReleaseAnswers(s: State, sched: seq<nat>, t: nat)
    requires Init(s) && Runs(s, sched) && t < |s.calls| && s.calls[t].op.Release?
    ensures var s' := Run(s, sched); var id := s.calls[t].op.id;
      s'.calls[t].pc.Done? ==>
        if s'.calls[t].pc.out.ReleaseDone? then Acknowledges(s'.calls[t], id) && IsReleased(s'.db, id)
        else s'.calls[t].pc.out == UnknownReservation(id) && id !in s.db.reservations
  {
    AccountedFromStart(s, sched);
    assert Truthful(s.db, Run(s, sched).db, Run(s, sched).calls[t]);
  }

  lemma {:induction false} SameActiveUnits(
      rs: map<int, Reservation>, rs': map<int, Reservation>, key: Key, n: int, n': int)
    requires 0 <= n <= n'
    requires forall id :: id in rs ==> id < n && id in rs' && Claim(rs'[id], key) == Claim(rs[id], key)
    requires forall id :: id in rs' && id !in rs ==> Claim(rs'[id], key) == 0
    ensures ActiveUnits(rs, key, n) == ActiveUnits(rs', key, n')
    decreases n'
  {
    if n' > n {
      SameActiveUnits(rs, rs', key, n, n' - 1);
    } else if n > 0 {
      SameActiveUnitsUpTo(rs, rs', key, n);
    }
  }

  lemma {:induction false} SameActiveUnitsUpTo(rs: map<int, Reservation>, rs': map<int, Reservation>, key: Key, n: int)
    requires forall id :: id in rs ==> id in rs' && Claim(rs'[id], key) == Claim(rs[id], key)
    requires forall id :: id in rs' && id !in rs ==> Claim(rs'[id], key) == 0
    ensures ActiveUnits(rs, key, n) == ActiveUnits(rs', key, n)
    decreases n
  {
    if n > 0 {
      SameActiveUnitsUpTo(rs, rs', key, n - 1);
    }
  }

  /**
   When every reserve that succeeded in a run was followed by a release that answered for
   its id, in whatever order and however interleaved, and no older active reservation was
   released, the inventory table is what it was at the start.
   */
  lemma ReleasingAllRestores(s: State, sched: seq<nat>)
    requires Init(s) && Runs(s, sched)
    requires forall id :: Booked(Run(s, sched), id) ==> Acknowledged(Run(s, sched), id)
    requires forall id :: id in s.db.reservations && s.db.reservations[id].status == Active ==>
      !Acknowledged(Run(s, sched), id)
    ensures Run(s, sched).db.inventory == s.db.inventory
  {
    AccountedFromStart(s, sched);
    SequenceGrows(s, sched);
    var s' := Run(s, sched);
    forall id | id in s'.db.reservations ensures
      if id in s.db.reservations then s'.db.reservations[id] == s.db.reservations[id] else IsReleased(s'.db, id)
    {
      ReleasedOnce(s, sched, id);
    }
    forall key | key in s.db.inventory ensures s'.db.inventory[key] == s.db.inventory[key] {
      assert StockOk(s.db, key, s.nextId) && StockOk(s'.db, key, s'.nextId);
      forall id | id in s.db.reservations ensures id < s.nextId && id in s'.db.reservations {
        assert ReservationOk(s.db, id, s.nextId);
      }
      SameActiveUnits(s.db.reservations, s'.db.reservations, key, s.nextId, s'.nextId);
    }
  }

  lemma {:induction false} SequenceGrows(s: State, sched: seq<nat>)
    requires Runs(s, sched)
    ensures s.nextId <= Run(s, sched).nextId
    decreases |sched|
  {
    if sched != [] {
      SequenceGrows(Step(s, sched[0]), sched[1..]);
    }
  }

  // ---- one caller after another -------------------------------------------------

  /** A reservation that is released at once leaves the stock as it was, and releasing it again changes nothing. */
  lemma ReserveReleaseRelease(catalog: Catalog, db: Db, op: Op, id: int)
    requires op.Reserve? && SerialReserve(catalog, db, op, id).1.Reserved?
    requires forall key :: key in db.inventory ==> db.inventory[key].Ok()
    ensures var db1 := SerialReserve(catalog, db, op, id).0;
      var (db2, first) := SerialRelease(db1, id);
      var (db3, second) := SerialRelease(db2, id);
      && db2.inventory == db.inventory && IsReleased(db2, id)
      && db3 == db2 && second == first && first.ReleaseDone?
  {
    var db1 := SerialReserve(catalog, db, op, id).0;
    var key := Key(catalog[op.sku], op.warehouse);
    var row := db.inventory[key];
    assert SerialRelease(db1, id).0.inventory == db.inventory[key := Stock(row.onHand, row.reserved)];
  }
}
