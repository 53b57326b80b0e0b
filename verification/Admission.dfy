/** Which reserves succeed, under every schedule. */
module Admission {
  import opened Store
  import opened Protocol
  import opened ProtocolInvariant
  import opened Serialisability
  import opened Releases

  // ---- races for a row --------------------------------------------------------------

  // The operation is a reserve of something at row key.
  predicate AsksFor(catalog: Catalog, op: Op, key: Key) {
    op.Reserve? && op.quantity > 0 && op.sku in catalog && Key(catalog[op.sku], op.warehouse) == key
  }

  predicate Targets(catalog: Catalog, c: Call, key: Key) { AsksFor(catalog, c.op, key) }

  predicate Won(catalog: Catalog, c: Call, key: Key) {
    Targets(catalog, c, key) && c.pc.Done? && c.pc.out.Reserved?
  }

  predicate Rejected(c: Call) { Settled(c) && Answer(c).InsufficientStock? }

  function WonUnits(catalog: Catalog, calls: seq<Call>, key: Key): int {
    if calls == [] then 0
    else
      var c := calls[|calls| - 1];
      WonUnits(catalog, calls[..|calls| - 1], key) + if Won(catalog, c, key) then c.op.quantity else 0
  }

  function WonCount(catalog: Catalog, calls: seq<Call>, key: Key): nat {
    if calls == [] then 0
    else
      WonCount(catalog, calls[..|calls| - 1], key) + if Won(catalog, calls[|calls| - 1], key) then 1 else 0
  }

  function TargetCount(catalog: Catalog, calls: seq<Call>, key: Key): nat {
    if calls == [] then 0
    else
      TargetCount(catalog, calls[..|calls| - 1], key) + if Targets(catalog, calls[|calls| - 1], key) then 1 else 0
  }

  lemma {:induction false} WonUnitsUpdate(catalog: Catalog, calls: seq<Call>, key: Key, t: nat, c: Call)
    requires t < |calls|
    ensures WonUnits(catalog, calls[t := c], key) - (if Won(catalog, c, key) then c.op.quantity else 0)
      == WonUnits(catalog, calls, key) - (if Won(catalog, calls[t], key) then calls[t].op.quantity else 0)
    decreases |calls|
  {
    var n := |calls| - 1;
    if t < n {
      WonUnitsUpdate(catalog, calls[..n], key, t, c);
      assert calls[t := c][..n] == calls[..n][t := c];
    } else {
      assert calls[t := c][..n] == calls[..n];
    }
  }

  // Between db and db' no reservation of row key was released; other rows' may have been.
  ghost predicate NothingFreed(db: Db, db': Db, key: Key) {
    forall id :: IsReleased(db', id) && !IsReleased(db, id) ==> db'.reservations[id].key != key
  }

  lemma NothingFreedBetween(a: Db, b: Db, c: Db, key: Key)
    requires Continues(a, b) && Continues(b, c) && NothingFreed(a, c, key)
    ensures NothingFreed(a, b, key) && NothingFreed(b, c, key)
  {
    forall id | IsReleased(b, id) && !IsReleased(a, id) ensures b.reservations[id].key != key {
      assert IsReleased(c, id);
    }
  }

  // The row has grown by what was won, and whoever was turned away still does not fit.
  ghost predicate RaceInv(start: Stock, s: State, key: Key) {
    && key in s.db.inventory
    && s.db.inventory[key] == Stock(start.onHand, start.reserved + WonUnits(s.catalog, s.calls, key))
    && (forall t: nat :: t < |s.calls| && Targets(s.catalog, s.calls[t], key) ==> Raced(s, s.calls[t], key))
  }

  predicate Raced(s: State, c: Call, key: Key)
    requires key in s.db.inventory && c.op.Reserve?
  {
    && (Rejected(c) ==> c.op.quantity > s.db.inventory[key].Atp())
    && (c.pc.Done? ==> c.pc.out.Reserved? || c.pc.out.InsufficientStock?)
  }

  lemma RaceRow(start: Stock, s: State, t: nat, key: Key, poolSize: nat)
    requires Inv(s, poolSize) && Enabled(s, t) && RaceInv(start, s, key)
    requires NothingFreed(s.db, Step(s, t).db, key)
    ensures var s' := Step(s, t);
      && key in s'.db.inventory
      && s'.db.inventory[key] == Stock(start.onHand, start.reserved + WonUnits(s'.catalog, s'.calls, key))
      && s'.db.inventory[key].Atp() <= s.db.inventory[key].Atp()
  {
    assert CallOk(s, s.calls[t]);
    StepDb(s, t);
    StepFrame(s, t);
    WonUnitsUpdate(s.catalog, s.calls, key, t, Step(s, t).calls[t]);
  }

  lemma RaceTurn(start: Stock, s: State, t: nat, key: Key, poolSize: nat)
    requires Inv(s, poolSize) && Enabled(s, t) && RaceInv(start, s, key) && Targets(s.catalog, s.calls[t], key)
    requires NothingFreed(s.db, Step(s, t).db, key)
    ensures key in Step(s, t).db.inventory && Raced(Step(s, t), Step(s, t).calls[t], key)
  {
    var c := s.calls[t];
    assert CallOk(s, c) && Raced(s, c, key);
    StepDb(s, t);
    assert s.db.inventory + map[] == s.db.inventory;
    if c.pc.HaveStock? || c.pc.StockUpdated? {
      assert StockOk(s.db, c.pc.key, s.nextId);
      ReserveKeepsOwnCall(s, t);
    }
  }

  lemma RaceStep(start: Stock, s: State, t: nat, key: Key, poolSize: nat)
    requires Inv(s, poolSize) && Enabled(s, t) && RaceInv(start, s, key)
    requires NothingFreed(s.db, Step(s, t).db, key)
    ensures RaceInv(start, Step(s, t), key)
  {
    var s' := Step(s, t);
    RaceRow(start, s, t, key, poolSize);
    StepFrame(s, t);
    forall u: nat | u < |s'.calls| && Targets(s'.catalog, s'.calls[u], key) ensures Raced(s', s'.calls[u], key) {
      if u == t {
        RaceTurn(start, s, t, key, poolSize);
      } else {
        assert Raced(s, s.calls[u], key);
      }
    }
  }

  lemma {:induction false} RaceRun(start: Stock, s: State, sched: seq<nat>, key: Key, poolSize: nat)
    requires Inv(s, poolSize) && Runs(s, sched) && RaceInv(start, s, key)
    requires NothingFreed(s.db, Run(s, sched).db, key)
    ensures RaceInv(start, Run(s, sched), key) && Inv(Run(s, sched), poolSize)
    decreases |sched|
  {
    if sched != [] {
      var s' := Step(s, sched[0]);
      assert CallOk(s, s.calls[sched[0]]);
      StepContinues(s, sched[0]);
      StepKeepsInv(s, sched[0], poolSize);
      RunContinues(s', sched[1..], poolSize);
      NothingFreedBetween(s.db, s'.db, Run(s, sched).db, key);
      RaceStep(start, s, sched[0], key, poolSize);
      RaceRun(start, s', sched[1..], key, poolSize);
    }
  }

  lemma {:induction false} NobodyWonYet(catalog: Catalog, calls: seq<Call>, key: Key)
    requires forall t: nat :: t < |calls| ==> calls[t].pc.Idle?
    ensures WonUnits(catalog, calls, key) == 0
    decreases |calls|
  {
    if calls != [] {
      NobodyWonYet(catalog, calls[..|calls| - 1], key);
    }
  }

  lemma RaceFromStart(s: State, sched: seq<nat>, key: Key)
    requires Init(s) && Runs(s, sched) && key in s.db.inventory && NothingFreed(s.db, Run(s, sched).db, key)
    ensures RaceInv(s.db.inventory[key], Run(s, sched), key) && Inv(Run(s, sched), s.free)
    ensures Run(s, sched).catalog == s.catalog
    ensures forall t: nat :: t < |s.calls| ==> Run(s, sched).calls[t].op == s.calls[t].op
  {
    InitInv(s);
    NobodyWonYet(s.catalog, s.calls, key);
    RaceRun(s.db.inventory[key], s, sched, key, s.free);
    RunKeepsOps(s, sched);
  }

  /**
   Maximal admission: while no reservation of the row is released, a request that was
   turned away for lack of stock exceeds the stock still available at any later point.
   */
  lemma RejectedNeverFits(s: State, sched: seq<nat>, key: Key, t: nat)
    requires Init(s) && Runs(s, sched) && key in s.db.inventory && NothingFreed(s.db, Run(s, sched).db, key)
    requires t < |s.calls| && AsksFor(s.catalog, s.calls[t].op, key)
    ensures var s' := Run(s, sched);
      && key in s'.db.inventory
      && (s'.calls[t].pc.Done? && s'.calls[t].pc.out.InsufficientStock? ==>
            s.calls[t].op.quantity > s'.db.inventory[key].onHand - s'.db.inventory[key].reserved)
  {
    RaceFromStart(s, sched, key);
    var s' := Run(s, sched);
    assert Targets(s'.catalog, s'.calls[t], key);
    assert Raced(s', s'.calls[t], key);
  }

  lemma {:induction false} EqualQuantities(catalog: Catalog, calls: seq<Call>, key: Key, q: int)
    requires forall t: nat :: t < |calls| && Targets(catalog, calls[t], key) ==> calls[t].op.quantity == q
    ensures WonUnits(catalog, calls, key) == q * WonCount(catalog, calls, key)
    decreases |calls|
  {
    if calls != [] {
      var n := |calls| - 1;
      EqualQuantities(catalog, calls[..n], key, q);
      var w := WonCount(catalog, calls[..n], key);
      assert q * (w + 1) == q * w + q;
    }
  }

  lemma {:induction false} SomeoneLost(catalog: Catalog, calls: seq<Call>, key: Key) returns (t: nat)
    requires WonCount(catalog, calls, key) < TargetCount(catalog, calls, key)
    ensures t < |calls| && Targets(catalog, calls[t], key) && !Won(catalog, calls[t], key)
    decreases |calls|
  {
    var n := |calls| - 1;
    if Targets(catalog, calls[n], key) && !Won(catalog, calls[n], key) {
      t := n;
    } else {
      t := SomeoneLost(catalog, calls[..n], key);
    }
  }

  lemma {:induction false} WonAtMostTargets(catalog: Catalog, calls: seq<Call>, key: Key)
    ensures WonCount(catalog, calls, key) <= TargetCount(catalog, calls, key)
    decreases |calls|
  {
    if calls != [] {
      WonAtMostTargets(catalog, calls[..|calls| - 1], key);
    }
  }

  lemma NextMultiple(q: int, x: int, y: int)
    requires q > 0 && x < y
    ensures q * x + q <= q * y
  {
    assert q * (x + 1) <= q * y;
  }

  // q * w units are the most that fit into a, or at least fit.
  lemma QuotientIs(a: int, q: int, w: int)
    requires q > 0 && q * w <= a
    ensures w <= a / q
    ensures a < q * w + q ==> w == a / q
  {
    var d, r := a / q, a % q;
    assert a == q * d + r && 0 <= r < q;
    if d < w {
      NextMultiple(q, d, w);
    } else if w < d {
      NextMultiple(q, w, d);
    }
  }

  lemma AdmissionAtEnd(start: Stock, s: State, key: Key, q: int, poolSize: nat)
    requires Inv(s, poolSize) && RaceInv(start, s, key) && AllFinished(s) && q > 0
    requires forall t: nat :: t < |s.calls| && Targets(s.catalog, s.calls[t], key) ==> s.calls[t].op.quantity == q
    ensures var racers := TargetCount(s.catalog, s.calls, key); var fit := start.Atp() / q;
      WonCount(s.catalog, s.calls, key) == if racers <= fit then racers else fit
  {
    EqualQuantities(s.catalog, s.calls, key, q);
    WonAtMostTargets(s.catalog, s.calls, key);
    var won := WonCount(s.catalog, s.calls, key);
    assert StockOk(s.db, key, s.nextId);
    QuotientIs(start.Atp(), q, won);
    if won < TargetCount(s.catalog, s.calls, key) {
      var t := SomeoneLost(s.catalog, s.calls, key);
      assert Raced(s, s.calls[t], key);
    }
  }

  // The calls that ask for stock of the row, and those that were told it is theirs.
  function Racers(catalog: Catalog, calls: seq<Call>, key: Key): set<nat> {
    set t: nat | t < |calls| && AsksFor(catalog, calls[t].op, key)
  }

  function Winners(catalog: Catalog, calls: seq<Call>, key: Key): set<nat> {
    set t: nat | t < |calls| && AsksFor(catalog, calls[t].op, key) && calls[t].pc.Done? && calls[t].pc.out.Reserved?
  }

  lemma RacersStep(catalog: Catalog, calls: seq<Call>, key: Key)
    requires calls != []
    ensures var n := |calls| - 1;
      var more := if Targets(catalog, calls[n], key) then 1 else 0;
      |Racers(catalog, calls, key)| == |Racers(catalog, calls[..n], key)| + more
  {
    var n := |calls| - 1;
    var before := Racers(catalog, calls[..n], key);
    assert Racers(catalog, calls, key) == if Targets(catalog, calls[n], key) then before + {n} else before;
  }

  lemma WinnersStep(catalog: Catalog, calls: seq<Call>, key: Key)
    requires calls != []
    ensures var n := |calls| - 1;
      var more := if Won(catalog, calls[n], key) then 1 else 0;
      |Winners(catalog, calls, key)| == |Winners(catalog, calls[..n], key)| + more
  {
    var n := |calls| - 1;
    var before := Winners(catalog, calls[..n], key);
    assert Winners(catalog, calls, key) == if Won(catalog, calls[n], key) then before + {n} else before;
  }

  lemma {:induction false} CountsAreSizes(catalog: Catalog, calls: seq<Call>, key: Key)
    ensures TargetCount(catalog, calls, key) == |Racers(catalog, calls, key)|
    ensures WonCount(catalog, calls, key) == |Winners(catalog, calls, key)|
    decreases |calls|
  {
    if calls != [] {
      CountsAreSizes(catalog, calls[..|calls| - 1], key);
      RacersStep(catalog, calls, key);
      WinnersStep(catalog, calls, key);
    }
  }

  // The count of winners and of racers as sets, at the end of a race.
  lemma SizesAtEnd(start: Stock, s: State, key: Key, q: int, poolSize: nat)
    requires Inv(s, poolSize) && RaceInv(start, s, key) && AllFinished(s) && q > 0
    requires forall t: nat :: t < |s.calls| && Targets(s.catalog, s.calls[t], key) ==> s.calls[t].op.quantity == q
    ensures var racers := |Racers(s.catalog, s.calls, key)|; var fit := start.Atp() / q;
      |Winners(s.catalog, s.calls, key)| == if racers <= fit then racers else fit
  {
    AdmissionAtEnd(start, s, key, q, poolSize);
    CountsAreSizes(s.catalog, s.calls, key);
  }

  /**
   Exact admission: when the calls racing for a row all ask for q units and no
   reservation of that row is released, exactly min(number of them, available / q)
   succeed, whatever the schedule and whatever the remaining calls do to other rows.
   */
  lemma ExactAdmission(s: State, sched: seq<nat>, key: Key, q: int)
    requires Init(s) && Runs(s, sched) && AllFinished(Run(s, sched))
    requires key in s.db.inventory && q > 0 && NothingFreed(s.db, Run(s, sched).db, key)
    requires forall t: nat :: t < |s.calls| && AsksFor(s.catalog, s.calls[t].op, key) ==> s.calls[t].op.quantity == q
    ensures var racers := |Racers(s.catalog, s.calls, key)|;
      var fit := (s.db.inventory[key].onHand - s.db.inventory[key].reserved) / q;
      |Winners(s.catalog, Run(s, sched).calls, key)| == if racers <= fit then racers else fit
  {
    RaceFromStart(s, sched, key);
    var s' := Run(s, sched);
    forall t: nat | t < |s'.calls| && Targets(s'.catalog, s'.calls[t], key) ensures s'.calls[t].op.quantity == q {
      assert AsksFor(s.catalog, s.calls[t].op, key);
    }
    SizesAtEnd(s.db.inventory[key], s', key, q, s.free);
    assert Racers(s.catalog, s.calls, key) == Racers(s'.catalog, s'.calls, key);
  }
}
