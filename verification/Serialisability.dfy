/**
 Every interleaving is equivalent to running the calls one after the other, each in one
 piece, in the order in which they take effect.
 */
module Serialisability {
  import opened Store
  import opened Protocol
  import opened ProtocolInvariant

  // Call t takes effect, drawing reservation id `id` if it creates a row.
  datatype Event = Event(t: nat, id: int)

  // The call's answer can no longer change: it is over, its stock was read as too
  // small, or it is a repeated release whose ATP has been read.
  predicate Settled(c: Call) {
    match c.pc
    case Done(_) => true
    case HaveStock(_, stock) => c.op.Reserve? && c.op.quantity > stock.Atp()
    case AtpRead(r, seen) => c.op.Release? && r.status == Released && seen.Some?
    case _ => false
  }

  function Answer(c: Call): Outcome
    requires Settled(c)
  {
    match c.pc
    case Done(out) => out
    case HaveStock(_, stock) => InsufficientStock(c.op.quantity, stock.Atp())
    case AtpRead(_, seen) => ReleaseDone(c.op.id, seen.value)
  }

  // A call takes effect in the step that settles it.
  function Effects(s: State, t: nat): seq<Event>
    requires Enabled(s, t)
  {
    if !Settled(s.calls[t]) && Settled(Step(s, t).calls[t]) then
      [Event(t, if s.calls[t].pc.RowInserted? then s.calls[t].pc.id else 0)]
    else []
  }

  function History(s: State, sched: seq<nat>): seq<Event>
    requires Runs(s, sched)
    decreases |sched|
  {
    if sched == [] then [] else Effects(s, sched[0]) + History(Step(s, sched[0]), sched[1..])
  }

  // ---- the serial run ---------------------------------------------------------

  function Ops(s: State): seq<Op> { seq(|s.calls|, i requires 0 <= i < |s.calls| => s.calls[i].op) }

  predicate InRange(ops: seq<Op>, h: seq<Event>) { forall i :: 0 <= i < |h| ==> h[i].t < |ops| }

  function Replay(catalog: Catalog, ops: seq<Op>, db: Db, h: seq<Event>): Db
    requires InRange(ops, h)
    decreases |h|
  {
    if h == [] then db
    else Replay(catalog, ops, Serial(catalog, db, ops[h[0].t], h[0].id).0, h[1..])
  }

  function Answers(catalog: Catalog, ops: seq<Op>, db: Db, h: seq<Event>): (answers: seq<Outcome>)
    requires InRange(ops, h)
    ensures |answers| == |h|
    decreases |h|
  {
    if h == [] then []
    else
      var (db', out) := Serial(catalog, db, ops[h[0].t], h[0].id);
      [out] + Answers(catalog, ops, db', h[1..])
  }

  // Each row the serial run inserts gets an id that no earlier row has.
  predicate FreshIds(catalog: Catalog, ops: seq<Op>, db: Db, h: seq<Event>)
    requires InRange(ops, h)
    decreases |h|
  {
    h == [] ||
    var (db', out) := Serial(catalog, db, ops[h[0].t], h[0].id);
    (out.Reserved? ==> out.id !in db.reservations) && FreshIds(catalog, ops, db', h[1..])
  }

  // ---- one step refines at most one serial call --------------------------------

  lemma ReserveRefines(s: State, t: nat)
    requires Enabled(s, t) && Conserved(s.db, s.nextId) && CallOk(s, s.calls[t]) && s.calls[t].op.Reserve?
    ensures var c := s.calls[t]; var s' := Step(s, t); var e := Effects(s, t);
      && (Settled(c) ==> Settled(s'.calls[t]) && Answer(s'.calls[t]) == Answer(c) && s'.db == s.db)
      && (!Settled(c) && e == [] ==> s'.db == s.db)
      && (e != [] ==>
            && Serial(s.catalog, s.db, c.op, e[0].id) == (s'.db, Answer(s'.calls[t]))
            && (Answer(s'.calls[t]).Reserved? ==> Answer(s'.calls[t]).id !in s.db.reservations))
  {
    var c := s.calls[t];
    StepDb(s, t);
    if c.pc.HaveProduct? {
      assert s.db.inventory + map[] == s.db.inventory;
    }
    if c.pc.HaveStock? {
      assert StockOk(s.db, c.pc.key, s.nextId);
      assert s.db.inventory + map[] == s.db.inventory;
    }
    if c.pc.StockUpdated? {
      ReserveKeepsOwnCall(s, t);
      assert !Settled(Step(s, t).calls[t]) by {
        assert StockOk(s.db, c.pc.key, s.nextId);
      }
    }
    if c.pc.RowInserted? {
      assert StockOk(s.db, c.pc.key, s.nextId);
    }
  }

  lemma ReleaseRefines(s: State, t: nat)
    requires Enabled(s, t) && Conserved(s.db, s.nextId) && CallOk(s, s.calls[t]) && s.calls[t].op.Release?
    ensures var c := s.calls[t]; var s' := Step(s, t); var e := Effects(s, t);
      && (Settled(c) ==> Settled(s'.calls[t]) && Answer(s'.calls[t]) == Answer(c) && s'.db == s.db)
      && (!Settled(c) && e == [] ==> s'.db == s.db)
      && (e != [] ==> Serial(s.catalog, s.db, c.op, e[0].id) == (s'.db, Answer(s'.calls[t])))
  {
    var c := s.calls[t];
    StepDb(s, t);
    if c.pc.Begun? {
      assert s.db.reservations + map[] == s.db.reservations;
    }
    if InTransaction(c.pc) {
      ReleaseKeepsOwnCall(s, t);
    }
    if c.pc.HaveReservation? {
      assert s.db.inventory + map[] == s.db.inventory;
    }
    if c.pc.AtpRead? && c.pc.r.status == Active {
      ReservedCovers(s, c.op.id);
      assert StockOk(s.db, c.pc.r.key, s.nextId);
    }
  }

  // ---- what the answers say ------------------------------------------------------

  // What out says of a call op is so; db are the tables before it took effect and db' after.
  ghost predicate True(catalog: Catalog, db: Db, db': Db, op: Op, out: Outcome) {
    match out
    case Reserved(id, sku, warehouse, quantity, remainingAtp) =>
      && op.Reserve? && sku == op.sku && warehouse == op.warehouse && quantity == op.quantity > 0
      && sku in catalog && Key(catalog[sku], warehouse) in db'.inventory
      && (var row := db'.inventory[Key(catalog[sku], warehouse)]; remainingAtp == row.onHand - row.reserved >= 0)
      && id !in db.reservations && id in db'.reservations
      && db'.reservations[id] == Reservation(Key(catalog[sku], warehouse), quantity, op.buyer, Active)
    case ReleaseDone(id, restoredAtp) =>
      && op.Release? && id == op.id && id in db'.reservations && db'.reservations[id].status == Released
      && db'.reservations[id].key in db'.inventory
      && (var row := db'.inventory[db'.reservations[id].key]; restoredAtp == row.onHand - row.reserved >= 0)
    case InsufficientStock(requested, atp) =>
      && op.Reserve? && requested == op.quantity && op.sku in catalog
      && Key(catalog[op.sku], op.warehouse) in db'.inventory
      && (var row := db'.inventory[Key(catalog[op.sku], op.warehouse)]; requested > atp == row.onHand - row.reserved)
    case NoStockRecord(sku, warehouse) =>
      && op.Reserve? && sku == op.sku && warehouse == op.warehouse && sku in catalog
      && Key(catalog[sku], warehouse) !in db'.inventory
    case UnknownSku(sku) => op.Reserve? && sku == op.sku && sku !in catalog
    case UnknownReservation(id) => op.Release? && id == op.id && id !in db'.reservations
    case ValueError => op.Reserve? && op.quantity <= 0
    case _ => false
  }

  lemma ReserveTrue(catalog: Catalog, db: Db, n: int, op: Op, id: int)
    requires Conserved(db, n) && op.Reserve?
    ensures var (db', out) := SerialReserve(catalog, db, op, id);
      (out.Reserved? ==> out.id !in db.reservations) ==> True(catalog, db, db', op, out)
  {
    ReserveMeans(catalog, db, op, id);
    if op.sku in catalog && Key(catalog[op.sku], op.warehouse) in db.inventory {
      assert StockOk(db, Key(catalog[op.sku], op.warehouse), n);
    }
  }

  lemma ReleaseTrue(s: State, op: Op)
    requires Conserved(s.db, s.nextId) && op.Release?
    ensures var (db', out) := SerialRelease(s.db, op.id); True(s.catalog, s.db, db', op, out)
  {
    ReleaseMeans(s.db, op.id);
    if op.id in s.db.reservations {
      var r := s.db.reservations[op.id];
      assert ReservationOk(s.db, op.id, s.nextId);
      assert StockOk(s.db, r.key, s.nextId);
      if r.status == Active {
        ReservedCovers(s, op.id);
      }
    }
  }

  /**
   Answers are true when they take effect: in the very step that settles its answer, a
   reserve's remaining ATP is that of its row in the committed tables and its reservation
   is there as asked; a release's restored ATP is that of its row; and a refusal names
   what is wrong.
   */
  lemma EffectAnswers(s: State, t: nat, poolSize: nat)
    requires Inv(s, poolSize) && Enabled(s, t) && Effects(s, t) != []
    ensures True(s.catalog, s.db, Step(s, t).db, s.calls[t].op, Answer(Step(s, t).calls[t]))
  {
    assert CallOk(s, s.calls[t]);
    if s.calls[t].op.Reserve? {
      ReserveRefines(s, t);
      ReserveTrue(s.catalog, s.db, s.nextId, s.calls[t].op, Effects(s, t)[0].id);
    } else {
      ReleaseRefines(s, t);
      ReleaseTrue(s, s.calls[t].op);
    }
  }

  // ---- whole runs ---------------------------------------------------------------

  ghost predicate Distinct(h: seq<Event>) {
    forall i, j :: 0 <= i < j < |h| ==> h[i].t != h[j].t
  }

  predicate Mentions(h: seq<Event>, t: nat) { exists i :: 0 <= i < |h| && h[i].t == t }

  // The history h leads from s to s', and the answers of its serial run are the calls'.
  ghost predicate Explains(h: seq<Event>, s: State, s': State) {
    && |s'.calls| == |s.calls|
    && InRange(Ops(s), h)
    && Distinct(h)
    && Replay(s.catalog, Ops(s), s.db, h) == s'.db
    && FreshIds(s.catalog, Ops(s), s.db, h)
    && (forall i :: 0 <= i < |h| ==>
          Settles(s.calls[h[i].t], s'.calls[h[i].t], Answers(s.catalog, Ops(s), s.db, h)[i]))
    && (forall t: nat :: t < |s.calls| && !Mentions(h, t) ==> Keeps(s.calls[t], s'.calls[t]))
  }

  predicate Settles(c: Call, c': Call, out: Outcome) {
    !Settled(c) && Settled(c') && Answer(c') == out
  }

  predicate Keeps(c: Call, c': Call) {
    && (Settled(c) <==> Settled(c'))
    && (Settled(c) ==> Answer(c') == Answer(c))
  }

  // s' is s after a step of call t.
  ghost predicate Steps(s: State, s': State, t: nat) {
    && t < |s.calls| == |s'.calls| && Ops(s') == Ops(s) && s'.catalog == s.catalog
    && (forall u: nat :: u < |s.calls| && u != t ==> s'.calls[u] == s.calls[u])
  }

  lemma ExplainsSilent(s: State, s': State, t: nat, h: seq<Event>, s'': State)
    requires Steps(s, s', t) && Explains(h, s', s'')
    requires s'.db == s.db && Keeps(s.calls[t], s'.calls[t])
    ensures Explains(h, s, s'')
  {
    assert forall u: nat :: u < |s.calls| ==> Keeps(s.calls[u], s'.calls[u]);
  }

  lemma Prepended(e: Event, h: seq<Event>)
    ensures var eh := [e] + h;
      && eh[0] == e && eh[1..] == h && (forall i :: 0 < i < |eh| ==> eh[i] == h[i - 1])
      && Mentions(eh, e.t) && (forall u: nat :: Mentions(h, u) ==> Mentions(eh, u))
      && (Distinct(h) && !Mentions(h, e.t) ==> Distinct(eh))
  {
    var eh := [e] + h;
    assert eh[0].t == e.t && eh[1..] == h;
    forall u: nat | Mentions(h, u) ensures Mentions(eh, u) {
      var i :| 0 <= i < |h| && h[i].t == u;
      assert eh[i + 1].t == u;
    }
  }

  // Running e and then h serially.
  lemma ReplayPrepended(catalog: Catalog, ops: seq<Op>, db: Db, e: Event, h: seq<Event>)
    requires e.t < |ops| && InRange(ops, h)
    ensures var eh := [e] + h; var (db', out) := Serial(catalog, db, ops[e.t], e.id);
      && InRange(ops, eh)
      && Replay(catalog, ops, db, eh) == Replay(catalog, ops, db', h)
      && Answers(catalog, ops, db, eh) == [out] + Answers(catalog, ops, db', h)
      && (FreshIds(catalog, ops, db, eh) <==>
            (out.Reserved? ==> out.id !in db.reservations) && FreshIds(catalog, ops, db', h))
  {
    assert ([e] + h)[1..] == h;
  }

  // s' is s after one serial call, the event e, which settles call e.t.
  ghost predicate TakesEffect(s: State, s': State, e: Event) {
    Steps(s, s', e.t) &&
    var (db', out) := Serial(s.catalog, s.db, s.calls[e.t].op, e.id);
    && s'.db == db' && Settles(s.calls[e.t], s'.calls[e.t], out)
    && (out.Reserved? ==> out.id !in s.db.reservations)
  }

  lemma EventSettles(s: State, s': State, e: Event, h: seq<Event>, s'': State)
    requires TakesEffect(s, s', e) && Explains(h, s', s'')
    ensures !Mentions(h, e.t) && Settles(s.calls[e.t], s''.calls[e.t], Answer(s'.calls[e.t]))
    ensures forall i :: 0 <= i < |h| ==>
      Settles(s.calls[h[i].t], s''.calls[h[i].t], Answers(s.catalog, Ops(s), s'.db, h)[i])
  {
    assert !Mentions(h, e.t) by {
      assert forall i :: 0 <= i < |h| ==> !Settled(s'.calls[h[i].t]);
    }
    assert Keeps(s'.calls[e.t], s''.calls[e.t]);
  }

  lemma EventKeeps(s: State, s': State, e: Event, h: seq<Event>, s'': State)
    requires TakesEffect(s, s', e) && Explains(h, s', s'')
    ensures forall u: nat :: u < |s.calls| && !Mentions([e] + h, u) ==> Keeps(s.calls[u], s''.calls[u])
  {
    Prepended(e, h);
    forall u: nat | u < |s.calls| && !Mentions([e] + h, u) ensures Keeps(s.calls[u], s''.calls[u]) {
      assert u != e.t && !Mentions(h, u);
    }
  }

  lemma ExplainsEvent(s: State, s': State, e: Event, h: seq<Event>, s'': State)
    requires TakesEffect(s, s', e) && Explains(h, s', s'')
    ensures Explains([e] + h, s, s'')
  {
    Prepended(e, h);
    assert Ops(s)[e.t] == s.calls[e.t].op;
    ReplayPrepended(s.catalog, Ops(s), s.db, e, h);
    EventSettles(s, s', e, h, s'');
    EventKeeps(s, s', e, h, s'');
  }

  // A step is silent, or one serial call.
  lemma StepRefines(s: State, t: nat, poolSize: nat)
    requires Inv(s, poolSize) && Enabled(s, t)
    ensures var s' := Step(s, t); var e := Effects(s, t);
      && Steps(s, s', t)
      && (e == [] ==> s'.db == s.db && Keeps(s.calls[t], s'.calls[t]))
      && (e != [] ==> e == [e[0]] && TakesEffect(s, s', e[0]))
  {
    assert CallOk(s, s.calls[t]);
    if s.calls[t].op.Reserve? {
      ReserveRefines(s, t);
    } else {
      ReleaseRefines(s, t);
    }
    StepFrame(s, t);
    assert Ops(Step(s, t)) == Ops(s);
  }

  lemma ExplainsStep(s: State, t: nat, h: seq<Event>, s'': State, poolSize: nat)
    requires Inv(s, poolSize) && Enabled(s, t) && Explains(h, Step(s, t), s'')
    ensures Explains(Effects(s, t) + h, s, s'')
  {
    var s', e := Step(s, t), Effects(s, t);
    StepRefines(s, t, poolSize);
    if e == [] {
      assert e + h == h;
      ExplainsSilent(s, s', t, h, s'');
    } else {
      ExplainsEvent(s, s', e[0], h, s'');
    }
  }

  lemma {:induction false} HistoryExplains(s: State, sched: seq<nat>, poolSize: nat)
    requires Inv(s, poolSize) && Runs(s, sched)
    ensures Explains(History(s, sched), s, Run(s, sched))
    decreases |sched|
  {
    if sched != [] {
      var s' := Step(s, sched[0]);
      StepKeepsInv(s, sched[0], poolSize);
      HistoryExplains(s', sched[1..], poolSize);
      ExplainsStep(s, sched[0], History(s', sched[1..]), Run(s', sched[1..]), poolSize);
    }
  }

  // The history has call t, and the serial run gives it there the answer with which it ended.
  ghost predicate AnsweredIn(h: seq<Event>, s: State, s': State, t: nat)
    requires InRange(Ops(s), h) && t < |s'.calls| && Finished(s', t)
  {
    exists i :: 0 <= i < |h| && h[i].t == t && s'.calls[t].pc.out == Answers(s.catalog, Ops(s), s.db, h)[i]
  }

  lemma FinishedIsAnswered(h: seq<Event>, s: State, s': State, t: nat)
    requires Explains(h, s, s') && t < |s.calls| && !Settled(s.calls[t]) && Finished(s', t)
    ensures AnsweredIn(h, s, s', t)
  {
    if Mentions(h, t) {
      var i :| 0 <= i < |h| && h[i].t == t;
      assert Settles(s.calls[h[i].t], s'.calls[h[i].t], Answers(s.catalog, Ops(s), s.db, h)[i]);
    } else {
      assert false;
    }
  }

  /**
   Serialisability: for every schedule of any number of calls, running the calls of the
   history one at a time leaves the committed tables, every finished call occurs in the
   history exactly once, and its result or error is the one the serial run gives it there.
   */
  lemma Serialisable(s: State, sched: seq<nat>)
    requires Init(s) && Runs(s, sched)
    ensures var h := History(s, sched); var s' := Run(s, sched);
      && InRange(Ops(s), h)
      && Distinct(h)
      && FreshIds(s.catalog, Ops(s), s.db, h)
      && s'.db == Replay(s.catalog, Ops(s), s.db, h)
      && |s'.calls| == |s.calls|
      && (forall t: nat :: t < |s.calls| && Finished(s', t) ==> AnsweredIn(h, s, s', t))
  {
    InitInv(s);
    HistoryExplains(s, sched, s.free);
    var h, s' := History(s, sched), Run(s, sched);
    forall t: nat | t < |s.calls| && Finished(s', t) ensures AnsweredIn(h, s, s', t) {
      FinishedIsAnswered(h, s, s', t);
    }
  }

  lemma {:induction false} RunConcat(s: State, a: seq<nat>, b: seq<nat>)
    requires Runs(s, a) && Runs(Run(s, a), b)
    ensures Runs(s, a + b) && Run(s, a + b) == Run(Run(s, a), b)
    decreases |a|
  {
    if a == [] {
      assert a + b == b;
    } else {
      assert (a + b)[0] == a[0] && (a + b)[1..] == a[1..] + b;
      RunConcat(Step(s, a[0]), a[1..], b);
    }
  }

  lemma {:induction false} HistoryConcat(s: State, a: seq<nat>, b: seq<nat>)
    requires Runs(s, a) && Runs(Run(s, a), b) && Runs(s, a + b)
    ensures History(s, a + b) == History(s, a) + History(Run(s, a), b)
    decreases |a|
  {
    if a == [] {
      assert a + b == b;
    } else {
      assert (a + b)[0] == a[0] && (a + b)[1..] == a[1..] + b;
      HistoryConcat(Step(s, a[0]), a[1..], b);
    }
  }

  /** The serial order respects real time: a call that ended before another began comes first. */
  lemma RealTimeOrder(s: State, a: seq<nat>, b: seq<nat>, t: nat, u: nat)
    requires Init(s) && Runs(s, a) && Runs(Run(s, a), b)
    requires t < |s.calls| && u < |s.calls|
    requires Finished(Run(s, a), t) && Run(s, a).calls[u].pc == Idle
    ensures Runs(s, a + b)
    ensures var h := History(s, a + b);
      forall i, j :: 0 <= i < |h| && 0 <= j < |h| && h[i].t == t && h[j].t == u ==> i < j
  {
    InitInv(s);
    HistoryExplains(s, a, s.free);
    RunConcat(s, a, b);
    HistoryConcat(s, a, b);
    HistoryExplains(s, a + b, s.free);
    PrefixOrder(s, Run(s, a), History(s, a), History(s, a + b), t, u);
  }

  // Calls that the prefix ha of h settles come before calls that are still idle after it.
  lemma PrefixOrder(s: State, sa: State, ha: seq<Event>, h: seq<Event>, t: nat, u: nat)
    requires Explains(ha, s, sa) && ha <= h && Distinct(h)
    requires t < |s.calls| && u < |s.calls| && !Settled(s.calls[t]) && Settled(sa.calls[t]) && !Settled(sa.calls[u])
    ensures forall i, j :: 0 <= i < |h| && 0 <= j < |h| && h[i].t == t && h[j].t == u ==> i < j
  {
    assert Mentions(ha, t);
    var k :| 0 <= k < |ha| && ha[k].t == t;
    assert forall j :: 0 <= j < |ha| ==> h[j] == ha[j] && h[j].t != u;
  }
}
