/**
 Any number of reserve and release calls running at once against Postgres at READ
 COMMITTED. One step is one SQL statement of one call (or its wait for a pooled
 connection, or the exception or COMMIT that ends it). A schedule says whose turn it
 is; a call whose statement waits for a row lock or a connection has no turn.
 */
module Protocol {
  import opened Wrappers
  import opened Store

  // How far a call has come, with the local variables it still needs.
  datatype Pc =
    | Idle
    | WantConnection
    | Begun
    // reserve
    | HaveProduct(product: int)
    | HaveStock(key: Key, stock: Stock)            // row locked and read
    | StockUpdated(key: Key, atp: int)             // atp as read before the update
    | RowInserted(key: Key, atp: int, id: int)
    // release
    | HaveReservation(r: Reservation)              // row locked and read
    | StatusUpdated(r: Reservation)
    | StockRestored(r: Reservation)                // inventory row locked and updated
    | AtpRead(r: Reservation, seen: Option<int>)
    | Done(out: Outcome)

  datatype Call = Call(op: Op, pc: Pc, tx: Db)

  datatype State = State(
    catalog: Catalog,
    db: Db,                          // committed rows
    nextId: int,                     // the reservation id sequence
    free: nat,                       // idle connections of the pool
    stockLocks: map<Key, nat>,       // row lock -> the call that holds it
    reservationLocks: map<int, nat>,
    calls: seq<Call>)

  // ---- steps ------------------------------------------------------------------

  predicate Grantable<K>(locks: map<K, nat>, k: K, t: nat) { k !in locks || locks[k] == t }

  predicate Finished(s: State, t: nat) requires t < |s.calls| { s.calls[t].pc.Done? }

  ghost predicate AllFinished(s: State) { forall t: nat :: t < |s.calls| ==> s.calls[t].pc.Done? }

  // Whether the next statement of call t can proceed now.
  predicate Enabled(s: State, t: nat) {
    t < |s.calls| &&
    var c := s.calls[t];
    match c.pc
    case Done(_) => false
    case WantConnection => s.free > 0
    case Begun =>
      c.op.Reserve? || c.op.id !in s.db.reservations || Grantable(s.reservationLocks, c.op.id, t)
    case HaveProduct(product) =>
      c.op.Reserve? ==>
        var key := Key(product, c.op.warehouse);
        key !in s.db.inventory || Grantable(s.stockLocks, key, t)
    case StatusUpdated(r) => r.key !in s.db.inventory || Grantable(s.stockLocks, r.key, t)
    case _ => true
  }

  // The effect of one statement of one call.
  datatype Move =
    | Goto(pc: Pc, tx: Db)                          // no lock taken
    | Connect
    | LockStock(key: Key, pc: Pc, tx: Db)
    | LockReservation(id: int, pc: Pc, tx: Db)
    | Rollback(out: Outcome)
    | Commit(out: Outcome)

  // The statement that call c is at, against the committed tables db.
  function NextMove(catalog: Catalog, db: Db, nextId: int, c: Call): Move
    requires !c.pc.Done?
  {
    if c.pc.Idle? then
      if c.op.Reserve? && c.op.quantity <= 0 then Goto(Done(ValueError), NO_WRITES)
      else Goto(WantConnection, NO_WRITES)
    else if c.pc.WantConnection? then Connect
    else if c.op.Reserve? then ReserveMove(catalog, db, nextId, c)
    else ReleaseMove(db, c)
  }

  function ReserveMove(catalog: Catalog, db: Db, nextId: int, c: Call): Move
    requires c.op.Reserve?
  {
    match c.pc
    case Begun =>
      if c.op.sku !in catalog then Rollback(UnknownSku(c.op.sku))
      else Goto(HaveProduct(catalog[c.op.sku]), c.tx)
    case HaveProduct(product) =>
      var key := Key(product, c.op.warehouse);
      var rows := View(db, c.tx).inventory;
      if key !in rows then Rollback(NoStockRecord(c.op.sku, c.op.warehouse))
      else LockStock(key, HaveStock(key, rows[key]), c.tx)
    case HaveStock(key, stock) =>
      if c.op.quantity > stock.Atp() then Rollback(InsufficientStock(c.op.quantity, stock.Atp()))
      else (
        match UpdateReserved(db, c.tx, key, c.op.quantity)
        case None => Rollback(CheckViolation)
        case Some(tx) => Goto(StockUpdated(key, stock.Atp()), tx))
    case StockUpdated(key, atp) => (
      match InsertReservation(c.tx, nextId, Reservation(key, c.op.quantity, c.op.buyer, Active))
      case None => Rollback(CheckViolation)
      case Some(tx) => Goto(RowInserted(key, atp, nextId), tx))
    case RowInserted(key, atp, id) =>
      Commit(Reserved(id, c.op.sku, c.op.warehouse, c.op.quantity, atp - c.op.quantity))
    case _ => Goto(c.pc, c.tx)
  }

  function ReleaseMove(db: Db, c: Call): Move
    requires c.op.Release?
  {
    match c.pc
    case Begun =>
      var rows := View(db, c.tx).reservations;
      if c.op.id !in rows then Rollback(UnknownReservation(c.op.id))
      else LockReservation(c.op.id, HaveReservation(rows[c.op.id]), c.tx)
    case HaveReservation(r) =>
      if r.status != Released then Goto(StatusUpdated(r), MarkReleased(db, c.tx, c.op.id))
      else Goto(AtpRead(r, SelectAtp(db, c.tx, r.key)), c.tx)
    case StatusUpdated(r) => (
      match UpdateReserved(db, c.tx, r.key, -r.quantity)
      case None => Rollback(CheckViolation)
      case Some(tx) =>
        if r.key in View(db, c.tx).inventory then LockStock(r.key, StockRestored(r), tx)
        else Goto(StockRestored(r), tx))
    case StockRestored(r) => Goto(AtpRead(r, SelectAtp(db, c.tx, r.key)), c.tx)
    case AtpRead(r, seen) => Commit(if seen.Some? then ReleaseDone(c.op.id, seen.value) else NoAtpRow)
    case _ => Goto(c.pc, c.tx)
  }

  function Unlocked<K>(locks: map<K, nat>, t: nat): map<K, nat> {
    map k | k in locks && locks[k] != t :: locks[k]
  }

  // Call c after the move; the end of a transaction discards its overlay.
  function Moved(c: Call, m: Move): Call {
    match m
    case Goto(pc, tx) => Call(c.op, pc, tx)
    case Connect => Call(c.op, Begun, NO_WRITES)
    case LockStock(_, pc, tx) => Call(c.op, pc, tx)
    case LockReservation(_, pc, tx) => Call(c.op, pc, tx)
    case Rollback(out) => Call(c.op, Done(out), NO_WRITES)
    case Commit(out) => Call(c.op, Done(out), NO_WRITES)
  }

  function Apply(s: State, t: nat, m: Move): State
    requires t < |s.calls| && (m.Connect? ==> s.free > 0)
  {
    var ends := m.Rollback? || m.Commit?;
    s.(calls := s.calls[t := Moved(s.calls[t], m)],
       db := if m.Commit? then View(s.db, s.calls[t].tx) else s.db,
       // the sequence advances even if the INSERT that draws from it is refused
       nextId := if s.calls[t].pc.StockUpdated? then s.nextId + 1 else s.nextId,
       free := if m.Connect? then s.free - 1 else if ends then s.free + 1 else s.free,
       stockLocks := if m.LockStock? then s.stockLocks[m.key := t]
                     else if ends then Unlocked(s.stockLocks, t) else s.stockLocks,
       reservationLocks := if m.LockReservation? then s.reservationLocks[m.id := t]
                           else if ends then Unlocked(s.reservationLocks, t) else s.reservationLocks)
  }

  function MoveOf(s: State, t: nat): Move
    requires Enabled(s, t)
  {
    NextMove(s.catalog, s.db, s.nextId, s.calls[t])
  }

  // The next step of call t.
  function Step(s: State, t: nat): State
    requires Enabled(s, t)
  {
    Apply(s, t, MoveOf(s, t))
  }

  // Whether sched gives a turn only to calls that can use it.
  predicate Runs(s: State, sched: seq<nat>)
    decreases |sched|
  {
    sched == [] || (Enabled(s, sched[0]) && Runs(Step(s, sched[0]), sched[1..]))
  }

  function Run(s: State, sched: seq<nat>): (s': State)
    requires Runs(s, sched)
    ensures |s'.calls| == |s.calls|
    decreases |sched|
  {
    if sched == [] then s else Run(Step(s, sched[0]), sched[1..])
  }

  // ---- conservation -----------------------------------------------------------

  function Claim(r: Reservation, key: Key): int {
    if r.key == key && r.status == Active then r.quantity else 0
  }

  // The units of key that active reservations with an id below n claim.
  function ActiveUnits(reservations: map<int, Reservation>, key: Key, n: int): int
    decreases n
  {
    if n <= 0 then 0
    else ActiveUnits(reservations, key, n - 1) +
         if n - 1 in reservations then Claim(reservations[n - 1], key) else 0
  }

  ghost predicate StockOk(db: Db, key: Key, n: int)
    requires key in db.inventory
  {
    db.inventory[key].Ok() && db.inventory[key].reserved == ActiveUnits(db.reservations, key, n)
  }

  ghost predicate ReservationOk(db: Db, id: int, n: int)
    requires id in db.reservations
  {
    0 <= id < n && db.reservations[id].Ok() && db.reservations[id].key in db.inventory
  }

  // Every CHECK holds, reserved counts the active reservations, ids come from the sequence.
  ghost predicate Conserved(db: Db, n: int) {
    && 0 <= n
    && (forall key :: key in db.inventory ==> StockOk(db, key, n))
    && (forall id :: id in db.reservations ==> ReservationOk(db, id, n))
  }

  // ---- the invariant of every reachable state ---------------------------------

  predicate InTransaction(pc: Pc) { !pc.Idle? && !pc.WantConnection? && !pc.Done? }

  predicate HoldsStock(c: Call, key: Key) {
    match c.pc
    case HaveStock(k, _) => k == key
    case StockUpdated(k, _) => k == key
    case RowInserted(k, _, _) => k == key
    case StockRestored(r) => r.key == key
    case AtpRead(r, _) => r.key == key && r.status == Active
    case _ => false
  }

  predicate HoldsReservation(c: Call, id: int) {
    (c.pc.HaveReservation? || c.pc.StatusUpdated? || c.pc.StockRestored? || c.pc.AtpRead?)
    && c.op.Release? && c.op.id == id
  }

  ghost predicate LocksOk(s: State) {
    && (forall k :: k in s.stockLocks ==> s.stockLocks[k] < |s.calls|)
    && (forall i :: i in s.reservationLocks ==> s.reservationLocks[i] < |s.calls|)
    && (forall t: nat, k :: t < |s.calls| ==>
          (HoldsStock(s.calls[t], k) <==> k in s.stockLocks && s.stockLocks[k] == t))
    && (forall t: nat, i :: t < |s.calls| ==>
          (HoldsReservation(s.calls[t], i) <==> i in s.reservationLocks && s.reservationLocks[i] == t))
  }

  function OpenCount(calls: seq<Call>): nat {
    if calls == [] then 0
    else OpenCount(calls[..|calls| - 1]) + if InTransaction(calls[|calls| - 1].pc) then 1 else 0
  }

  // The uncommitted row of a reserve that has updated the stock it locked.
  predicate StockClaimed(db: Db, c: Call, key: Key, atp: int)
    requires c.op.Reserve?
  {
    && key in db.inventory
    && 0 < c.op.quantity <= atp == db.inventory[key].Atp()
    && var row := db.inventory[key];
    c.tx.inventory == map[key := Stock(row.onHand, row.reserved + c.op.quantity)]
  }

  // The uncommitted rows of a release that has updated its reservation.
  predicate StatusWritten(db: Db, c: Call, r: Reservation)
    requires c.op.Release?
  {
    && c.op.id in db.reservations && db.reservations[c.op.id] == r && r.status == Active
    && c.tx.reservations == map[c.op.id := r.(status := Released)]
  }

  predicate StockReturned(db: Db, c: Call, r: Reservation) {
    && r.key in db.inventory
    && var row := db.inventory[r.key];
    && r.quantity <= row.reserved
    && c.tx.inventory == map[r.key := Stock(row.onHand, row.reserved - r.quantity)]
  }

  // What a call knows and has written, in terms of the committed tables.
  ghost predicate Informed(catalog: Catalog, db: Db, nextId: int, c: Call) {
    match c.pc
    case Idle => c.tx == NO_WRITES
    case WantConnection => c.tx == NO_WRITES && (c.op.Reserve? ==> c.op.quantity > 0)
    case Begun => c.tx == NO_WRITES && (c.op.Reserve? ==> c.op.quantity > 0)
    case HaveProduct(product) =>
      && c.op.Reserve? && c.op.quantity > 0 && c.tx == NO_WRITES
      && c.op.sku in catalog && catalog[c.op.sku] == product
    case HaveStock(key, stock) =>
      && c.op.Reserve? && c.op.quantity > 0 && c.tx == NO_WRITES
      && c.op.sku in catalog && Key(catalog[c.op.sku], c.op.warehouse) == key
      && key in db.inventory && db.inventory[key] == stock
    case StockUpdated(key, atp) =>
      && c.op.Reserve? && c.op.sku in catalog && Key(catalog[c.op.sku], c.op.warehouse) == key
      && StockClaimed(db, c, key, atp) && c.tx.reservations == map[]
    case RowInserted(key, atp, id) =>
      && c.op.Reserve? && c.op.sku in catalog && Key(catalog[c.op.sku], c.op.warehouse) == key
      && StockClaimed(db, c, key, atp)
      && c.tx.reservations == map[id := Reservation(key, c.op.quantity, c.op.buyer, Active)]
      && 0 <= id < nextId && id !in db.reservations
    case HaveReservation(r) =>
      c.op.Release? && c.op.id in db.reservations && db.reservations[c.op.id] == r && c.tx == NO_WRITES
    case StatusUpdated(r) =>
      c.op.Release? && StatusWritten(db, c, r) && c.tx.inventory == map[]
    case StockRestored(r) =>
      c.op.Release? && StatusWritten(db, c, r) && StockReturned(db, c, r)
    case AtpRead(r, seen) =>
      && c.op.Release? && seen.Some?
      && if r.status == Released then
           c.op.id in db.reservations && db.reservations[c.op.id] == r && c.tx == NO_WRITES
         else
           && StatusWritten(db, c, r) && StockReturned(db, c, r)
           && seen.value == db.inventory[r.key].Atp() + r.quantity
    case Done(out) => c.tx == NO_WRITES && !out.CheckViolation? && !out.NoAtpRow?
  }

  ghost predicate CallOk(s: State, c: Call) { Informed(s.catalog, s.db, s.nextId, c) }

  ghost predicate CallsOk(s: State) {
    && (forall t: nat :: t < |s.calls| ==> CallOk(s, s.calls[t]))
    // no two transactions are inserting under the same id
    && (forall t: nat, u: nat :: t < u < |s.calls| && s.calls[t].pc.RowInserted? && s.calls[u].pc.RowInserted? ==>
          s.calls[t].pc.id != s.calls[u].pc.id)
  }

  ghost predicate Inv(s: State, poolSize: nat) {
    && Conserved(s.db, s.nextId)
    && LocksOk(s)
    && CallsOk(s)
    && s.free + OpenCount(s.calls) == poolSize
  }

  // A start: consistent tables, nothing locked, every connection idle, no call begun.
  ghost predicate Init(s: State) {
    && Conserved(s.db, s.nextId)
    && s.stockLocks == map[] && s.reservationLocks == map[]
    && (forall t: nat :: t < |s.calls| ==> s.calls[t].pc == Idle && s.calls[t].tx == NO_WRITES)
  }
}
