/**
 The two stock tables, the SQL statements the service runs against them, and what
 a reserve or release call does when it runs alone.

 A transaction's uncommitted writes are kept apart from the committed tables, in an
 overlay that only the transaction itself sees and that COMMIT merges in one piece.
 */
module Store {
  import opened Wrappers

  // Upper bound of the integer columns.
  const INT_MAX := 0x7fff_ffff

  // Primary key of an inventory row.
  datatype Key = Key(product: int, warehouse: string)

  datatype Stock = Stock(onHand: int, reserved: int) {
    // Available to promise.
    function Atp(): int { onHand - reserved }

    // The CHECK constraints of the row and the width of its columns.
    predicate Ok() { 0 <= reserved <= onHand <= INT_MAX }
  }

  datatype Status = Active | Released

  datatype Reservation = Reservation(key: Key, quantity: int, buyer: string, status: Status) {
    predicate Ok() { 0 < quantity <= INT_MAX }
  }

  datatype Db = Db(inventory: map<Key, Stock>, reservations: map<int, Reservation>)

  const NO_WRITES := Db(map[], map[])

  // part_no -> id, fixed while the service runs.
  type Catalog = map<string, int>

  datatype Op =
    | Reserve(sku: string, warehouse: string, quantity: int, buyer: string)
    | Release(id: int)

  // What a call returns, or the error it raises.
  datatype Outcome =
    | Reserved(id: int, sku: string, warehouse: string, quantity: int, remainingAtp: int)
    | ReleaseDone(id: int, restoredAtp: int)
    | ValueError
    | UnknownSku(sku: string)
    | NoStockRecord(sku: string, warehouse: string)
    | InsufficientStock(requested: int, atp: int)
    | UnknownReservation(id: int)
    | CheckViolation  // a CHECK constraint of the schema refuses a write
    | NoAtpRow        // the ATP query after a release finds no row

  // ---- statements -------------------------------------------------------------

  // The tables as the owner of the overlay tx sees them; also what COMMIT leaves.
  function View(db: Db, tx: Db): Db {
    Db(db.inventory + tx.inventory, db.reservations + tx.reservations)
  }

  // A transaction with no write, or one, in a table.
  lemma OverlayOfOne<K, V>(rows: map<K, V>, k: K, v: V)
    ensures rows + map[] == rows
    ensures rows + map[][k := v] == rows[k := v]
  {
    assert map[][k := v] == map[k := v];
  }

  lemma NothingWritten(db: Db)
    ensures View(db, NO_WRITES) == db
  {
  }

  // The update that adds delta to a row's reserved units: None when a CHECK refuses it.
  function UpdateReserved(db: Db, tx: Db, key: Key, delta: int): Option<Db> {
    var rows := View(db, tx).inventory;
    if key !in rows then Some(tx)
    else
      var row := rows[key].(reserved := rows[key].reserved + delta);
      if row.Ok() then Some(tx.(inventory := tx.inventory[key := row])) else None
  }

  // The insert of a reservation, with the id the sequence handed out.
  function InsertReservation(tx: Db, id: int, r: Reservation): Option<Db> {
    if r.Ok() then Some(tx.(reservations := tx.reservations[id := r])) else None
  }

  // The update of a reservation's status.
  function MarkReleased(db: Db, tx: Db, id: int): Db {
    var rows := View(db, tx).reservations;
    if id !in rows then tx
    else tx.(reservations := tx.reservations[id := rows[id].(status := Released)])
  }

  // The query for what a row can promise.
  function SelectAtp(db: Db, tx: Db, key: Key): Option<int> {
    var rows := View(db, tx).inventory;
    if key in rows then Some(rows[key].Atp()) else None
  }

  // ---- what a call means ------------------------------------------------------

  // reserve as one atomic change of the tables; id is the sequence value it draws.
  function SerialReserve(catalog: Catalog, db: Db, op: Op, id: int): (Db, Outcome)
    requires op.Reserve?
  {
    if op.quantity <= 0 then (db, ValueError)
    else if op.sku !in catalog then (db, UnknownSku(op.sku))
    else
      var key := Key(catalog[op.sku], op.warehouse);
      if key !in db.inventory then (db, NoStockRecord(op.sku, op.warehouse))
      else
        var row := db.inventory[key];
        if op.quantity > row.Atp() then (db, InsufficientStock(op.quantity, row.Atp()))
        else
          var row' := Stock(row.onHand, row.reserved + op.quantity);
          var r := Reservation(key, op.quantity, op.buyer, Active);
          if !row'.Ok() || !r.Ok() then (db, CheckViolation)
          else
            (Db(db.inventory[key := row'], db.reservations[id := r]),
             Reserved(id, op.sku, op.warehouse, op.quantity, row'.Atp()))
  }

  // release as one atomic change of the tables.
  function SerialRelease(db: Db, id: int): (Db, Outcome) {
    if id !in db.reservations then (db, UnknownReservation(id))
    else
      var r := db.reservations[id];
      if r.status == Released then
        (db, if r.key in db.inventory then ReleaseDone(id, db.inventory[r.key].Atp()) else NoAtpRow)
      else
        var reservations := db.reservations[id := r.(status := Released)];
        if r.key !in db.inventory then (Db(db.inventory, reservations), NoAtpRow)
        else
          var row := db.inventory[r.key];
          var row' := Stock(row.onHand, row.reserved - r.quantity);
          if !row'.Ok() then (db, CheckViolation)
          else (Db(db.inventory[r.key := row'], reservations), ReleaseDone(id, row'.Atp()))
  }

  function Serial(catalog: Catalog, db: Db, op: Op, id: int): (Db, Outcome) {
    if op.Reserve? then SerialReserve(catalog, db, op, id) else SerialRelease(db, op.id)
  }

  // ---- what the answers say -----------------------------------------------------

  /**
   A reserve succeeds when it is for a positive quantity of a known product at a warehouse
   that has a row with at least as much neither sold nor reserved; then the row has so much
   more reserved, the new reservation says what was asked, and the answer what is left.
   Otherwise it changes nothing and the error names what is wrong.
   */
  lemma ReserveMeans(catalog: Catalog, db: Db, op: Op, id: int)
    requires op.Reserve?
    ensures var (db', out) := SerialReserve(catalog, db, op, id);
      if op.quantity <= 0 then db' == db && out == ValueError
      else if op.sku !in catalog then db' == db && out == UnknownSku(op.sku)
      else if Key(catalog[op.sku], op.warehouse) !in db.inventory then
        db' == db && out == NoStockRecord(op.sku, op.warehouse)
      else
        var key := Key(catalog[op.sku], op.warehouse);
        var row := db.inventory[key];
        if op.quantity > row.onHand - row.reserved then
          db' == db && out == InsufficientStock(op.quantity, row.onHand - row.reserved)
        else if row.onHand > 0x7fff_ffff then db' == db && out == CheckViolation
        else 0 <= row.reserved ==>
          && key in db'.inventory && id in db'.reservations
          && db'.inventory[key].onHand == row.onHand
          && db'.inventory[key].reserved == row.reserved + op.quantity
          && db'.inventory - {key} == db.inventory - {key}
          && db'.reservations[id] == Reservation(Key(catalog[op.sku], op.warehouse), op.quantity, op.buyer, Active)
          && db'.reservations - {id} == db.reservations - {id}
          && out == Reserved(id, op.sku, op.warehouse, op.quantity,
                             db'.inventory[key].onHand - db'.inventory[key].reserved)
  {
  }

  /**
   A release of a reservation whose units are still in its row takes them off it, marks
   the reservation and nothing else, and answers what is then available; a repeated
   one changes nothing and answers what is available.
   */
  lemma ReleaseMeans(db: Db, id: int)
    ensures var (db', out) := SerialRelease(db, id);
      if id !in db.reservations then db' == db && out == UnknownReservation(id)
      else
        var r := db.reservations[id];
        && r.key in db.inventory
        && 0 <= db.inventory[r.key].reserved <= db.inventory[r.key].onHand <= 0x7fff_ffff
        && (r.status == Active ==> 0 <= r.quantity <= db.inventory[r.key].reserved) ==>
          var row := db.inventory[r.key];
          && id in db'.reservations && r.key in db'.inventory
          && db'.reservations[id] == Reservation(r.key, r.quantity, r.buyer, Released)
          && db'.reservations - {id} == db.reservations - {id}
          && db'.inventory[r.key].onHand == row.onHand
          && db'.inventory[r.key].reserved == row.reserved - (if r.status == Active then r.quantity else 0)
          && db'.inventory - {r.key} == db.inventory - {r.key}
          && out == ReleaseDone(id, db'.inventory[r.key].onHand - db'.inventory[r.key].reserved)
  {
  }

  // ---- the service as a caller with no competitors runs it --------------------

  /** A database whose one caller has at most one transaction open. */
  class Database {
    const catalog: Catalog
    var committed: Db
    var tx: Db
    var nextId: int

    constructor (catalog: Catalog, db: Db, nextId: int)
      ensures this.catalog == catalog && committed == db && this.nextId == nextId && Quiet()
    {
      this.catalog := catalog;
      committed, tx := db, NO_WRITES;
      this.nextId := nextId;
    }

    // Between transactions: nothing is written that is not committed.
    predicate Quiet()
      reads this`tx
    {
      tx == NO_WRITES
    }

    // The tables as the open transaction sees them.
    function Seen(): Db
      reads this`committed, this`tx
    {
      View(committed, tx)
    }

    method Commit()
      modifies this`committed, this`tx
      ensures committed == old(Seen()) && Quiet()
    {
      committed, tx := View(committed, tx), NO_WRITES;
    }

    method Rollback()
      modifies this`tx
      ensures Quiet()
    {
      tx := NO_WRITES;
    }

    // Refused iff the row breaks a CHECK; the sequence does not roll back with the transaction.
    method Insert(r: Reservation) returns (id: int, refused: bool)
      modifies this`tx, this`nextId
      ensures id == old(nextId) && nextId == old(nextId) + 1
      ensures refused <==> !r.Ok()
      ensures Seen() == if refused then old(Seen()) else
        Db(old(Seen()).inventory, old(Seen()).reservations[id := r])
    {
      id, nextId := nextId, nextId + 1;
      var written := InsertReservation(tx, id, r);
      refused := written.None?;
      if !refused {
        tx := written.value;
      }
    }

    // Refused iff the new row breaks a CHECK; no other row changes.
    method Update(key: Key, delta: int) returns (refused: bool)
      modifies this`tx
      ensures var rows := old(Seen()).inventory;
        if key !in rows then !refused && Seen() == old(Seen())
        else
          var row := Stock(rows[key].onHand, rows[key].reserved + delta);
          && (refused <==> !row.Ok())
          && Seen() == if refused then old(Seen()) else Db(rows[key := row], old(Seen()).reservations)
    {
      var written := UpdateReserved(committed, tx, key, delta);
      refused := written.None?;
      if !refused {
        tx := written.value;
      }
    }

    method Mark(id: int)
      modifies this`tx
      ensures var rows := old(Seen()).reservations;
        Seen() == if id !in rows then old(Seen()) else
          Db(old(Seen()).inventory, rows[id := rows[id].(status := Status.Released)])
    {
      tx := MarkReleased(committed, tx, id);
    }

    method Reserve(sku: string, warehouse: string, quantity: int, buyer: string) returns (out: Outcome)
      requires Quiet()
      modifies this
      ensures Quiet()
      ensures (committed, out) ==
        SerialReserve(catalog, old(committed), Op.Reserve(sku, warehouse, quantity, buyer), old(nextId))
      ensures old(nextId) <= nextId && (out.Reserved? ==> nextId == out.id + 1)
    {
      if quantity <= 0 {
        return ValueError;
      }
      if sku !in catalog {
        return UnknownSku(sku);
      }
      var key := Key(catalog[sku], warehouse);
      if key !in committed.inventory {
        return NoStockRecord(sku, warehouse);
      }
      var atp := committed.inventory[key].Atp();
      if quantity > atp {
        return InsufficientStock(quantity, atp);
      }
      NothingWritten(committed);
      var refused := Update(key, quantity);
      if refused {
        Rollback();
        return CheckViolation;
      }
      var id;
      id, refused := Insert(Reservation(key, quantity, buyer, Active));
      if refused {
        Rollback();
        return CheckViolation;
      }
      Commit();
      return Outcome.Reserved(id, sku, warehouse, quantity, atp - quantity);
    }

    method Release(id: int) returns (out: Outcome)
      requires Quiet()
      modifies this`committed, this`tx
      ensures Quiet()
      ensures (committed, out) == SerialRelease(old(committed), id)
    {
      if id !in committed.reservations {
        return UnknownReservation(id);
      }
      var r := committed.reservations[id];
      NothingWritten(committed);
      if r.status != Status.Released {
        Mark(id);
        var refused := Update(r.key, -r.quantity);
        if refused {
          Rollback();
          return CheckViolation;
        }
      }
      var atp := SelectAtp(committed, tx, r.key);
      Commit();
      return if atp.Some? then ReleaseDone(id, atp.value) else NoAtpRow;
    }
  }
}
