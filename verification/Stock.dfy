/** The stock rows of a shop and every statement that writes them
    (apps/api/src/stock.ts). `StockTable` is the open database transaction:
    when a method answers `false` the original throws and the whole
    transaction is rolled back by its caller. */
module Stock {
  import opened Lists
  import opened Greedy
  import opened Bins
  import opened CountHolds

  datatype Reason =
    | Sale | OrderFulfill | TransferOut | TransferIn | TransferCancelled
    | Return | WriteOff | Opening | Receipt | Adjustment
    | ProductionIn | ProductionOut | TableOrder | BatchReceipt | SupplierReturn

  /** Reasons that consume sellable goods and must leave promised ones alone. */
  predicate RespectsReservations(reason: Reason) {
    reason in {Sale, OrderFulfill, TransferOut, ProductionOut, TableOrder, SupplierReturn}
  }

  datatype Row = Row(
    id: string, productId: string, locationId: string, binLocation: string,
    quantity: real, reserved: real, blocked: real)

  datatype Movement = Movement(
    productId: string, locationId: string, binLocation: string, quantity: real, reason: Reason)

  const RowId: Row -> string := (r: Row) => r.id

  const OnHand: Row -> real := (r: Row) => r.quantity

  const Reserved: Row -> real := (r: Row) => r.reserved

  const Free: Row -> real := (r: Row) => AvailableQuantity(r)

  function AvailableQuantity(row: Row): real {
    row.quantity - row.reserved - row.blocked
  }

  function TotalAvailable(rows: seq<Row>): real {
    SumBy(rows, Free)
  }

  // ------------------------------------------------------ guarded statements

  /** The `UPDATE ... WHERE` statements; each runs atomically on one locked row. */
  datatype Statement =
    | Add            // quantity + q
    | TakeSellable   // quantity - q, if quantity - reserved >= q
    | TakeAny        // quantity - q, if quantity >= q
    | Reserve        // reserved + q, if quantity - reserved >= q
    | Unreserve      // reserved - q, not below zero
    | Block          // blocked + q, if quantity - reserved - blocked >= q
    | Unblock        // blocked - q, if blocked >= q
    | FreeBlocked    // blocked - q, not below zero

  /** The row a statement leaves, or nothing when its condition does not hold. */
  function Apply(st: Statement, row: Row, q: real): Option<Row> {
    match st
    case Add => Some(row.(quantity := row.quantity + q))
    case TakeSellable =>
      if row.quantity - row.reserved >= q then Some(row.(quantity := row.quantity - q)) else None
    case TakeAny =>
      if row.quantity >= q then Some(row.(quantity := row.quantity - q)) else None
    case Reserve =>
      if row.quantity - row.reserved >= q then Some(row.(reserved := row.reserved + q)) else None
    case Unreserve => Some(row.(reserved := Max(row.reserved - q, 0.0)))
    case Block =>
      if AvailableQuantity(row) >= q then Some(row.(blocked := row.blocked + q)) else None
    case Unblock =>
      if row.blocked >= q then Some(row.(blocked := row.blocked - q)) else None
    case FreeBlocked => Some(row.(blocked := Max(row.blocked - q, 0.0)))
  }

  function Lookup(rows: seq<Row>, id: string): Option<Row> {
    if rows == [] then None
    else if rows[0].id == id then Some(rows[0])
    else Lookup(rows[1..], id)
  }

  /** The table with the row of the same id replaced. */
  function Put(rows: seq<Row>, row: Row): seq<Row> {
    if rows == [] then []
    else if rows[0].id == row.id then [row] + rows[1..]
    else [rows[0]] + Put(rows[1..], row)
  }

  /** One statement against the table; nothing when no row qualifies. */
  function Execute(rows: seq<Row>, st: Statement, id: string, q: real): Option<seq<Row>> {
    match Lookup(rows, id)
    case None => None
    case Some(row) =>
      match Apply(st, row, q)
      case None => None
      case Some(changed) => Some(Put(rows, changed))
  }

  /** The same statement once for every part, stopping at the first that affects no row. */
  function ExecuteAll(rows: seq<Row>, st: Statement, parts: seq<Part>): Option<seq<Row>>
    decreases |parts|
  {
    if parts == [] then Some(rows)
    else
      match Execute(rows, st, parts[0].id, parts[0].quantity)
      case None => None
      case Some(next) => ExecuteAll(next, st, parts[1..])
  }

  lemma {:induction false} LookupMember(rows: seq<Row>, id: string)
    ensures Lookup(rows, id).Some? <==> exists r :: r in rows && r.id == id
    ensures Lookup(rows, id).Some? ==> Lookup(rows, id).value in rows && Lookup(rows, id).value.id == id
  {
    if rows != [] && rows[0].id != id {
      LookupMember(rows[1..], id);
    }
  }

  lemma {:induction false} LookupOwn(rows: seq<Row>, row: Row)
    requires Distinct(rows, RowId) && row in rows
    ensures Lookup(rows, row.id) == Some(row)
  {
    LookupMember(rows, row.id);
    SameKeySameElement(rows, RowId, row, Lookup(rows, row.id).value);
  }

  lemma {:induction false} PutFacts(rows: seq<Row>, row: Row)
    requires Distinct(rows, RowId) && Lookup(rows, row.id).Some?
    ensures Distinct(Put(rows, row), RowId)
    ensures forall r :: r in Put(rows, row) <==> r == row || (r in rows && r.id != row.id)
  {
    if rows[0].id != row.id {
      PutFacts(rows[1..], row);
      assert Put(rows, row)[1..] == Put(rows[1..], row);
    } else {
      assert Put(rows, row)[1..] == rows[1..];
      assert forall r :: r in rows[1..] ==> RowId(r) != RowId(rows[0]);
    }
  }

  lemma {:induction false} PutLookup(rows: seq<Row>, row: Row, id: string)
    requires Lookup(rows, row.id).Some?
    ensures Lookup(Put(rows, row), id) == if id == row.id then Some(row) else Lookup(rows, id)
  {
    if rows[0].id != row.id {
      PutLookup(rows[1..], row, id);
    }
  }

  lemma {:induction false} PutSum(rows: seq<Row>, row: Row, f: Row -> real)
    requires Lookup(rows, row.id).Some?
    ensures SumBy(Put(rows, row), f) == SumBy(rows, f) - f(Lookup(rows, row.id).value) + f(row)
  {
    if rows[0].id != row.id {
      PutSum(rows[1..], row, f);
    }
  }

  /** What a loop over `parts` needs of the table: a row for each, whose condition holds. */
  ghost predicate EachApplies(rows: seq<Row>, st: Statement, parts: seq<Part>) {
    forall p :: p in parts ==> Lookup(rows, p.id).Some? && Apply(st, Lookup(rows, p.id).value, p.quantity).Some?
  }

  /** The table after the first part: the rows of the later ones are as they were. */
  lemma FirstPartApplies(rows: seq<Row>, st: Statement, parts: seq<Part>) returns (next: seq<Row>)
    requires Distinct(rows, RowId) && Distinct(parts, Id) && parts != [] && EachApplies(rows, st, parts)
    ensures Execute(rows, st, parts[0].id, parts[0].quantity) == Some(next)
    ensures Distinct(next, RowId) && Distinct(parts[1..], Id) && EachApplies(next, st, parts[1..])
    ensures Lookup(next, parts[0].id) == Apply(st, Lookup(rows, parts[0].id).value, parts[0].quantity)
    ensures forall id :: id != parts[0].id ==> Lookup(next, id) == Lookup(rows, id)
    ensures forall p :: p in parts[1..] ==> p.id != parts[0].id
  {
    var p := parts[0];
    assert p in parts;
    var changed := Apply(st, Lookup(rows, p.id).value, p.quantity).value;
    LookupMember(rows, p.id);
    PutFacts(rows, changed);
    next := Put(rows, changed);
    forall id
      ensures Lookup(next, id) == if id == p.id then Some(changed) else Lookup(rows, id)
    {
      PutLookup(rows, changed, id);
    }
    assert forall r :: r in parts[1..] ==> Id(r) != Id(p) && r in parts;
  }

  /** Each row has at most one part and every condition holds: the whole loop goes
      through, and a row ends as its own part leaves it. */
  lemma {:induction false} AllPartsApply(rows: seq<Row>, st: Statement, parts: seq<Part>)
    requires Distinct(rows, RowId) && Distinct(parts, Id) && EachApplies(rows, st, parts)
    ensures ExecuteAll(rows, st, parts).Some?
    ensures Distinct(ExecuteAll(rows, st, parts).value, RowId)
    ensures forall id :: (forall p :: p in parts ==> p.id != id) ==>
      Lookup(ExecuteAll(rows, st, parts).value, id) == Lookup(rows, id)
    ensures forall p :: p in parts ==>
      Lookup(ExecuteAll(rows, st, parts).value, p.id) == Apply(st, Lookup(rows, p.id).value, p.quantity)
    decreases |parts|
  {
    if parts != [] {
      var next := FirstPartApplies(rows, st, parts);
      AllPartsApply(next, st, parts[1..]);
      var after := ExecuteAll(rows, st, parts).value;
      assert after == ExecuteAll(next, st, parts[1..]).value;
      forall id | forall p :: p in parts ==> p.id != id
        ensures Lookup(after, id) == Lookup(rows, id)
      {
        assert parts[0] in parts && forall p :: p in parts[1..] ==> p in parts;
      }
      forall p | p in parts
        ensures Lookup(after, p.id) == Apply(st, Lookup(rows, p.id).value, p.quantity)
      {
        if p == parts[0] {
        } else {
          assert p in parts[1..];
        }
      }
    }
  }

  /** A column moves by the sum of what the parts do to it. */
  lemma {:induction false} ColumnMoves(rows: seq<Row>, st: Statement, parts: seq<Part>, f: Row -> real,
      effect: Part -> real)
    requires Distinct(rows, RowId) && Distinct(parts, Id) && EachApplies(rows, st, parts)
    requires forall p :: p in parts ==>
      f(Apply(st, Lookup(rows, p.id).value, p.quantity).value) == f(Lookup(rows, p.id).value) + effect(p)
    ensures ExecuteAll(rows, st, parts).Some?
    ensures SumBy(ExecuteAll(rows, st, parts).value, f) == SumBy(rows, f) + SumBy(parts, effect)
    decreases |parts|
  {
    if parts != [] {
      var next := FirstPartApplies(rows, st, parts);
      var p := parts[0];
      LookupMember(rows, p.id);
      assert p in parts;
      PutSum(rows, Apply(st, Lookup(rows, p.id).value, p.quantity).value, f);
      forall q | q in parts[1..]
        ensures f(Apply(st, Lookup(next, q.id).value, q.quantity).value) == f(Lookup(next, q.id).value) + effect(q)
      {
        assert q in parts;
      }
      ColumnMoves(next, st, parts[1..], f, effect);
    }
  }

  lemma {:induction false} ExecuteAllSplit(rows: seq<Row>, st: Statement, parts: seq<Part>, k: nat)
    requires k < |parts|
    ensures
      match ExecuteAll(rows, st, parts[..k])
      case None => ExecuteAll(rows, st, parts[..k + 1]).None?
      case Some(mid) => ExecuteAll(rows, st, parts[..k + 1]) == Execute(mid, st, parts[k].id, parts[k].quantity)
    decreases k
  {
    if k > 0 {
      match Execute(rows, st, parts[0].id, parts[0].quantity)
      case None =>
      case Some(next) =>
        ExecuteAllSplit(next, st, parts[1..], k - 1);
        assert parts[..k][1..] == parts[1..][..k - 1];
        assert parts[..k + 1][1..] == parts[1..][..k];
    }
  }

  lemma {:induction false} ExecuteAllStops(rows: seq<Row>, st: Statement, parts: seq<Part>, k: nat)
    requires k <= |parts| && ExecuteAll(rows, st, parts[..k]).None?
    ensures ExecuteAll(rows, st, parts).None?
    decreases |parts|
  {
    if k > 0 {
      match Execute(rows, st, parts[0].id, parts[0].quantity)
      case None =>
      case Some(next) =>
        assert parts[..k][1..] == parts[1..][..k - 1];
        ExecuteAllStops(next, st, parts[1..], k - 1);
    }
  }

  // ------------------------------------------------------------- the ledger

  /** The movement `applyStockDelta` writes: identity from the row that was read. */
  function MovementFor(stock: Row, delta: real, reason: Reason): Movement {
    Movement(stock.productId, stock.locationId, stock.binLocation, delta, reason)
  }

  /** One movement per part, each naming the shelf its row was read from. */
  function MovementsFor(read: seq<Row>, parts: seq<Part>, reason: Reason): seq<Movement>
    requires forall p :: p in parts ==> Lookup(read, p.id).Some?
  {
    if parts == [] then []
    else
      [MovementFor(Lookup(read, parts[0].id).value, -parts[0].quantity, reason)]
      + MovementsFor(read, parts[1..], reason)
  }

  lemma {:induction false} MovementsAppend(read: seq<Row>, parts: seq<Part>, reason: Reason, k: nat)
    requires k < |parts| && forall p :: p in parts ==> Lookup(read, p.id).Some?
    ensures MovementsFor(read, parts[..k + 1], reason) ==
      MovementsFor(read, parts[..k], reason)
        + [MovementFor(Lookup(read, parts[k].id).value, -parts[k].quantity, reason)]
  {
    if k > 0 {
      assert parts[..k + 1][1..] == parts[1..][..k];
      assert parts[..k][1..] == parts[1..][..k - 1];
      MovementsAppend(read, parts[1..], reason, k - 1);
    }
  }

  /** The statement a stock delta becomes. */
  function DeltaStatement(delta: real, reason: Reason): Statement {
    if delta >= 0.0 then Add else if RespectsReservations(reason) then TakeSellable else TakeAny
  }

  function Magnitude(delta: real): real {
    if delta < 0.0 then -delta else delta
  }

  /** The statement a removal for this reason runs on every shelf. */
  function RemovalStatement(reason: Reason): Statement {
    if RespectsReservations(reason) then TakeSellable else TakeAny
  }

  /** What a deduction along `parts` may leave: all of them written with their
      movements, or those before the first whose row no longer covers it. */
  ghost predicate Deducted(rows: seq<Row>, ledger: seq<Movement>, read: seq<Row>, parts: seq<Part>, reason: Reason,
                           ok: bool, rows': seq<Row>, ledger': seq<Movement>)
  {
    var st := RemovalStatement(reason);
    && (forall p :: p in parts ==> Lookup(read, p.id).Some?)
    && (ok <==> ExecuteAll(rows, st, parts).Some?)
    && exists k: nat :: k <= |parts| && (k == |parts| <==> ok)
         && ExecuteAll(rows, st, parts[..k]) == Some(rows')
           && ledger' == ledger + MovementsFor(read, parts[..k], reason)
  }

  lemma DeductedInFull(rows: seq<Row>, ledger: seq<Movement>, read: seq<Row>, parts: seq<Part>, reason: Reason,
                       rows': seq<Row>, ledger': seq<Movement>)
    requires Deducted(rows, ledger, read, parts, reason, true, rows', ledger')
    ensures ExecuteAll(rows, RemovalStatement(reason), parts) == Some(rows')
    ensures ledger' == ledger + MovementsFor(read, parts, reason)
  {
    assert parts[..|parts|] == parts;
  }

  // ------------------------------------------- the cache and the ledger agree

  /** Where a product lies: what a row and a movement both name. */
  datatype Shelf = Shelf(productId: string, locationId: string, binLocation: string)

  const ShelfOf: Row -> Shelf := (r: Row) => Shelf(r.productId, r.locationId, r.binLocation)

  function Lying(shelf: Shelf): Row -> real {
    (r: Row) =>
      if r.productId == shelf.productId && r.locationId == shelf.locationId && r.binLocation == shelf.binLocation
      then r.quantity else 0.0
  }

  function MovedOn(shelf: Shelf): Movement -> real {
    (m: Movement) =>
      if m.productId == shelf.productId && m.locationId == shelf.locationId && m.binLocation == shelf.binLocation
      then m.quantity else 0.0
  }

  /** What the rows say lies on a shelf; a shelf without a row holds nothing. */
  function OnShelf(rows: seq<Row>, shelf: Shelf): real {
    SumBy(rows, Lying(shelf))
  }

  function LedgerSum(ledger: seq<Movement>, shelf: Shelf): real {
    SumBy(ledger, MovedOn(shelf))
  }

  /** On every shelf the cached quantity is the sum of its movements. */
  ghost predicate CacheIsLedger(rows: seq<Row>, ledger: seq<Movement>) {
    forall shelf :: OnShelf(rows, shelf) == LedgerSum(ledger, shelf)
  }

  /** Rows read earlier lie where the rows of the same ids lie now. */
  ghost predicate SameShelves(read: seq<Row>, rows: seq<Row>) {
    forall id :: Lookup(read, id).Some? && Lookup(rows, id).Some? ==>
      ShelfOf(Lookup(read, id).value) == ShelfOf(Lookup(rows, id).value)
  }

  /** With one row a shelf, which the unique index keeps, the books agree exactly when each row's quantity is
      the sum of its shelf's movements, and a shelf without a row has none in all. */
  lemma BooksAgreeRowByRow(rows: seq<Row>, ledger: seq<Movement>)
    requires Distinct(rows, ShelfOf)
    ensures CacheIsLedger(rows, ledger) <==>
      && (forall r :: r in rows ==> r.quantity == LedgerSum(ledger, ShelfOf(r)))
      && (forall shelf :: (forall r :: r in rows ==> ShelfOf(r) != shelf) ==> LedgerSum(ledger, shelf) == 0.0)
  {
    hide LedgerSum;
    forall shelf
      ensures forall r :: r in rows && ShelfOf(r) == shelf ==> OnShelf(rows, shelf) == r.quantity
      ensures (forall r :: r in rows ==> ShelfOf(r) != shelf) ==> OnShelf(rows, shelf) == 0.0
    {
      OnShelfIsItsRow(rows, shelf);
    }
  }

  lemma {:induction false} OnShelfIsItsRow(rows: seq<Row>, shelf: Shelf)
    requires Distinct(rows, ShelfOf)
    ensures forall r :: r in rows && ShelfOf(r) == shelf ==> OnShelf(rows, shelf) == r.quantity
    ensures (forall r :: r in rows ==> ShelfOf(r) != shelf) ==> OnShelf(rows, shelf) == 0.0
  {
    if rows != [] {
      OnShelfIsItsRow(rows[1..], shelf);
      assert rows[0] in rows;
    }
  }

  /** What a statement adds to the goods of the row it runs on. */
  function GoodsMoved(st: Statement, q: real): real {
    match st
    case Add => q
    case TakeSellable => -q
    case TakeAny => -q
    case _ => 0.0
  }

  lemma StatementMoves(rows: seq<Row>, st: Statement, id: string, q: real, shelf: Shelf)
    requires Execute(rows, st, id, q).Some?
    ensures Lookup(rows, id).Some?
    ensures OnShelf(Execute(rows, st, id, q).value, shelf) ==
      OnShelf(rows, shelf) + if ShelfOf(Lookup(rows, id).value) == shelf then GoodsMoved(st, q) else 0.0
  {
    LookupMember(rows, id);
    PutSum(rows, Apply(st, Lookup(rows, id).value, q).value, Lying(shelf));
  }

  lemma StatementKeepsShelves(read: seq<Row>, rows: seq<Row>, st: Statement, id: string, q: real)
    requires SameShelves(read, rows) && Execute(rows, st, id, q).Some?
    ensures SameShelves(read, Execute(rows, st, id, q).value)
  {
    LookupMember(rows, id);
    var changed := Apply(st, Lookup(rows, id).value, q).value;
    forall other
      ensures Lookup(Put(rows, changed), other) == if other == id then Some(changed) else Lookup(rows, other)
    {
      PutLookup(rows, changed, other);
    }
  }

  lemma OneMovementMore(ledger: seq<Movement>, m: Movement, shelf: Shelf)
    ensures LedgerSum(ledger + [m], shelf) == LedgerSum(ledger, shelf) + MovedOn(shelf)(m)
  {
    SumByConcat(ledger, [m], MovedOn(shelf));
    assert [m][1..] == [];
  }

  /** A delta written with its movement, on the shelf its row lies on, keeps the books. */
  lemma DeltaKeepsBooks(rows: seq<Row>, ledger: seq<Movement>, stock: Row, delta: real, reason: Reason)
    requires CacheIsLedger(rows, ledger)
    requires Execute(rows, DeltaStatement(delta, reason), stock.id, Magnitude(delta)).Some?
    requires Lookup(rows, stock.id).Some? && ShelfOf(Lookup(rows, stock.id).value) == ShelfOf(stock)
    ensures CacheIsLedger(Execute(rows, DeltaStatement(delta, reason), stock.id, Magnitude(delta)).value,
                          ledger + [MovementFor(stock, delta, reason)])
  {
    hide Execute, Lookup, OnShelf, LedgerSum;
    forall shelf
      ensures OnShelf(Execute(rows, DeltaStatement(delta, reason), stock.id, Magnitude(delta)).value, shelf)
        == LedgerSum(ledger + [MovementFor(stock, delta, reason)], shelf)
    {
      StatementMoves(rows, DeltaStatement(delta, reason), stock.id, Magnitude(delta), shelf);
      OneMovementMore(ledger, MovementFor(stock, delta, reason), shelf);
    }
  }

  /** So does any number of parts taken, each with its movement. */
  lemma {:induction false} PartsKeepBooks(rows: seq<Row>, ledger: seq<Movement>, read: seq<Row>, parts: seq<Part>,
                                          reason: Reason)
    requires CacheIsLedger(rows, ledger) && SameShelves(read, rows)
    requires forall p :: p in parts ==> p.quantity > 0.0 && Lookup(read, p.id).Some?
    requires ExecuteAll(rows, RemovalStatement(reason), parts).Some?
    ensures CacheIsLedger(ExecuteAll(rows, RemovalStatement(reason), parts).value,
                          ledger + MovementsFor(read, parts, reason))
    decreases |parts|
  {
    hide Execute, CacheIsLedger, SameShelves, Lookup, MovementFor;
    if parts == [] {
      assert ledger + [] == ledger;
    } else {
      var p, st := parts[0], RemovalStatement(reason);
      assert p in parts && forall x :: x in parts[1..] ==> x in parts;
      var stock := Lookup(read, p.id).value;
      LookupMember(read, p.id);
      ExecutedRow(rows, st, p.id, p.quantity);
      SameShelf(read, rows, p.id);
      DeltaKeepsBooks(rows, ledger, stock, -p.quantity, reason);
      StatementKeepsShelves(read, rows, st, p.id, p.quantity);
      PartsKeepBooks(Execute(rows, st, p.id, p.quantity).value, ledger + [MovementFor(stock, -p.quantity, reason)],
                     read, parts[1..], reason);
      assert ledger + [MovementFor(stock, -p.quantity, reason)] + MovementsFor(read, parts[1..], reason)
          == ledger + MovementsFor(read, parts, reason);
    }
  }

  lemma ExecutedRow(rows: seq<Row>, st: Statement, id: string, q: real)
    requires Execute(rows, st, id, q).Some?
    ensures Lookup(rows, id).Some?
  {
  }

  lemma SameShelf(read: seq<Row>, rows: seq<Row>, id: string)
    requires SameShelves(read, rows) && Lookup(read, id).Some? && Lookup(rows, id).Some?
    ensures ShelfOf(Lookup(read, id).value) == ShelfOf(Lookup(rows, id).value)
  {
  }

  /** Taking parts off lowers the goods by what the parts say, whatever was read before. */
  lemma {:induction false} PartsTakeGoods(rows: seq<Row>, reason: Reason, parts: seq<Part>)
    requires ExecuteAll(rows, RemovalStatement(reason), parts).Some?
    ensures SumBy(ExecuteAll(rows, RemovalStatement(reason), parts).value, OnHand)
      == SumBy(rows, OnHand) - SumBy(parts, Quantity)
    decreases |parts|
  {
    if parts != [] {
      var p, st := parts[0], RemovalStatement(reason);
      LookupMember(rows, p.id);
      PutSum(rows, Apply(st, Lookup(rows, p.id).value, p.quantity).value, OnHand);
      PartsTakeGoods(Execute(rows, st, p.id, p.quantity).value, reason, parts[1..]);
    }
  }

  /** Statements that move holds move no goods on any shelf. */
  lemma {:induction false} HoldsMoveNothing(rows: seq<Row>, st: Statement, parts: seq<Part>)
    requires st in {Reserve, Unreserve, Block, Unblock, FreeBlocked} && ExecuteAll(rows, st, parts).Some?
    ensures forall shelf :: OnShelf(ExecuteAll(rows, st, parts).value, shelf) == OnShelf(rows, shelf)
    decreases |parts|
  {
    hide Execute, OnShelf;
    if parts != [] {
      var next := Execute(rows, st, parts[0].id, parts[0].quantity).value;
      forall shelf
        ensures OnShelf(next, shelf) == OnShelf(rows, shelf)
      {
        StatementMoves(rows, st, parts[0].id, parts[0].quantity, shelf);
      }
      HoldsMoveNothing(next, st, parts[1..]);
    }
  }

  /** A new row on a shelf that has none, with its movement. */
  lemma CreatedKeepsBooks(rows: seq<Row>, ledger: seq<Movement>, row: Row, reason: Reason)
    requires CacheIsLedger(rows, ledger)
    ensures CacheIsLedger(rows + [row], ledger + [MovementFor(row, row.quantity, reason)])
  {
    hide LedgerSum;
    forall shelf
      ensures OnShelf(rows + [row], shelf) == LedgerSum(ledger + [MovementFor(row, row.quantity, reason)], shelf)
    {
      SumByConcat(rows, [row], Lying(shelf));
      assert [row][1..] == [];
      OneMovementMore(ledger, MovementFor(row, row.quantity, reason), shelf);
    }
  }

  // ------------------------------------------- which removals may happen

  /** When a delta goes through and what it leaves, column by column: goods that come always do; goods that
      go need what lies there, less what is promised when they are sold, sent on, made into something,
      served or returned to the supplier. */
  lemma DeltaEffect(rows: seq<Row>, row: Row, delta: real, reason: Reason)
    requires Lookup(rows, row.id) == Some(row)
    ensures
      var promised :=
        if reason in {Sale, OrderFulfill, TransferOut, ProductionOut, TableOrder, SupplierReturn} then row.reserved
        else 0.0;
      var after := Execute(rows, DeltaStatement(delta, reason), row.id, Magnitude(delta));
      && (after.Some? <==> delta >= 0.0 || row.quantity - promised >= -delta)
      && (after.Some? ==>
            && Lookup(after.value, row.id) == Some(row.(quantity := row.quantity + delta))
            && forall id :: id != row.id ==> Lookup(after.value, id) == Lookup(rows, id))
  {
    var changed := row.(quantity := row.quantity + delta);
    forall id
      ensures Lookup(Put(rows, changed), id) == if id == row.id then Some(changed) else Lookup(rows, id)
    {
      PutLookup(rows, changed, id);
    }
  }

  /** When a hold is made or given up and what it leaves, column by column: a reservation needs what is not
      reserved yet, quarantine what is neither reserved nor in quarantine, putting goods back on sale needs
      them in quarantine; the other two give up what there is. */
  lemma HoldEffect(rows: seq<Row>, row: Row, st: Statement, q: real)
    requires Lookup(rows, row.id) == Some(row) && st in {Reserve, Unreserve, Block, Unblock, FreeBlocked}
    ensures
      var after := Execute(rows, st, row.id, q);
      && (after.Some? <==>
            && (st == Reserve ==> row.quantity - row.reserved >= q)
            && (st == Block ==> row.quantity - row.reserved - row.blocked >= q)
            && (st == Unblock ==> row.blocked >= q))
      && (after.Some? ==>
            && Lookup(after.value, row.id) ==
                 Some(row.(reserved := ReservedAfter(row, st, q), blocked := BlockedAfter(row, st, q)))
            && forall id :: id != row.id ==> Lookup(after.value, id) == Lookup(rows, id))
  {
    var changed := row.(reserved := ReservedAfter(row, st, q), blocked := BlockedAfter(row, st, q));
    forall id
      ensures Lookup(Put(rows, changed), id) == if id == row.id then Some(changed) else Lookup(rows, id)
    {
      PutLookup(rows, changed, id);
    }
  }

  function ReservedAfter(row: Row, st: Statement, q: real): real {
    if st == Reserve then row.reserved + q
    else if st == Unreserve then (if row.reserved > q then row.reserved - q else 0.0)
    else row.reserved
  }

  function BlockedAfter(row: Row, st: Statement, q: real): real {
    if st == Block then row.blocked + q
    else if st == Unblock then row.blocked - q
    else if st == FreeBlocked then (if row.blocked > q then row.blocked - q else 0.0)
    else row.blocked
  }

  // ----------------------------------------------------- reads for allocators

  /** The rows as the bin allocator sees them: what this kind of removal may touch. */
  function BinsOf(read: seq<Row>, respects: bool): seq<BinStock> {
    if read == [] then []
    else
      [BinStock(read[0].id, read[0].binLocation, if respects then AvailableQuantity(read[0]) else read[0].quantity)]
      + BinsOf(read[1..], respects)
  }

  function HoldsOf(read: seq<Row>, hold: Row -> real): seq<HeldRow> {
    if read == [] then [] else [HeldRow(read[0].id, hold(read[0]))] + HoldsOf(read[1..], hold)
  }

  const Blocked: Row -> real := (r: Row) => r.blocked

  lemma {:induction false} BinsOfFacts(read: seq<Row>, respects: bool)
    requires Distinct(read, RowId)
    ensures Distinct(BinsOf(read, respects), StockId)
    ensures forall b :: b in BinsOf(read, respects) ==>
      && Lookup(read, b.stockId).Some?
      && b.available ==
           if respects then AvailableQuantity(Lookup(read, b.stockId).value) else Lookup(read, b.stockId).value.quantity
  {
    if read != [] {
      BinsOfFacts(read[1..], respects);
      assert BinsOf(read, respects)[1..] == BinsOf(read[1..], respects);
      forall b | b in BinsOf(read[1..], respects)
        ensures b.stockId != read[0].id
      {
        LookupMember(read[1..], b.stockId);
        assert RowId(Lookup(read[1..], b.stockId).value) != RowId(read[0]);
      }
    }
  }

  lemma {:induction false} HoldsOfFacts(read: seq<Row>, hold: Row -> real)
    requires Distinct(read, RowId)
    ensures Distinct(HoldsOf(read, hold), HeldId)
    ensures forall h :: h in HoldsOf(read, hold) ==>
      Lookup(read, h.stockId).Some? && h.held == hold(Lookup(read, h.stockId).value)
  {
    if read != [] {
      HoldsOfFacts(read[1..], hold);
      assert HoldsOf(read, hold)[1..] == HoldsOf(read[1..], hold);
      forall h | h in HoldsOf(read[1..], hold)
        ensures h.stockId != read[0].id
      {
        LookupMember(read[1..], h.stockId);
        assert RowId(Lookup(read[1..], h.stockId).value) != RowId(read[0]);
      }
    }
  }

  // ------------------------------------------------------------ hold trimming

  function TrimmedRow(row: Row): Row {
    var trim := TrimHolds(row.quantity, Holds(row.reserved, row.blocked));
    row.(reserved := if trim.reserved > 0.0 then Max(row.reserved - trim.reserved, 0.0) else row.reserved,
         blocked := if trim.blocked > 0.0 then Max(row.blocked - trim.blocked, 0.0) else row.blocked)
  }

  /** Every row named in `ids` trimmed, the others as they were. */
  function TrimAll(rows: seq<Row>, ids: set<string>): seq<Row> {
    if rows == [] then []
    else [if rows[0].id in ids then TrimmedRow(rows[0]) else rows[0]] + TrimAll(rows[1..], ids)
  }

  datatype TrimReport = TrimReport(stockId: string, productId: string, binLocation: string, reserved: real,
      blocked: real)

  /** What was taken off a row, for the person who has to be told. */
  function ReportFor(row: Row): seq<TrimReport> {
    var trim := TrimHolds(row.quantity, Holds(row.reserved, row.blocked));
    if IsEmptyTrim(trim) then []
    else [TrimReport(row.id, row.productId, row.binLocation, trim.reserved, trim.blocked)]
  }

  function TrimReports(rows: seq<Row>, ids: set<string>): seq<TrimReport> {
    if rows == [] then []
    else (if rows[0].id in ids then ReportFor(rows[0]) else []) + TrimReports(rows[1..], ids)
  }

  /** A trim report of this row, as it was and as it was left. */
  predicate Reports(t: TrimReport, before: Row, after: Row) {
    && t.stockId == before.id && t.productId == before.productId && t.binLocation == before.binLocation
    && t.reserved == before.reserved - after.reserved && t.blocked == before.blocked - after.blocked
    && after != before
  }

  lemma {:induction false} TrimAllLength(rows: seq<Row>, ids: set<string>)
    ensures |TrimAll(rows, ids)| == |rows|
    ensures forall shelf :: OnShelf(TrimAll(rows, ids), shelf) == OnShelf(rows, shelf)
  {
    if rows != [] {
      TrimAllLength(rows[1..], ids);
      var after := TrimAll(rows, ids);
      assert after[1..] == TrimAll(rows[1..], ids);
      forall shelf
        ensures OnShelf(after, shelf) == OnShelf(rows, shelf)
      {
        assert OnShelf(after[1..], shelf) == OnShelf(rows[1..], shelf);
        assert Lying(shelf)(after[0]) == Lying(shelf)(rows[0]);
      }
    }
  }

  /** The report names exactly the rows the trim changed, each with what came off it. */
  lemma {:induction false} TrimReportsAreTrue(rows: seq<Row>, ids: set<string>, t: TrimReport)
    requires forall r :: r in rows ==> r.reserved >= 0.0 && r.blocked >= 0.0
    ensures |TrimAll(rows, ids)| == |rows|
    ensures t in TrimReports(rows, ids) <==>
      exists i :: 0 <= i < |rows| && Reports(t, rows[i], TrimAll(rows, ids)[i])
  {
    hide Reports;
    TrimAllLength(rows, ids);
    if rows != [] {
      assert rows[0] in rows && forall r :: r in rows[1..] ==> r in rows;
      var after := TrimAll(rows, ids);
      assert after[1..] == TrimAll(rows[1..], ids);
      TrimReportsAreTrue(rows[1..], ids, t);
      FirstReport(rows[0], after[0], rows[0].id in ids, t);
      if i :| 0 <= i < |rows[1..]| && Reports(t, rows[1..][i], after[1..][i]) {
        assert Reports(t, rows[i + 1], after[i + 1]);
      }
      if i :| 0 < i < |rows| && Reports(t, rows[i], after[i]) {
        assert Reports(t, rows[1..][i - 1], after[1..][i - 1]);
      }
    }
  }

  lemma FirstReport(row: Row, after: Row, named: bool, t: TrimReport)
    requires row.reserved >= 0.0 && row.blocked >= 0.0 && after == if named then TrimmedRow(row) else row
    ensures t in (if named then ReportFor(row) else []) <==> Reports(t, row, after)
  {
  }

  lemma NothingTrimmed(rows: seq<Row>, row: Row)
    requires Lookup(rows, row.id) == Some(row)
    requires IsEmptyTrim(TrimHolds(row.quantity, Holds(row.reserved, row.blocked)))
    ensures Put(rows, TrimmedRow(row)) == rows
  {
    PutSame(rows, row);
  }

  /** Trimming one row more: nothing has touched it yet, and writing it trimmed extends the set. */
  lemma {:induction false} TrimOneMore(rows: seq<Row>, done: set<string>, row: Row)
    requires Distinct(rows, RowId) && row in rows && row.id !in done
    ensures Lookup(TrimAll(rows, done), row.id) == Some(row)
    ensures Put(TrimAll(rows, done), TrimmedRow(row)) == TrimAll(rows, done + {row.id})
  {
    if rows[0].id == row.id {
      SameKeySameElement(rows, RowId, rows[0], row);
      TrimOthers(rows[1..], done, row.id);
    } else {
      TrimOneMore(rows[1..], done, row);
    }
  }

  lemma {:induction false} TrimOthers(rows: seq<Row>, done: set<string>, id: string)
    requires forall r :: r in rows ==> RowId(r) != id
    ensures TrimAll(rows, done + {id}) == TrimAll(rows, done)
  {
    if rows != [] {
      assert RowId(rows[0]) != id;
      TrimOthers(rows[1..], done, id);
    }
  }

  lemma {:induction false} PutTwice(rows: seq<Row>, first: Row, second: Row)
    requires first.id == second.id
    ensures Put(Put(rows, first), second) == Put(rows, second)
  {
    if rows != [] && rows[0].id != first.id {
      PutTwice(rows[1..], first, second);
    }
  }

  lemma {:induction false} PutSame(rows: seq<Row>, row: Row)
    requires Lookup(rows, row.id) == Some(row)
    ensures Put(rows, row) == rows
  {
    if rows[0].id != row.id {
      PutSame(rows[1..], row);
    }
  }

  /** The ids among `ids` that these rows carry. */
  ghost function Named(rows: seq<Row>, ids: set<string>): set<string> {
    set r | r in rows && r.id in ids :: r.id
  }

  lemma NothingNamed(rows: seq<Row>, ids: set<string>)
    ensures TrimAll(rows, Named(rows[..0], ids)) == rows
  {
    TrimNothing(rows);
    assert Named(rows[..0], ids) == {};
  }

  lemma OneMoreNamed(rows: seq<Row>, ids: set<string>, i: nat)
    requires Distinct(rows, RowId) && i < |rows|
    ensures rows[i] in rows && rows[i].id !in Named(rows[..i], ids)
    ensures rows[i].id in ids ==> Named(rows[..i + 1], ids) == Named(rows[..i], ids) + {rows[i].id}
    ensures rows[i].id !in ids ==> Named(rows[..i + 1], ids) == Named(rows[..i], ids)
    ensures TrimReports(rows[i..], ids) ==
      (if rows[i].id in ids then ReportFor(rows[i]) else []) + TrimReports(rows[i + 1..], ids)
  {
    EarlierRowsDiffer(rows, i);
    assert rows[..i + 1] == rows[..i] + [rows[i]];
    assert rows[i..][1..] == rows[i + 1..];
  }

  lemma AllTrimmed(rows: seq<Row>, ids: set<string>, n: nat)
    requires n == |rows|
    ensures TrimAll(rows, Named(rows[..n], ids)) == TrimAll(rows, ids)
    ensures TrimReports(rows[n..], ids) == []
  {
    assert rows[..n] == rows;
    TrimKnown(rows, Named(rows, ids), ids);
  }

  lemma {:induction false} EarlierRowsDiffer(rows: seq<Row>, i: nat)
    requires Distinct(rows, RowId) && i < |rows|
    ensures forall r :: r in rows[..i] ==> r.id != rows[i].id
  {
    if i > 0 {
      assert rows[i] == rows[1..][i - 1];
      assert RowId(rows[i]) != RowId(rows[0]);
      EarlierRowsDiffer(rows[1..], i - 1);
      assert rows[..i] == [rows[0]] + rows[1..][..i - 1];
    }
  }

  lemma {:induction false} TrimNothing(rows: seq<Row>)
    ensures TrimAll(rows, {}) == rows
  {
    if rows != [] {
      TrimNothing(rows[1..]);
    }
  }

  /** Only the ids of rows that exist matter. */
  lemma {:induction false} TrimKnown(rows: seq<Row>, some: set<string>, all: set<string>)
    requires forall r :: r in rows ==> (r.id in some <==> r.id in all)
    ensures TrimAll(rows, some) == TrimAll(rows, all)
  {
    if rows != [] {
      TrimKnown(rows[1..], some, all);
    }
  }

  lemma BooksKept(rows: seq<Row>, ledger: seq<Movement>, read: seq<Row>, parts: seq<Part>, reason: Reason)
    requires forall p :: p in parts ==> p.quantity > 0.0 && Lookup(read, p.id).Some?
    requires ExecuteAll(rows, RemovalStatement(reason), parts).Some?
    ensures CacheIsLedger(rows, ledger) && SameShelves(read, rows) ==>
      CacheIsLedger(ExecuteAll(rows, RemovalStatement(reason), parts).value,
                    ledger + MovementsFor(read, parts, reason))
  {
    hide CacheIsLedger, SameShelves;
    if CacheIsLedger(rows, ledger) && SameShelves(read, rows) {
      PartsKeepBooks(rows, ledger, read, parts, reason);
    }
  }

  lemma GoodsStay(rows: seq<Row>, st: Statement, parts: seq<Part>)
    requires ExecuteAll(rows, st, parts).Some?
    ensures st in {Reserve, Unreserve, Block, Unblock, FreeBlocked} ==>
      forall shelf :: OnShelf(ExecuteAll(rows, st, parts).value, shelf) == OnShelf(rows, shelf)
  {
    hide OnShelf;
    if st in {Reserve, Unreserve, Block, Unblock, FreeBlocked} {
      HoldsMoveNothing(rows, st, parts);
    }
  }

  // ------------------------------------------------------------- transaction

  class StockTable {
    var rows: seq<Row>
    var ledger: seq<Movement>

    ghost predicate Valid()
      reads this
    {
      Distinct(rows, RowId)
    }

    constructor (rows: seq<Row>, ledger: seq<Movement>)
      requires Distinct(rows, RowId)
      ensures Valid() && this.rows == rows && this.ledger == ledger
    {
      this.rows := rows;
      this.ledger := ledger;
    }

    /** One `UPDATE ... WHERE`: answers whether a row was affected. */
    method Update(st: Statement, id: string, q: real) returns (affected: bool)
      modifies this`rows
      ensures affected <==> Execute(old(rows), st, id, q).Some?
      ensures rows == if affected then Execute(old(rows), st, id, q).value else old(rows)
    {
      var next := Execute(rows, st, id, q);
      affected := next.Some?;
      if affected {
        rows := next.value;
      }
    }

    /** A delta on an existing row, with its movement; the row is found by id, its
        condition checked at write time, whatever the caller read before. */
    method ApplyStockDelta(stock: Row, delta: real, reason: Reason) returns (ok: bool)
      modifies this
      ensures ok <==> Execute(old(rows), DeltaStatement(delta, reason), stock.id, Magnitude(delta)).Some?
      ensures ok ==>
        && rows == Execute(old(rows), DeltaStatement(delta, reason), stock.id, Magnitude(delta)).value
        && ledger == old(ledger)
             + [Movement(stock.productId, stock.locationId, stock.binLocation, delta, reason)]
      ensures !ok ==> rows == old(rows) && ledger == old(ledger)
      ensures ok ==> Lookup(old(rows), stock.id).Some?
      ensures old(CacheIsLedger(rows, ledger)) && ok && ShelfOf(Lookup(old(rows), stock.id).value) == ShelfOf(stock)
        ==> CacheIsLedger(rows, ledger)
    {
      hide CacheIsLedger, Lookup, Put;
      if delta < 0.0 {
        var needed := -delta;
        if RespectsReservations(reason) {
          ok := Update(TakeSellable, stock.id, needed);
        } else {
          ok := Update(TakeAny, stock.id, needed);
        }
      } else {
        ok := Update(Add, stock.id, delta);
      }
      if ok {
        ledger := ledger + [MovementFor(stock, delta, reason)];
        ExecutedRow(old(rows), DeltaStatement(delta, reason), stock.id, Magnitude(delta));
        if old(CacheIsLedger(rows, ledger)) && ShelfOf(Lookup(old(rows), stock.id).value) == ShelfOf(stock) {
          DeltaKeepsBooks(old(rows), old(ledger), stock, delta, reason);
        }
      }
    }

    /** The write loop of a deduction: one guarded delta and one movement per part. */
    method ApplyParts(read: seq<Row>, parts: seq<Part>, reason: Reason) returns (ok: bool)
      requires forall p :: p in parts ==> p.quantity > 0.0 && Lookup(read, p.id).Some?
      modifies this
      ensures Deducted(old(rows), old(ledger), read, parts, reason, ok, rows, ledger)
      ensures ok ==> SumBy(rows, OnHand) == SumBy(old(rows), OnHand) - SumBy(parts, Quantity)
      ensures old(CacheIsLedger(rows, ledger)) && SameShelves(read, old(rows)) ==> CacheIsLedger(rows, ledger)
    {
      hide Lookup, Put, CacheIsLedger, SameShelves;
      var st := RemovalStatement(reason);
      var i := 0;
      while i < |parts|
        invariant i <= |parts|
        invariant ExecuteAll(old(rows), st, parts[..i]) == Some(rows)
        invariant ledger == old(ledger) + MovementsFor(read, parts[..i], reason)
      {
        var part := parts[i];
        assert part in parts;
        LookupMember(read, part.id);
        ExecuteAllSplit(old(rows), st, parts, i);
        MovementsAppend(read, parts, reason, i);
        ok := ApplyStockDelta(Lookup(read, part.id).value, -part.quantity, reason);
        if !ok {
          ExecuteAllStops(old(rows), st, parts, i + 1);
          BooksKept(old(rows), old(ledger), read, parts[..i], reason);
          return;
        }
        i := i + 1;
      }
      assert parts[..i] == parts;
      BooksKept(old(rows), old(ledger), read, parts, reason);
      PartsTakeGoods(old(rows), reason, parts);
      ok := true;
    }

    /** Goods leave shelf by shelf as the allocator decided on the rows that were
        read, fresh or stale; a part whose row no longer covers it stops the loop. */
    method DeductAcrossBins(read: seq<Row>, quantity: real, reason: Reason) returns (ok: bool)
      requires Distinct(read, RowId)
      modifies this
      ensures
        match Allocation(quantity, BinsOf(read, RespectsReservations(reason)))
        case Insufficient(_) => !ok && rows == old(rows) && ledger == old(ledger)
        case Allocated(parts) => Deducted(old(rows), old(ledger), read, parts, reason, ok, rows, ledger)
      ensures ok && quantity >= 0.0 ==> SumBy(rows, OnHand) == SumBy(old(rows), OnHand) - quantity
      ensures old(CacheIsLedger(rows, ledger)) && SameShelves(read, old(rows)) ==> CacheIsLedger(rows, ledger)
    {
      var bins := BinsOf(read, RespectsReservations(reason));
      BinsOfFacts(read, RespectsReservations(reason));
      AllocationIsExact(quantity, bins);
      var allocation := AllocateFromBins(quantity, bins);
      if allocation.Insufficient? {
        return false;
      }
      ok := ApplyParts(read, allocation.allocations, reason);
    }

    /** Runs one statement for every part: the loop of the reserving and releasing functions. */
    method UpdateAll(st: Statement, parts: seq<Part>) returns (ok: bool)
      modifies this`rows
      ensures ok <==> ExecuteAll(old(rows), st, parts).Some?
      ensures ok ==> rows == ExecuteAll(old(rows), st, parts).value
      ensures !ok ==> exists k: nat :: k < |parts| && ExecuteAll(old(rows), st, parts[..k]) == Some(rows)
      ensures st in {Reserve, Unreserve, Block, Unblock, FreeBlocked} ==>
        forall shelf :: OnShelf(rows, shelf) == OnShelf(old(rows), shelf)
    {
      hide OnShelf;
      var i := 0;
      while i < |parts|
        invariant i <= |parts|
        invariant ExecuteAll(old(rows), st, parts[..i]) == Some(rows)
      {
        ExecuteAllSplit(old(rows), st, parts, i);
        ok := Update(st, parts[i].id, parts[i].quantity);
        if !ok {
          ExecuteAllStops(old(rows), st, parts, i + 1);
          GoodsStay(old(rows), st, parts[..i]);
          return;
        }
        i := i + 1;
      }
      assert parts[..i] == parts;
      GoodsStay(old(rows), st, parts);
      ok := true;
    }

    method ReserveAcrossBins(read: seq<Row>, quantity: real) returns (ok: bool)
      modifies this`rows
      ensures
        match Allocation(quantity, BinsOf(read, true))
        case Insufficient(_) => !ok && rows == old(rows)
        case Allocated(parts) =>
          && (ok <==> ExecuteAll(old(rows), Reserve, parts).Some?)
          && (ok ==> rows == ExecuteAll(old(rows), Reserve, parts).value)
      ensures forall shelf :: OnShelf(rows, shelf) == OnShelf(old(rows), shelf)
    {
      var allocation := AllocateFromBins(quantity, BinsOf(read, true));
      if allocation.Insufficient? {
        return false;
      }
      ok := UpdateAll(Reserve, allocation.allocations);
    }

    /** Never fails when the rows it was given exist: giving a hold back has no condition. */
    method ReleaseAcrossBins(read: seq<Row>, quantity: real) returns (ok: bool)
      modifies this`rows
      ensures ok <==> ExecuteAll(old(rows), Unreserve, Release(quantity, HoldsOf(read, Reserved))).Some?
      ensures ok ==> rows == ExecuteAll(old(rows), Unreserve, Release(quantity, HoldsOf(read, Reserved))).value
      ensures forall shelf :: OnShelf(rows, shelf) == OnShelf(old(rows), shelf)
    {
      var parts := AllocateRelease(quantity, HoldsOf(read, Reserved));
      ok := UpdateAll(Unreserve, parts);
    }

    method ReleaseBlockedAcrossBins(read: seq<Row>, quantity: real) returns (ok: bool)
      modifies this`rows
      ensures ok <==> ExecuteAll(old(rows), FreeBlocked, Release(quantity, HoldsOf(read, Blocked))).Some?
      ensures ok ==> rows == ExecuteAll(old(rows), FreeBlocked, Release(quantity, HoldsOf(read, Blocked))).value
      ensures forall shelf :: OnShelf(rows, shelf) == OnShelf(old(rows), shelf)
    {
      var parts := AllocateRelease(quantity, HoldsOf(read, Blocked));
      ok := UpdateAll(FreeBlocked, parts);
    }

    /** Brings the holds of the named rows down to what the count left on them. */
    method TrimHoldsToStock(ids: set<string>) returns (trimmed: seq<TrimReport>)
      requires Valid()
      modifies this`rows
      ensures rows == TrimAll(old(rows), ids)
      ensures trimmed == TrimReports(old(rows), ids)
      ensures forall shelf :: OnShelf(rows, shelf) == OnShelf(old(rows), shelf)
    {
      hide OnShelf;
      TrimAllLength(rows, ids);
      var found := rows;
      trimmed := [];
      NothingNamed(found, ids);
      var i := 0;
      while i < |found|
        invariant i <= |found|
        invariant rows == TrimAll(found, Named(found[..i], ids))
        invariant trimmed + TrimReports(found[i..], ids) == TrimReports(found, ids)
      {
        var report := TrimRow(found, ids, i);
        trimmed := trimmed + report;
        i := i + 1;
      }
      AllTrimmed(found, ids, i);
    }

    /** One turn of the loop: a named row loses its excess holds, and is reported if there were any. */
    method TrimRow(found: seq<Row>, ids: set<string>, i: nat) returns (report: seq<TrimReport>)
      requires Distinct(found, RowId) && i < |found|
      requires rows == TrimAll(found, Named(found[..i], ids))
      modifies this`rows
      ensures rows == TrimAll(found, Named(found[..i + 1], ids))
      ensures report + TrimReports(found[i + 1..], ids) == TrimReports(found[i..], ids)
    {
      hide TrimAll, TrimReports, Named, TrimHolds, TrimmedRow, Distinct, Put, Lookup;
      OneMoreNamed(found, ids, i);
      report := [];
      var row := found[i];
      if row.id in ids {
        TrimOneMore(found, Named(found[..i], ids), row);
        var trim := TrimHolds(row.quantity, Holds(row.reserved, row.blocked));
        if IsEmptyTrim(trim) {
          NothingTrimmed(rows, row);
        } else {
          WriteTrim(row, trim);
          report := [TrimReport(row.id, row.productId, row.binLocation, trim.reserved, trim.blocked)];
        }
      }
    }

    /** The two updates of one row: quarantine first, then the reservation. */
    method WriteTrim(row: Row, trim: Holds)
      requires Lookup(rows, row.id) == Some(row) && trim == TrimHolds(row.quantity, Holds(row.reserved, row.blocked))
      modifies this`rows
      ensures rows == Put(old(rows), TrimmedRow(row))
    {
      hide TrimHolds, Put, Lookup;
      PutSame(rows, row);
      if trim.blocked > 0.0 {
        var first := row.(blocked := Max(row.blocked - trim.blocked, 0.0));
        PutLookup(rows, first, row.id);
        PutTwice(rows, first, TrimmedRow(row));
        var _ := Update(FreeBlocked, row.id, trim.blocked);
      }
      if trim.reserved > 0.0 {
        var _ := Update(Unreserve, row.id, trim.reserved);
      }
    }

    /** The first goods on a shelf: a new row and its movement, both on that shelf.
        The unique index refuses a second row for the same product and shelf. */
    method CreateStockWithMovement(id: string, productId: string, locationId: string, binLocation: string,
                                   quantity: real, reason: Reason)
      returns (ok: bool)
      requires Valid() && forall r :: r in rows ==> r.id != id
      modifies this
      ensures Valid()
      ensures ok <==> forall r :: r in old(rows) ==>
        !(r.productId == productId && r.locationId == locationId && r.binLocation == binLocation)
      ensures ok ==>
        var row := Row(id, productId, locationId, binLocation, quantity, 0.0, 0.0);
        && rows == old(rows) + [row]
        && ledger == old(ledger) + [Movement(productId, locationId, binLocation, quantity, reason)]
      ensures !ok ==> rows == old(rows) && ledger == old(ledger)
      ensures old(CacheIsLedger(rows, ledger)) ==> CacheIsLedger(rows, ledger)
      ensures old(Distinct(rows, ShelfOf)) ==> Distinct(rows, ShelfOf)
    {
      if exists r ::
        r in rows && r.productId == productId && r.locationId == locationId && r.binLocation == binLocation {
        return false;
      }
      var row := Row(id, productId, locationId, binLocation, quantity, 0.0, 0.0);
      DistinctAppend(rows, row, RowId);
      rows := rows + [row];
      ledger := ledger + [MovementFor(row, quantity, reason)];
      if old(CacheIsLedger(rows, ledger)) {
        CreatedKeepsBooks(old(rows), old(ledger), row, reason);
      }
      if old(Distinct(rows, ShelfOf)) {
        DistinctAppend(old(rows), row, ShelfOf);
      }
      ok := true;
    }
  }

  lemma {:induction false} DistinctAppend<K>(rows: seq<Row>, row: Row, key: Row -> K)
    requires Distinct(rows, key) && forall r :: r in rows ==> key(r) != key(row)
    ensures Distinct(rows + [row], key)
  {
    if rows != [] {
      assert (rows + [row])[1..] == rows[1..] + [row];
      DistinctAppend(rows[1..], row, key);
    }
  }
}
