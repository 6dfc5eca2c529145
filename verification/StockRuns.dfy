/** Every interleaving of stock transactions (apps/api/src/stock.ts): each statement is one
    atomic step on a locked row, whatever the caller had read before; a transaction's writes
    and movements become visible together or not at all. */
module StockRuns {
  import opened Lists
  import opened Stock
  import Reconciliation

  /** An open transaction: the rows it has written and holds locked, and its movements. */
  datatype Tx = Tx(writes: map<Shelf, Row>, moves: seq<Movement>)

  datatype World = World(rows: map<Shelf, Row>, ledger: seq<Movement>, open: map<nat, Tx>)

  datatype Action =
    | Delta(tx: nat, shelf: Shelf, delta: real, reason: Reason)
    | ChangeHold(tx: nat, shelf: Shelf, st: Statement, q: real)
    | Create(tx: nat, shelf: Shelf, quantity: real, reason: Reason)
    | Commit(tx: nat)
    | Abort(tx: nat)

  function TxOf(w: World, tx: nat): Tx {
    if tx in w.open then w.open[tx] else Tx(map[], [])
  }

  predicate LockedByAnother(w: World, tx: nat, shelf: Shelf) {
    exists other :: other in w.open && other != tx && shelf in w.open[other].writes
  }

  /** The row as this transaction's next statement finds it. */
  function Seen(w: World, tx: nat, shelf: Shelf): Option<Row> {
    if shelf in TxOf(w, tx).writes then Some(TxOf(w, tx).writes[shelf])
    else if shelf in w.rows then Some(w.rows[shelf])
    else None
  }

  function Written(w: World, tx: nat, shelf: Shelf, row: Row, moves: seq<Movement>): World {
    var t := TxOf(w, tx);
    w.(open := w.open[tx := Tx(t.writes[shelf := row], t.moves + moves)])
  }

  /** A statement that affects no row throws, and the transaction is rolled back. */
  function RolledBack(w: World, tx: nat): World {
    w.(open := w.open - {tx})
  }

  /** Statements that move holds and never the goods. */
  predicate HoldStatement(st: Statement) {
    st in {Reserve, Unreserve, Block, Unblock, FreeBlocked}
  }

  function NewRow(shelf: Shelf, quantity: real): Row {
    Row("", shelf.productId, shelf.locationId, shelf.binLocation, quantity, 0.0, 0.0)
  }

  function Step(w: World, a: Action): World {
    match a
    case Delta(tx, shelf, delta, reason) =>
      if LockedByAnother(w, tx, shelf) then w
      else (match Seen(w, tx, shelf)
            case None => RolledBack(w, tx)
            case Some(row) =>
              match Apply(DeltaStatement(delta, reason), row, Magnitude(delta))
              case None => RolledBack(w, tx)
              case Some(changed) =>
                Written(w, tx, shelf, changed, [MovementFor(row, delta, reason)]))
    case ChangeHold(tx, shelf, st, q) =>
      if LockedByAnother(w, tx, shelf) || !HoldStatement(st) || q < 0.0 then w
      else (match Seen(w, tx, shelf)
            case None => RolledBack(w, tx)
            case Some(row) =>
              match Apply(st, row, q)
              case None => RolledBack(w, tx)
              case Some(changed) => Written(w, tx, shelf, changed, []))
    case Create(tx, shelf, quantity, reason) =>
      if LockedByAnother(w, tx, shelf) || quantity < 0.0 then w
      else if Seen(w, tx, shelf).Some? then RolledBack(w, tx)
      else
        var row := NewRow(shelf, quantity);
        Written(w, tx, shelf, row, [MovementFor(row, quantity, reason)])
    case Commit(tx) =>
      var t := TxOf(w, tx);
      World(w.rows + t.writes, w.ledger + t.moves, w.open - {tx})
    case Abort(tx) => RolledBack(w, tx)
  }

  function Run(w: World, actions: seq<Action>): World
    decreases |actions|
  {
    if actions == [] then w else Run(Step(w, actions[0]), actions[1..])
  }

  /** A run is its steps, one after another. */
  lemma {:induction false} RunIsItsSteps(w: World, actions: seq<Action>, action: Action)
    ensures Run(w, []) == w && Run(w, actions + [action]) == Step(Run(w, actions), action)
    decreases |actions|
  {
    hide Step;
    if actions == [] {
      assert [] + [action] == [action] && [action][1..] == [];
    } else {
      assert (actions + [action])[0] == actions[0] && (actions + [action])[1..] == actions[1..] + [action];
      RunIsItsSteps(Step(w, actions[0]), actions[1..], action);
    }
  }

  // ------------------------------------------------------------- invariant

  /** The committed quantity of a shelf; a row that was never created counts as zero. */
  function Committed(w: World, shelf: Shelf): real {
    if shelf in w.rows then w.rows[shelf].quantity else 0.0
  }

  /** A row lies on the shelf it is kept under, and holds back nothing negative. */
  predicate Sound(row: Row, shelf: Shelf) {
    ShelfOf(row) == shelf && row.reserved >= 0.0
  }

  /** The committed cache is the committed ledger, and never below zero. */
  ghost predicate BooksAgree(w: World) {
    && (forall shelf :: Committed(w, shelf) == LedgerSum(w.ledger, shelf) >= 0.0)
    && (forall shelf :: shelf in w.rows ==> Sound(w.rows[shelf], shelf))
  }

  /** An open transaction's rows are the committed figure plus its own movements, never below zero. */
  ghost predicate TxAgrees(w: World, t: Tx) {
    && (forall shelf :: shelf in t.writes ==>
          && t.writes[shelf].quantity == Committed(w, shelf) + LedgerSum(t.moves, shelf) >= 0.0
          && Sound(t.writes[shelf], shelf))
    && (forall shelf :: shelf !in t.writes ==> LedgerSum(t.moves, shelf) == 0.0)
  }

  ghost predicate LocksExclusive(w: World) {
    forall t, u, shelf :: t in w.open && u in w.open && t != u && shelf in w.open[t].writes
      ==> shelf !in w.open[u].writes
  }

  ghost predicate Inv(w: World) {
    && BooksAgree(w) && LocksExclusive(w)
    && (forall t :: t in w.open ==> TxAgrees(w, w.open[t]))
  }

  lemma LedgerSumConcat(a: seq<Movement>, b: seq<Movement>, shelf: Shelf)
    ensures LedgerSum(a + b, shelf) == LedgerSum(a, shelf) + LedgerSum(b, shelf)
  {
    SumByConcat(a, b, MovedOn(shelf));
  }

  /** A row written together with its movements still agrees with the committed figure. */
  lemma WriteAgrees(w: World, t: Tx, shelf: Shelf, row: Row, moves: seq<Movement>)
    requires TxAgrees(w, t) && Sound(row, shelf) && row.quantity >= 0.0
    requires forall other :: other != shelf ==> LedgerSum(moves, other) == 0.0
    requires row.quantity ==
      (if shelf in t.writes then t.writes[shelf].quantity else Committed(w, shelf)) + LedgerSum(moves, shelf)
    ensures TxAgrees(w, Tx(t.writes[shelf := row], t.moves + moves))
  {
    hide LedgerSum, Committed;
    var t' := Tx(t.writes[shelf := row], t.moves + moves);
    LedgerSumConcat(t.moves, moves, shelf);
    forall s | s != shelf
      ensures LedgerSum(t'.moves, s) == LedgerSum(t.moves, s)
      ensures s in t'.writes <==> s in t.writes
      ensures s in t'.writes ==> t'.writes[s] == t.writes[s]
    {
      LedgerSumConcat(t.moves, moves, s);
    }
    assert shelf !in t.writes ==> LedgerSum(t.moves, shelf) == 0.0;
  }

  lemma WriteKeepsLocks(w: World, tx: nat, shelf: Shelf, row: Row, moves: seq<Movement>)
    requires LocksExclusive(w) && !LockedByAnother(w, tx, shelf)
    ensures LocksExclusive(Written(w, tx, shelf, row, moves))
  {
  }

  /** Writing one row whose change is exactly its movements keeps the invariant. */
  lemma WriteKeepsInv(w: World, tx: nat, shelf: Shelf, row: Row, moves: seq<Movement>)
    requires Inv(w) && !LockedByAnother(w, tx, shelf)
    requires forall other :: other != shelf ==> LedgerSum(moves, other) == 0.0
    requires row.quantity ==
      (if Seen(w, tx, shelf).Some? then Seen(w, tx, shelf).value.quantity else 0.0) + LedgerSum(moves, shelf)
    requires row.quantity >= 0.0 && Sound(row, shelf)
    ensures Inv(Written(w, tx, shelf, row, moves))
  {
    var w' := Written(w, tx, shelf, row, moves);
    assert TxAgrees(w, TxOf(w, tx)) by {
      if tx !in w.open {
        assert TxOf(w, tx) == Tx(map[], []);
      }
    }
    WriteKeepsLocks(w, tx, shelf, row, moves);
    WriteAgrees(w, TxOf(w, tx), shelf, row, moves);
    SameBooks(w, w');
  }

  /** Nothing committed: both books and every other transaction read as before. */
  lemma SameBooks(w: World, w': World)
    requires w'.rows == w.rows && w'.ledger == w.ledger
    ensures BooksAgree(w) ==> BooksAgree(w')
    ensures forall t :: TxAgrees(w, t) ==> TxAgrees(w', t)
  {
    assert forall shelf :: Committed(w', shelf) == Committed(w, shelf);
  }

  lemma RollbackKeepsInv(w: World, tx: nat)
    requires Inv(w)
    ensures Inv(RolledBack(w, tx))
  {
    SameBooks(w, RolledBack(w, tx));
  }

  lemma CommitKeepsInv(w: World, tx: nat)
    requires Inv(w)
    ensures Inv(Step(w, Commit(tx)))
  {
    var w' := Step(w, Commit(tx));
    CommittedBooks(w, tx);
    forall u | u in w'.open
      ensures TxAgrees(w', w'.open[u])
    {
      OthersAgree(w, tx, u);
    }
  }

  lemma CommittedBooks(w: World, tx: nat)
    requires Inv(w)
    ensures BooksAgree(Step(w, Commit(tx)))
  {
    var w', t := Step(w, Commit(tx)), TxOf(w, tx);
    assert TxAgrees(w, t);
    forall shelf
      ensures Committed(w', shelf) == LedgerSum(w'.ledger, shelf) >= 0.0
    {
      LedgerSumConcat(w.ledger, t.moves, shelf);
    }
  }

  /** What another transaction holds locked was not committed under it. */
  lemma OthersAgree(w: World, tx: nat, u: nat)
    requires Inv(w) && u in w.open && u != tx
    ensures TxAgrees(Step(w, Commit(tx)), w.open[u])
  {
    hide LedgerSum;
    assert TxAgrees(w, w.open[u]);
  }

  lemma SeenIsSound(w: World, tx: nat, shelf: Shelf)
    requires Inv(w) && Seen(w, tx, shelf).Some?
    ensures Seen(w, tx, shelf).value.quantity >= 0.0 && Sound(Seen(w, tx, shelf).value, shelf)
  {
    assert TxAgrees(w, TxOf(w, tx));
    assert Committed(w, shelf) >= 0.0;
  }

  lemma DeltaKeepsInv(w: World, tx: nat, shelf: Shelf, delta: real, reason: Reason)
    requires Inv(w)
    ensures Inv(Step(w, Delta(tx, shelf, delta, reason)))
  {
    hide Inv, Written, RolledBack, Seen, LockedByAnother, LedgerSum;
    RollbackKeepsInv(w, tx);
    if !LockedByAnother(w, tx, shelf) && Seen(w, tx, shelf).Some? {
      var row := Seen(w, tx, shelf).value;
      SeenIsSound(w, tx, shelf);
      match Apply(DeltaStatement(delta, reason), row, Magnitude(delta)) {
        case None =>
        case Some(changed) =>
          OneMovement(row, delta, reason);
          WriteKeepsInv(w, tx, shelf, changed, [MovementFor(row, delta, reason)]);
      }
    }
  }

  /** A row's movement counts on its own shelf and on no other. */
  lemma OneMovement(row: Row, delta: real, reason: Reason)
    ensures
      var m := MovementFor(row, delta, reason);
      && LedgerSum([m], ShelfOf(row)) == delta
      && forall other :: other != ShelfOf(row) ==> LedgerSum([m], other) == 0.0
  {
    var m := MovementFor(row, delta, reason);
    forall shelf
      ensures LedgerSum([m], shelf) == MovedOn(shelf)(m)
    {
      OneMovementMore([], m, shelf);
      assert [] + [m] == [m];
    }
  }

  lemma HoldKeepsInv(w: World, tx: nat, shelf: Shelf, st: Statement, q: real)
    requires Inv(w)
    ensures Inv(Step(w, ChangeHold(tx, shelf, st, q)))
  {
    hide Inv, Written, RolledBack, Seen, LockedByAnother;
    RollbackKeepsInv(w, tx);
    if !LockedByAnother(w, tx, shelf) && HoldStatement(st) && q >= 0.0 && Seen(w, tx, shelf).Some? {
      SeenIsSound(w, tx, shelf);
      if Apply(st, Seen(w, tx, shelf).value, q).Some? {
        WriteKeepsInv(w, tx, shelf, Apply(st, Seen(w, tx, shelf).value, q).value, []);
      }
    }
  }

  lemma CreateKeepsInv(w: World, tx: nat, shelf: Shelf, quantity: real, reason: Reason)
    requires Inv(w)
    ensures Inv(Step(w, Create(tx, shelf, quantity, reason)))
  {
    hide Inv, Written, RolledBack, Seen, LockedByAnother, LedgerSum;
    RollbackKeepsInv(w, tx);
    if !LockedByAnother(w, tx, shelf) && quantity >= 0.0 && Seen(w, tx, shelf).None? {
      var row := NewRow(shelf, quantity);
      OneMovement(row, quantity, reason);
      WriteKeepsInv(w, tx, shelf, row, [MovementFor(row, quantity, reason)]);
    }
  }

  lemma StepKeepsInv(w: World, a: Action)
    requires Inv(w)
    ensures Inv(Step(w, a))
  {
    hide Inv;
    match a
    case Delta(tx, shelf, delta, reason) => DeltaKeepsInv(w, tx, shelf, delta, reason);
    case ChangeHold(tx, shelf, st, q) => HoldKeepsInv(w, tx, shelf, st, q);
    case Create(tx, shelf, quantity, reason) => CreateKeepsInv(w, tx, shelf, quantity, reason);
    case Commit(tx) => CommitKeepsInv(w, tx);
    case Abort(tx) => RollbackKeepsInv(w, tx);
  }

  lemma {:induction false} RunKeepsInv(w: World, actions: seq<Action>)
    requires Inv(w)
    ensures Inv(Run(w, actions))
    decreases |actions|
  {
    if actions != [] {
      StepKeepsInv(w, actions[0]);
      RunKeepsInv(Step(w, actions[0]), actions[1..]);
    }
  }

  // --------------------------------------------- what a transaction leaves

  /** Somebody else holds the lock of this shelf. */
  ghost predicate Busy(w: World, tx: nat, shelf: Shelf) {
    exists other :: other in w.open && other != tx && shelf in w.open[other].writes
  }

  /** The writes and movements a transaction has so far. */
  ghost function WritesOf(w: World, tx: nat): map<Shelf, Row> {
    if tx in w.open then w.open[tx].writes else map[]
  }

  ghost function MovesOf(w: World, tx: nat): seq<Movement> {
    if tx in w.open then w.open[tx].moves else []
  }

  /** One more row written, and these movements; nothing committed. */
  ghost predicate WroteOnly(w: World, next: World, tx: nat, shelf: Shelf, row: Row, moves: seq<Movement>) {
    && next.rows == w.rows && next.ledger == w.ledger
    && next.open == w.open[tx := Tx(WritesOf(w, tx)[shelf := row], MovesOf(w, tx) + moves)]
  }

  ghost predicate LeftNothing(w: World, next: World, tx: nat) {
    next.rows == w.rows && next.ledger == w.ledger && next.open == w.open - {tx}
  }

  /** What a row must hold for goods to leave it: what is promised may leave only for the reasons that do
      not sell, send on, make, serve or return goods. */
  predicate Covers(row: Row, delta: real, reason: Reason) {
    || delta >= 0.0
    || (if reason in {Sale, OrderFulfill, TransferOut, ProductionOut, TableOrder, SupplierReturn}
        then row.quantity - row.reserved >= -delta else row.quantity >= -delta)
  }

  /** A statement waits for a shelf that another transaction has locked. Otherwise it finds the row as its own
      transaction left it, or as it was committed last: a delta moves it and one movement says so, with the
      row's own address; where there is no row, or the row does not cover the removal, the transaction is
      rolled back. */
  lemma DeltaMeans(w: World, tx: nat, shelf: Shelf, delta: real, reason: Reason)
    ensures
      var next := Step(w, Delta(tx, shelf, delta, reason));
      if Busy(w, tx, shelf) then next == w
      else if shelf !in WritesOf(w, tx) && shelf !in w.rows then LeftNothing(w, next, tx)
      else
        var row := if shelf in WritesOf(w, tx) then WritesOf(w, tx)[shelf] else w.rows[shelf];
        if Covers(row, delta, reason)
        then
          WroteOnly(w, next, tx, shelf, row.(quantity := row.quantity + delta),
                    [Movement(row.productId, row.locationId, row.binLocation, delta, reason)])
        else LeftNothing(w, next, tx)
  {
  }

  /** So does a statement that moves a hold, and writes no movement. */
  lemma HoldMeans(w: World, tx: nat, shelf: Shelf, st: Statement, q: real)
    requires st in {Reserve, Unreserve, Block, Unblock, FreeBlocked} && q >= 0.0
    ensures
      var next := Step(w, ChangeHold(tx, shelf, st, q));
      if Busy(w, tx, shelf) then next == w
      else if shelf !in WritesOf(w, tx) && shelf !in w.rows then LeftNothing(w, next, tx)
      else
        var row := if shelf in WritesOf(w, tx) then WritesOf(w, tx)[shelf] else w.rows[shelf];
        if && (st == Reserve ==> row.quantity - row.reserved >= q)
           && (st == Block ==> row.quantity - row.reserved - row.blocked >= q)
           && (st == Unblock ==> row.blocked >= q)
        then
          WroteOnly(w, next, tx, shelf,
                    row.(reserved := ReservedAfter(row, st, q), blocked := BlockedAfter(row, st, q)), [])
        else LeftNothing(w, next, tx)
  {
  }

  /** First goods on a shelf: a row with nothing held back and its movement, unless the shelf has a row. */
  lemma CreateMeans(w: World, tx: nat, shelf: Shelf, quantity: real, reason: Reason)
    requires quantity >= 0.0
    ensures
      var next := Step(w, Create(tx, shelf, quantity, reason));
      if Busy(w, tx, shelf) then next == w
      else if shelf in WritesOf(w, tx) || shelf in w.rows then LeftNothing(w, next, tx)
      else
        WroteOnly(w, next, tx, shelf,
                  Row("", shelf.productId, shelf.locationId, shelf.binLocation, quantity, 0.0, 0.0),
                  [Movement(shelf.productId, shelf.locationId, shelf.binLocation, quantity, reason)])
  {
  }

  /** A commit puts a transaction's rows and movements on the books, all of them; a rollback none. */
  lemma CommitMeans(w: World, tx: nat)
    requires tx in w.open
    ensures
      var next := Step(w, Commit(tx));
      && next.ledger == w.ledger + MovesOf(w, tx) && next.open == w.open - {tx}
      && (forall shelf :: shelf in next.rows <==> shelf in w.rows || shelf in WritesOf(w, tx))
      && (forall shelf :: shelf in next.rows ==>
            next.rows[shelf] == if shelf in WritesOf(w, tx) then WritesOf(w, tx)[shelf] else w.rows[shelf])
    ensures LeftNothing(w, Step(w, Abort(tx)), tx)
  {
  }

  // ------------------------------------------------- promises on stale reads

  /** Only goods that nobody was promised leave: write-offs, count corrections and the like may take more. */
  predicate LeavesPromisesAlone(a: Action) {
    a.Delta? && a.delta < 0.0 ==>
      a.reason in {Sale, OrderFulfill, TransferOut, ProductionOut, TableOrder, SupplierReturn}
  }

  predicate PromiseFits(row: Row) {
    0.0 <= row.reserved <= row.quantity
  }

  /** No row, committed or not, has more promised than lies on it. */
  ghost predicate PromisesFit(w: World) {
    && (forall shelf :: shelf in w.rows ==> PromiseFits(w.rows[shelf]))
    && (forall t, shelf :: t in w.open && shelf in w.open[t].writes ==> PromiseFits(w.open[t].writes[shelf]))
  }

  lemma WrittenKeepsPromises(w: World, tx: nat, shelf: Shelf, row: Row, moves: seq<Movement>)
    requires PromisesFit(w) && PromiseFits(row)
    ensures PromisesFit(Written(w, tx, shelf, row, moves))
  {
    hide PromiseFits;
  }

  lemma CommitKeepsPromises(w: World, tx: nat)
    requires PromisesFit(w)
    ensures PromisesFit(Step(w, Commit(tx))) && PromisesFit(RolledBack(w, tx))
  {
    hide PromiseFits;
  }

  lemma SeenFits(w: World, tx: nat, shelf: Shelf)
    requires PromisesFit(w) && Seen(w, tx, shelf).Some?
    ensures PromiseFits(Seen(w, tx, shelf).value)
  {
    hide PromiseFits;
  }

  lemma StepKeepsPromises(w: World, a: Action)
    requires PromisesFit(w) && LeavesPromisesAlone(a)
    ensures PromisesFit(Step(w, a))
  {
    hide PromisesFit, Written, RolledBack, Seen, LockedByAnother;
    CommitKeepsPromises(w, a.tx);
    match a
    case Delta(tx, shelf, delta, reason) =>
      if Seen(w, tx, shelf).Some? {
        SeenFits(w, tx, shelf);
        var changed := Apply(DeltaStatement(delta, reason), Seen(w, tx, shelf).value, Magnitude(delta));
        if changed.Some? {
          WrittenKeepsPromises(w, tx, shelf, changed.value, [MovementFor(Seen(w, tx, shelf).value, delta, reason)]);
        }
      }
    case ChangeHold(tx, shelf, st, q) =>
      if HoldStatement(st) && q >= 0.0 && Seen(w, tx, shelf).Some? {
        SeenFits(w, tx, shelf);
        var changed := Apply(st, Seen(w, tx, shelf).value, q);
        if changed.Some? {
          PromiseStillFits(Seen(w, tx, shelf).value, st, q);
          WrittenKeepsPromises(w, tx, shelf, changed.value, []);
        }
      }
    case Create(tx, shelf, quantity, reason) =>
      if quantity >= 0.0 {
        var row := NewRow(shelf, quantity);
        WrittenKeepsPromises(w, tx, shelf, row, [MovementFor(row, quantity, reason)]);
      }
    case Commit(tx) =>
    case Abort(tx) =>
  }

  lemma PromiseStillFits(row: Row, st: Statement, q: real)
    requires PromiseFits(row) && HoldStatement(st) && q >= 0.0 && Apply(st, row, q).Some?
    ensures PromiseFits(Apply(st, row, q).value)
  {
  }

  lemma {:induction false} RunKeepsPromises(w: World, actions: seq<Action>)
    requires PromisesFit(w) && forall a :: a in actions ==> LeavesPromisesAlone(a)
    ensures PromisesFit(Run(w, actions))
    decreases |actions|
  {
    hide PromisesFit, Step, LeavesPromisesAlone;
    if actions != [] {
      assert actions[0] in actions && forall a :: a in actions[1..] ==> a in actions;
      StepKeepsPromises(w, actions[0]);
      RunKeepsPromises(Step(w, actions[0]), actions[1..]);
    }
  }

  /** Holds taken on stale reads never promise more than lies on a shelf, however transactions interleave,
      until goods leave for a reason that may take promised ones. */
  lemma PromisesStayOnTheShelf(actions: seq<Action>)
    requires forall a :: a in actions ==> LeavesPromisesAlone(a)
    ensures
      var w := Run(World(map[], [], map[]), actions);
      && (forall shelf :: shelf in w.rows ==> 0.0 <= w.rows[shelf].reserved <= w.rows[shelf].quantity)
      && (forall t, shelf :: t in w.open && shelf in w.open[t].writes ==>
            0.0 <= w.open[t].writes[shelf].reserved <= w.open[t].writes[shelf].quantity)
  {
    hide Run;
    RunKeepsPromises(World(map[], [], map[]), actions);
  }

  /** These are exactly the reasons whose removals keep every promise on every row. */
  lemma ReasonKeepsPromisesIff(reason: Reason)
    ensures
      (forall row, q ::
         q > 0.0 && PromiseFits(row) && Apply(RemovalStatement(reason), row, q).Some? ==>
           PromiseFits(Apply(RemovalStatement(reason), row, q).value))
      <==> reason in {Sale, OrderFulfill, TransferOut, ProductionOut, TableOrder, SupplierReturn}
  {
    if reason !in {Sale, OrderFulfill, TransferOut, ProductionOut, TableOrder, SupplierReturn} {
      var row := Row("", "", "", "", 1.0, 1.0, 0.0);
      assert PromiseFits(row) && Apply(RemovalStatement(reason), row, 1.0).Some?;
      assert !PromiseFits(Apply(RemovalStatement(reason), row, 1.0).value);
    }
  }

  // --------------------------------------------------------- reconciliation

  /** The ledger summed per product and shelf of one location. */
  ghost predicate ListsLedger(totals: seq<Reconciliation.ShelfFigure>, w: World, locationId: string) {
    forall p, b :: Reconciliation.FigureFor(totals, p, b) == LedgerSum(w.ledger, Shelf(p, locationId, b))
  }

  /** The cached quantities of one location. */
  ghost predicate ListsCache(cached: seq<Reconciliation.ShelfFigure>, w: World, locationId: string) {
    forall p, b :: Reconciliation.FigureFor(cached, p, b) == Committed(w, Shelf(p, locationId, b))
  }

  /** However transactions interleave, fail and race on stale reads, starting from an empty
      shop: no shelf goes below zero, not even inside an open transaction, and the
      reconciliation of any location finds nothing to report. */
  lemma ReconciliationStaysEmpty(actions: seq<Action>, locationId: string,
                                 totals: seq<Reconciliation.ShelfFigure>, cached: seq<Reconciliation.ShelfFigure>)
    requires Reconciliation.CodeLikeBins(totals) && Reconciliation.CodeLikeBins(cached)
    requires ListsLedger(totals, Run(World(map[], [], map[]), actions), locationId)
    requires ListsCache(cached, Run(World(map[], [], map[]), actions), locationId)
    ensures Reconciliation.Findings(totals, cached) == []
    ensures
      var w := Run(World(map[], [], map[]), actions);
      && (forall shelf :: shelf in w.rows ==> w.rows[shelf].quantity >= 0.0)
      && (forall t, shelf :: t in w.open && shelf in w.open[t].writes ==> w.open[t].writes[shelf].quantity >= 0.0)
  {
    var w := Run(World(map[], [], map[]), actions);
    RunKeepsInv(World(map[], [], map[]), actions);
    forall p, b
      ensures Reconciliation.FigureFor(totals, p, b) == Reconciliation.FigureFor(cached, p, b)
    {
      assert Committed(w, Shelf(p, locationId, b)) == LedgerSum(w.ledger, Shelf(p, locationId, b));
    }
    Reconciliation.EmptyReportMeansAgreement(totals, cached);
    forall shelf | shelf in w.rows
      ensures w.rows[shelf].quantity >= 0.0
    {
      assert Committed(w, shelf) >= 0.0;
    }
    forall t, shelf | t in w.open && shelf in w.open[t].writes
      ensures w.open[t].writes[shelf].quantity >= 0.0
    {
      assert TxAgrees(w, w.open[t]);
    }
  }
}
