/** A promise made to a customer can always be kept: whole runs of reserving,
    shipping, cancelling, selling, receiving and quarantining one product at one
    location, each operation on rows read inside its own serialised transaction. */
module Promises {
  import opened Lists
  import opened Greedy
  import opened Bins
  import opened Stock

  datatype Promise = Promise(order: string, quantity: real)

  const Order: Promise -> string := (p: Promise) => p.order

  const Promised: Promise -> real := (p: Promise) => p.quantity

  /** The product's rows and the orders still open against them. */
  datatype State = State(rows: seq<Row>, open: seq<Promise>)

  datatype Op =
    | PlaceOrder(order: string, quantity: real)
    | CancelOrder(order: string)
    | ShipOrder(order: string, picked: real)
    | Sell(quantity: real, reason: Reason)
    | ReceiveAt(id: string, quantity: real)
    | BlockAt(id: string, quantity: real)
    | UnblockAt(id: string, quantity: real)

  // ----------------------------------------------------------- operations

  function ReserveRows(rows: seq<Row>, quantity: real): Option<seq<Row>> {
    match Allocation(quantity, BinsOf(rows, true))
    case Insufficient(_) => None
    case Allocated(parts) => ExecuteAll(rows, Reserve, parts)
  }

  function ReleaseRows(rows: seq<Row>, quantity: real): Option<seq<Row>> {
    ExecuteAll(rows, Unreserve, Release(quantity, HoldsOf(rows, Reserved)))
  }

  /** A removal that respects reservations, decided on fresh rows. */
  function DeductRows(rows: seq<Row>, quantity: real): Option<seq<Row>> {
    match Allocation(quantity, BinsOf(rows, true))
    case Insufficient(_) => None
    case Allocated(parts) => ExecuteAll(rows, TakeSellable, parts)
  }

  /** Shipping: the whole order's hold comes off, the rows are read again, and the
      picked units leave. */
  function ShipRows(rows: seq<Row>, ordered: real, picked: real): Option<seq<Row>> {
    match ReleaseRows(rows, ordered)
    case None => None
    case Some(freed) => DeductRows(freed, picked)
  }

  function Find(open: seq<Promise>, order: string): Option<Promise> {
    if open == [] then None else if open[0].order == order then Some(open[0]) else Find(open[1..], order)
  }

  function Close(open: seq<Promise>, order: string): seq<Promise> {
    if open == [] then [] else if open[0].order == order then open[1..] else [open[0]] + Close(open[1..], order)
  }

  /** A failed transaction changes nothing. */
  function Committed(s: State, rows: Option<seq<Row>>, open: seq<Promise>): State {
    match rows
    case None => s
    case Some(next) => State(next, open)
  }

  function Step(s: State, op: Op): State {
    match op
    case PlaceOrder(order, quantity) =>
      if quantity <= 0.0 || Find(s.open, order).Some? then s
      else Committed(s, ReserveRows(s.rows, quantity), s.open + [Promise(order, quantity)])
    case CancelOrder(order) =>
      (match Find(s.open, order)
       case None => s
       case Some(p) => Committed(s, ReleaseRows(s.rows, p.quantity), Close(s.open, order)))
    case ShipOrder(order, picked) =>
      (match Find(s.open, order)
       case None => s
       case Some(p) =>
         if !(0.0 < picked <= p.quantity) then s
         else Committed(s, ShipRows(s.rows, p.quantity, picked), Close(s.open, order)))
    case Sell(quantity, reason) =>
      if quantity <= 0.0 || !RespectsReservations(reason) then s else Committed(s, DeductRows(s.rows, quantity), s.open)
    case ReceiveAt(id, quantity) =>
      if quantity < 0.0 then s else Committed(s, Execute(s.rows, Add, id, quantity), s.open)
    case BlockAt(id, quantity) =>
      if quantity <= 0.0 then s else Committed(s, Execute(s.rows, Block, id, quantity), s.open)
    case UnblockAt(id, quantity) =>
      if quantity <= 0.0 then s else Committed(s, Execute(s.rows, Unblock, id, quantity), s.open)
  }

  function Run(s: State, ops: seq<Op>): State
    decreases |ops|
  {
    if ops == [] then s else Run(Step(s, ops[0]), ops[1..])
  }

  /** A run is its steps, one after another. */
  lemma {:induction false} RunIsItsSteps(s: State, ops: seq<Op>, op: Op)
    ensures Run(s, []) == s && Run(s, ops + [op]) == Step(Run(s, ops), op)
    decreases |ops|
  {
    hide Step;
    if ops == [] {
      assert [] + [op] == [op] && [op][1..] == [];
    } else {
      assert (ops + [op])[0] == ops[0] && (ops + [op])[1..] == ops[1..] + [op];
      RunIsItsSteps(Step(s, ops[0]), ops[1..], op);
    }
  }

  // ------------------------------------------------------------- invariant

  /** What is held back on a row fits inside what lies there. */
  predicate Fits(row: Row) {
    0.0 <= row.reserved && 0.0 <= row.blocked && row.reserved + row.blocked <= row.quantity
  }

  ghost predicate AllFit(rows: seq<Row>) {
    forall r :: r in rows ==> Fits(r)
  }

  ghost predicate Inv(s: State) {
    && Distinct(s.rows, RowId) && AllFit(s.rows)
    && Distinct(s.open, Order) && (forall p :: p in s.open ==> p.quantity > 0.0)
    && SumBy(s.rows, Reserved) == SumBy(s.open, Promised)
  }

  // ----------------------------------------------- what the allocators hand out

  lemma {:induction false} FreeIsRoom(rows: seq<Row>)
    requires AllFit(rows)
    ensures SumBy(BinsOf(rows, true), Room(Available)) == TotalAvailable(rows)
  {
    if rows != [] {
      assert Fits(rows[0]);
      assert BinsOf(rows, true)[1..] == BinsOf(rows[1..], true);
      FreeIsRoom(rows[1..]);
    }
  }

  lemma {:induction false} HeldIsReserved(rows: seq<Row>)
    requires AllFit(rows)
    ensures SumBy(HoldsOf(rows, Reserved), Room(Held)) == SumBy(rows, Reserved)
  {
    if rows != [] {
      assert Fits(rows[0]);
      assert HoldsOf(rows, Reserved)[1..] == HoldsOf(rows[1..], Reserved);
      HeldIsReserved(rows[1..]);
    }
  }

  /** On fresh rows every part of an allocation is still free when it is written. */
  lemma FreshAllocationApplies(rows: seq<Row>, quantity: real) returns (parts: seq<Part>)
    requires Distinct(rows, RowId) && AllFit(rows)
    requires 0.0 < quantity <= TotalAvailable(rows)
    ensures Allocation(quantity, BinsOf(rows, true)) == Allocated(parts)
    ensures Distinct(parts, Id) && SumBy(parts, Quantity) == quantity
    ensures forall p :: p in parts ==>
      && Lookup(rows, p.id).Some? && Lookup(rows, p.id).value in rows
      && 0.0 < p.quantity <= AvailableQuantity(Lookup(rows, p.id).value)
    ensures EachApplies(rows, TakeSellable, parts) && EachApplies(rows, Reserve, parts)
  {
    hide Distinct, Allocation, SumBy, Lookup, BinsOf, Taken;
    var bins := BinsOf(rows, true);
    BinsOfFacts(rows, true);
    FreeIsRoom(rows);
    AllocationIsExact(quantity, bins);
    parts := Allocation(quantity, bins).allocations;
    forall p | p in parts
      ensures Lookup(rows, p.id).Some? && Lookup(rows, p.id).value in rows
      ensures 0.0 < p.quantity <= AvailableQuantity(Lookup(rows, p.id).value)
      ensures Fits(Lookup(rows, p.id).value)
    {
      var b :| b in bins && b.stockId == p.id;
      TakenIsThePart(parts, p);
      LookupMember(rows, p.id);
    }
  }

  lemma ReleaseApplies(rows: seq<Row>, quantity: real) returns (parts: seq<Part>)
    requires Distinct(rows, RowId) && AllFit(rows) && quantity > 0.0
    ensures Release(quantity, HoldsOf(rows, Reserved)) == parts
    ensures Distinct(parts, Id) && SumBy(parts, Quantity) == Min(quantity, SumBy(rows, Reserved))
    ensures forall p :: p in parts ==>
      && Lookup(rows, p.id).Some? && Lookup(rows, p.id).value in rows
      && 0.0 < p.quantity <= Lookup(rows, p.id).value.reserved
    ensures EachApplies(rows, Unreserve, parts)
  {
    hide Distinct, Release, SumBy, Lookup, HoldsOf, Taken;
    var holds := HoldsOf(rows, Reserved);
    HoldsOfFacts(rows, Reserved);
    HeldIsReserved(rows);
    ReleaseIsExact(quantity, holds);
    parts := Release(quantity, holds);
    forall p | p in parts
      ensures Lookup(rows, p.id).Some? && Lookup(rows, p.id).value in rows
      ensures 0.0 < p.quantity <= Lookup(rows, p.id).value.reserved
    {
      var h :| h in holds && h.stockId == p.id;
      TakenIsThePart(parts, p);
      LookupMember(rows, p.id);
      assert Fits(Lookup(rows, p.id).value);
    }
  }

  /** After the loop every row fits, if each changed row does. */
  lemma StillFit(rows: seq<Row>, st: Statement, parts: seq<Part>)
    requires Distinct(rows, RowId) && AllFit(rows) && Distinct(parts, Id) && EachApplies(rows, st, parts)
    requires forall p :: p in parts ==> Fits(Apply(st, Lookup(rows, p.id).value, p.quantity).value)
    ensures ExecuteAll(rows, st, parts).Some?
    ensures Distinct(ExecuteAll(rows, st, parts).value, RowId) && AllFit(ExecuteAll(rows, st, parts).value)
  {
    AllPartsApply(rows, st, parts);
    var after := ExecuteAll(rows, st, parts).value;
    forall r | r in after
      ensures Fits(r)
    {
      LookupOwn(after, r);
      if p :| p in parts && p.id == r.id {
      } else {
        LookupMember(rows, r.id);
      }
    }
  }

  const NoEffect: Part -> real := (p: Part) => 0.0

  lemma {:induction false} NoEffectSum(parts: seq<Part>)
    ensures SumBy(parts, NoEffect) == 0.0
  {
    if parts != [] {
      NoEffectSum(parts[1..]);
    }
  }

  // ------------------------------------------------------ each operation's effect

  /** Reserving goes through exactly when that much is free, and holds exactly that much. */
  lemma ReserveRowsEffect(rows: seq<Row>, quantity: real)
    requires Distinct(rows, RowId) && AllFit(rows) && quantity > 0.0
    ensures ReserveRows(rows, quantity).Some? <==> quantity <= TotalAvailable(rows)
    ensures ReserveRows(rows, quantity).Some? ==>
      var after := ReserveRows(rows, quantity).value;
      && Distinct(after, RowId) && AllFit(after)
      && SumBy(after, Reserved) == SumBy(rows, Reserved) + quantity
      && SumBy(after, OnHand) == SumBy(rows, OnHand)
  {
    if quantity <= TotalAvailable(rows) {
      var parts := FreshAllocationApplies(rows, quantity);
      assert forall p :: p in parts ==> Fits(Lookup(rows, p.id).value);
      StillFit(rows, Reserve, parts);
      ColumnMoves(rows, Reserve, parts, Reserved, Quantity);
      ColumnMoves(rows, Reserve, parts, OnHand, NoEffect);
      NoEffectSum(parts);
    } else {
      BinsOfFacts(rows, true);
      FreeIsRoom(rows);
      AllocationIsExact(quantity, BinsOf(rows, true));
    }
  }

  /** Releasing always goes through, and frees what was asked or all there is. */
  lemma ReleaseRowsEffect(rows: seq<Row>, quantity: real)
    requires Distinct(rows, RowId) && AllFit(rows) && quantity > 0.0
    ensures ReleaseRows(rows, quantity).Some?
    ensures
      var after := ReleaseRows(rows, quantity).value;
      && Distinct(after, RowId) && AllFit(after)
      && SumBy(after, Reserved) == SumBy(rows, Reserved) - Min(quantity, SumBy(rows, Reserved))
      && TotalAvailable(after) == TotalAvailable(rows) + Min(quantity, SumBy(rows, Reserved))
      && SumBy(after, OnHand) == SumBy(rows, OnHand)
  {
    var parts := ReleaseApplies(rows, quantity);
    assert forall p :: p in parts ==> Fits(Lookup(rows, p.id).value);
    StillFit(rows, Unreserve, parts);
    ColumnMoves(rows, Unreserve, parts, Reserved, Negated);
    ColumnMoves(rows, Unreserve, parts, Free, Quantity);
    ColumnMoves(rows, Unreserve, parts, OnHand, NoEffect);
    NegatedSum(parts);
    NoEffectSum(parts);
  }

  lemma {:induction false} HeldIsBlocked(rows: seq<Row>)
    requires AllFit(rows)
    ensures SumBy(HoldsOf(rows, Blocked), Room(Held)) == SumBy(rows, Blocked)
  {
    if rows != [] {
      assert Fits(rows[0]);
      assert HoldsOf(rows, Blocked)[1..] == HoldsOf(rows[1..], Blocked);
      HeldIsBlocked(rows[1..]);
    }
  }

  lemma ReleaseBlockedApplies(rows: seq<Row>, quantity: real) returns (parts: seq<Part>)
    requires Distinct(rows, RowId) && AllFit(rows) && quantity > 0.0
    ensures Release(quantity, HoldsOf(rows, Blocked)) == parts
    ensures Distinct(parts, Id) && SumBy(parts, Quantity) == Min(quantity, SumBy(rows, Blocked))
    ensures forall p :: p in parts ==>
      && Lookup(rows, p.id).Some? && Lookup(rows, p.id).value in rows
      && 0.0 < p.quantity <= Lookup(rows, p.id).value.blocked
    ensures EachApplies(rows, FreeBlocked, parts)
  {
    hide Distinct, Release, SumBy, Lookup, HoldsOf, Taken;
    var holds := HoldsOf(rows, Blocked);
    HoldsOfFacts(rows, Blocked);
    HeldIsBlocked(rows);
    ReleaseIsExact(quantity, holds);
    parts := Release(quantity, holds);
    forall p | p in parts
      ensures Lookup(rows, p.id).Some? && Lookup(rows, p.id).value in rows
      ensures 0.0 < p.quantity <= Lookup(rows, p.id).value.blocked
    {
      var h :| h in holds && h.stockId == p.id;
      TakenIsThePart(parts, p);
      LookupMember(rows, p.id);
      assert Fits(Lookup(rows, p.id).value);
    }
  }

  /** What `releaseBlockedAcrossBins` leaves when it has read the rows as they are. */
  function ReleaseBlockedRows(rows: seq<Row>, quantity: real): Option<seq<Row>> {
    ExecuteAll(rows, FreeBlocked, Release(quantity, HoldsOf(rows, Blocked)))
  }

  /** Taking goods out of quarantine always goes through, and takes out what was asked or all there is. */
  lemma ReleaseBlockedRowsEffect(rows: seq<Row>, quantity: real)
    requires Distinct(rows, RowId) && AllFit(rows) && quantity > 0.0
    ensures ReleaseBlockedRows(rows, quantity).Some?
    ensures
      var after := ReleaseBlockedRows(rows, quantity).value;
      && Distinct(after, RowId) && AllFit(after)
      && SumBy(after, Blocked) == SumBy(rows, Blocked) - Min(quantity, SumBy(rows, Blocked))
      && SumBy(after, Reserved) == SumBy(rows, Reserved)
      && SumBy(after, OnHand) == SumBy(rows, OnHand)
  {
    var parts := ReleaseBlockedApplies(rows, quantity);
    assert forall p :: p in parts ==> Fits(Lookup(rows, p.id).value);
    StillFit(rows, FreeBlocked, parts);
    ColumnMoves(rows, FreeBlocked, parts, Blocked, Negated);
    ColumnMoves(rows, FreeBlocked, parts, Reserved, NoEffect);
    ColumnMoves(rows, FreeBlocked, parts, OnHand, NoEffect);
    NegatedSum(parts);
    NoEffectSum(parts);
  }

  /** A removal that respects holds goes through exactly when that much is free. */
  lemma DeductRowsEffect(rows: seq<Row>, quantity: real)
    requires Distinct(rows, RowId) && AllFit(rows) && quantity > 0.0
    ensures DeductRows(rows, quantity).Some? <==> quantity <= TotalAvailable(rows)
    ensures DeductRows(rows, quantity).Some? ==>
      var after := DeductRows(rows, quantity).value;
      && Distinct(after, RowId) && AllFit(after)
      && SumBy(after, OnHand) == SumBy(rows, OnHand) - quantity
      && SumBy(after, Reserved) == SumBy(rows, Reserved)
  {
    if quantity <= TotalAvailable(rows) {
      var parts := FreshAllocationApplies(rows, quantity);
      assert forall p :: p in parts ==> Fits(Lookup(rows, p.id).value);
      StillFit(rows, TakeSellable, parts);
      ColumnMoves(rows, TakeSellable, parts, OnHand, Negated);
      ColumnMoves(rows, TakeSellable, parts, Reserved, NoEffect);
      NegatedSum(parts);
      NoEffectSum(parts);
    } else {
      BinsOfFacts(rows, true);
      FreeIsRoom(rows);
      AllocationIsExact(quantity, BinsOf(rows, true));
    }
  }

  lemma {:induction false} FreeNonNegative(rows: seq<Row>)
    requires AllFit(rows)
    ensures TotalAvailable(rows) >= 0.0
  {
    if rows != [] {
      assert Fits(rows[0]);
      FreeNonNegative(rows[1..]);
    }
  }

  lemma {:induction false} FindClose(open: seq<Promise>, order: string)
    requires Find(open, order).Some?
    ensures Find(open, order).value in open && Find(open, order).value.order == order
    ensures SumBy(Close(open, order), Promised) == SumBy(open, Promised) - Find(open, order).value.quantity
    ensures forall p :: p in Close(open, order) ==> p in open
    ensures Distinct(open, Order) ==> Distinct(Close(open, order), Order)
  {
    if open[0].order != order {
      FindClose(open[1..], order);
      assert Close(open, order)[1..] == Close(open[1..], order);
    }
  }

  lemma {:induction false} FindNone(open: seq<Promise>, order: string)
    requires Find(open, order).None? && Distinct(open, Order)
    ensures forall q :: Distinct(open + [Promise(order, q)], Order)
    ensures forall p :: p in open ==> p.order != order
  {
    if open != [] {
      FindNone(open[1..], order);
      forall q
        ensures Distinct(open + [Promise(order, q)], Order)
      {
        assert (open + [Promise(order, q)])[1..] == open[1..] + [Promise(order, q)];
      }
    }
  }

  lemma PromiseCovered(s: State, order: string)
    requires Inv(s) && Find(s.open, order).Some?
    ensures 0.0 < Find(s.open, order).value.quantity <= SumBy(s.rows, Reserved)
  {
    FindClose(s.open, order);
    SumByMember(s.open, Promised, Find(s.open, order).value);
  }

  /** The promise is kept: in any state a run can reach, shipping any part of an open
      order is never refused. The order's hold comes off whole and the picked units leave. */
  lemma ShippingIsNeverRefused(s: State, order: string, picked: real)
    requires Inv(s) && Find(s.open, order).Some?
    requires 0.0 < picked <= Find(s.open, order).value.quantity
    ensures
      var ordered := Find(s.open, order).value.quantity;
      var s' := Step(s, ShipOrder(order, picked));
      && ShipRows(s.rows, ordered, picked).Some?
      && s'.open == Close(s.open, order)
      && SumBy(s'.rows, OnHand) == SumBy(s.rows, OnHand) - picked
      && SumBy(s'.rows, Reserved) == SumBy(s.rows, Reserved) - ordered
      && Inv(s')
  {
    var ordered := Find(s.open, order).value.quantity;
    PromiseCovered(s, order);
    FindClose(s.open, order);
    ReleaseRowsEffect(s.rows, ordered);
    FreeNonNegative(s.rows);
    DeductRowsEffect(ReleaseRows(s.rows, ordered).value, picked);
  }

  lemma StatementKeepsInv(s: State, st: Statement, id: string, quantity: real)
    requires Inv(s) && quantity >= 0.0 && st in {Add, Block, Unblock}
    ensures Inv(Committed(s, Execute(s.rows, st, id, quantity), s.open))
  {
    if Execute(s.rows, st, id, quantity).Some? {
      var changed := Apply(st, Lookup(s.rows, id).value, quantity).value;
      LookupMember(s.rows, id);
      PutFacts(s.rows, changed);
      PutSum(s.rows, changed, Reserved);
      assert Fits(Lookup(s.rows, id).value);
    }
  }

  lemma StepKeepsInv(s: State, op: Op)
    requires Inv(s)
    ensures Inv(Step(s, op))
  {
    match op
    case PlaceOrder(order, quantity) =>
      if quantity > 0.0 && Find(s.open, order).None? {
        ReserveRowsEffect(s.rows, quantity);
        FindNone(s.open, order);
        SumByConcat(s.open, [Promise(order, quantity)], Promised);
      }
    case CancelOrder(order) =>
      if Find(s.open, order).Some? {
        PromiseCovered(s, order);
        FindClose(s.open, order);
        ReleaseRowsEffect(s.rows, Find(s.open, order).value.quantity);
      }
    case ShipOrder(order, picked) =>
      if Find(s.open, order).Some? && 0.0 < picked <= Find(s.open, order).value.quantity {
        ShippingIsNeverRefused(s, order, picked);
      }
    case Sell(quantity, reason) =>
      if quantity > 0.0 {
        DeductRowsEffect(s.rows, quantity);
      }
    case ReceiveAt(id, quantity) =>
      if quantity >= 0.0 {
        StatementKeepsInv(s, Add, id, quantity);
      }
    case BlockAt(id, quantity) =>
      if quantity > 0.0 {
        StatementKeepsInv(s, Block, id, quantity);
      }
    case UnblockAt(id, quantity) =>
      if quantity > 0.0 {
        StatementKeepsInv(s, Unblock, id, quantity);
      }
  }

  /** An order is placed, and goods are sold, exactly when that much is free; an order cancelled gives up its
      whole hold. */
  lemma StepMeans(s: State, op: Op)
    requires Inv(s)
    ensures op.PlaceOrder? && op.quantity > 0.0 && Find(s.open, op.order).None? ==>
      if op.quantity <= SumBy(s.rows, Free)
      then
        Step(s, op).open == s.open + [Promise(op.order, op.quantity)] && GoodsAndHolds(s, Step(s, op), 0.0, op.quantity)
      else Step(s, op) == s
    ensures op.CancelOrder? && Find(s.open, op.order).Some? ==>
      && Step(s, op).open == Close(s.open, op.order)
      && GoodsAndHolds(s, Step(s, op), 0.0, -Find(s.open, op.order).value.quantity)
    ensures op.Sell? && op.quantity > 0.0 ==>
      if && op.reason in {Reason.Sale, OrderFulfill, TransferOut, ProductionOut, TableOrder, SupplierReturn}
         && op.quantity <= SumBy(s.rows, Free)
      then Step(s, op).open == s.open && GoodsAndHolds(s, Step(s, op), -op.quantity, 0.0)
      else Step(s, op) == s
  {
    hide ReserveRows, ReleaseRows, DeductRows, ShipRows, Close, Distinct, AllFit, Execute;
    match op
    case PlaceOrder(order, quantity) =>
      if quantity > 0.0 {
        ReserveRowsEffect(s.rows, quantity);
      }
    case CancelOrder(order) =>
      if Find(s.open, order).Some? {
        PromiseCovered(s, order);
        ReleaseRowsEffect(s.rows, Find(s.open, order).value.quantity);
      }
    case Sell(quantity, reason) =>
      if quantity > 0.0 {
        DeductRowsEffect(s.rows, quantity);
      }
    case _ =>
  }

  /** Goods received, set aside and put back are written on their row. */
  lemma RowStepMeans(s: State, op: Op)
    ensures op.ReceiveAt? && op.quantity >= 0.0 && Lookup(s.rows, op.id).Some? ==>
      Step(s, op).open == s.open && GoodsAndHolds(s, Step(s, op), op.quantity, 0.0)
    ensures (op.BlockAt? || op.UnblockAt?) && op.quantity > 0.0 && Lookup(s.rows, op.id).Some? ==>
      var row := Lookup(s.rows, op.id).value;
      if op.BlockAt? && row.quantity - row.reserved - row.blocked >= op.quantity
      then Lookup(Step(s, op).rows, op.id) == Some(row.(blocked := row.blocked + op.quantity))
      else if op.UnblockAt? && row.blocked >= op.quantity
      then Lookup(Step(s, op).rows, op.id) == Some(row.(blocked := row.blocked - op.quantity))
      else Step(s, op) == s
  {
    match op
    case ReceiveAt(id, quantity) =>
      if Lookup(s.rows, id).Some? {
        var row := Lookup(s.rows, id).value;
        LookupMember(s.rows, id);
        PutSum(s.rows, row.(quantity := row.quantity + quantity), OnHand);
        PutSum(s.rows, row.(quantity := row.quantity + quantity), Reserved);
      }
    case BlockAt(id, quantity) =>
      WrittenOnItsRow(s.rows, id, Block, quantity);
    case UnblockAt(id, quantity) =>
      WrittenOnItsRow(s.rows, id, Unblock, quantity);
    case _ =>
  }

  /** Goods and holds of the product have moved by these amounts. */
  ghost predicate GoodsAndHolds(s: State, t: State, goods: real, holds: real) {
    && SumBy(t.rows, OnHand) == SumBy(s.rows, OnHand) + goods
    && SumBy(t.rows, Reserved) == SumBy(s.rows, Reserved) + holds
  }

  lemma WrittenOnItsRow(rows: seq<Row>, id: string, st: Statement, q: real)
    requires st in {Block, Unblock}
    ensures Lookup(rows, id).Some? ==>
      var row := Lookup(rows, id).value;
      && (Execute(rows, st, id, q).Some? <==>
            if st == Block then row.quantity - row.reserved - row.blocked >= q else row.blocked >= q)
      && (Execute(rows, st, id, q).Some? ==>
            Lookup(Execute(rows, st, id, q).value, id) ==
              Some(row.(blocked := if st == Block then row.blocked + q else row.blocked - q)))
  {
    if Lookup(rows, id).Some? {
      LookupMember(rows, id);
      HoldEffect(rows, Lookup(rows, id).value, st, q);
    }
  }

  /** Over any run, holds stay inside stock on every row and add up to the open orders. */
  lemma {:induction false} RunKeepsInv(s: State, ops: seq<Op>)
    requires Inv(s)
    ensures Inv(Run(s, ops))
    decreases |ops|
  {
    if ops != [] {
      StepKeepsInv(s, ops[0]);
      RunKeepsInv(Step(s, ops[0]), ops[1..]);
    }
  }

  /** From rows with nothing held and no orders: whatever was done before, an open order ships. */
  lemma PromiseCanBeKept(rows: seq<Row>, ops: seq<Op>, order: string, picked: real)
    requires Distinct(rows, RowId)
    requires forall r :: r in rows ==> r.quantity >= 0.0 && r.reserved == 0.0 && r.blocked == 0.0
    requires Find(Run(State(rows, []), ops).open, order).Some?
    requires 0.0 < picked <= Find(Run(State(rows, []), ops).open, order).value.quantity
    ensures
      var s := Run(State(rows, []), ops);
      && AllFit(s.rows)
      && SumBy(s.rows, Reserved) == SumBy(s.open, Promised)
      && ShipRows(s.rows, Find(s.open, order).value.quantity, picked).Some?
  {
    NothingReserved(rows);
    RunKeepsInv(State(rows, []), ops);
    ShippingIsNeverRefused(Run(State(rows, []), ops), order, picked);
  }

  lemma {:induction false} NothingReserved(rows: seq<Row>)
    requires forall r :: r in rows ==> r.reserved == 0.0
    ensures SumBy(rows, Reserved) == 0.0
  {
    if rows != [] {
      NothingReserved(rows[1..]);
    }
  }

  /** The shipping transaction itself, on the table: release the order's hold, read the
      rows again, deduct what was picked. It succeeds whenever the hold is there. */
  method ShipOrderLine(table: StockTable, ordered: real, picked: real) returns (ok: bool)
    requires table.Valid() && AllFit(table.rows)
    requires 0.0 < picked <= ordered <= SumBy(table.rows, Reserved)
    modifies table
    ensures ok && table.Valid() && AllFit(table.rows)
    ensures Some(table.rows) == ShipRows(old(table.rows), ordered, picked)
    ensures SumBy(table.rows, OnHand) == SumBy(old(table.rows), OnHand) - picked
    ensures SumBy(table.rows, Reserved) == SumBy(old(table.rows), Reserved) - ordered
  {
    ReleaseRowsEffect(table.rows, ordered);
    ok := table.ReleaseAcrossBins(table.rows, ordered);
    FreeNonNegative(old(table.rows));
    DeductRowsEffect(table.rows, picked);
    ghost var freed, ledger := table.rows, table.ledger;
    ghost var parts := Allocation(picked, BinsOf(freed, true)).allocations;
    ok := table.DeductAcrossBins(table.rows, picked, OrderFulfill);
    DeductedInFull(freed, ledger, freed, parts, OrderFulfill, table.rows, table.ledger);
  }
}
