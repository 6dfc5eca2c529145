/** Batches and stock over whole runs, and the check that compares them (`reconcileBatches` in
    apps/api/src/reconciliation.ts). */
module BatchRuns {
  import opened Lists
  import opened Batches

  // ------------------------------------------------------------- the check

  datatype BatchTotal = BatchTotal(productId: string, batched: real)

  datatype StockTotal = StockTotal(productId: string, quantity: real)

  datatype BatchExcess = BatchExcess(productId: string, batched: real, stock: real, excess: real)

  const LargestFirst: (BatchExcess, BatchExcess) -> bool := (a: BatchExcess, b: BatchExcess) => a.excess >= b.excess

  const IsExcess: BatchExcess -> bool := (e: BatchExcess) => e.batched > e.stock

  /** `new Map(stock.map(...))`: of two rows of one product the later counts. */
  function StockFor(stock: seq<StockTotal>, productId: string): real {
    if stock == [] then 0.0
    else if stock[|stock| - 1].productId == productId then stock[|stock| - 1].quantity
    else StockFor(stock[..|stock| - 1], productId)
  }

  function Compared(stock: seq<StockTotal>): BatchTotal -> BatchExcess {
    (b: BatchTotal) =>
      var onHand := StockFor(stock, b.productId);
      BatchExcess(b.productId, b.batched, onHand, b.batched - onHand)
  }

  function ReconcileBatches(batches: seq<BatchTotal>, stock: seq<StockTotal>): seq<BatchExcess> {
    StableSort(Filter(MapSeq(batches, Compared(stock)), IsExcess), LargestFirst)
  }

  /** The stock a product is compared with: its last row's quantity, and zero without a row. */
  lemma {:induction false} StockForIsLastRow(stock: seq<StockTotal>, productId: string, i: nat)
    requires i <= |stock| && forall j :: i <= j < |stock| ==> stock[j].productId != productId
    ensures i == 0 ==> StockFor(stock, productId) == 0.0
    ensures i > 0 && stock[i - 1].productId == productId ==> StockFor(stock, productId) == stock[i - 1].quantity
  {
    if i < |stock| {
      StockForIsLastRow(stock[..|stock| - 1], productId, i);
    }
  }

  /** The report holds exactly the products whose batches add up to more than the stock, with the
      true difference, and nothing else. */
  lemma ReportIsExact(batches: seq<BatchTotal>, stock: seq<StockTotal>, e: BatchExcess)
    ensures e in ReconcileBatches(batches, stock) <==>
      exists b :: b in batches && b.batched > StockFor(stock, b.productId)
        && e == BatchExcess(b.productId, b.batched, StockFor(stock, b.productId),
                            b.batched - StockFor(stock, b.productId))
  {
    var all := MapSeq(batches, Compared(stock));
    MapSeqAt(batches, Compared(stock));
    if e in ReconcileBatches(batches, stock) {
      assert e in all && IsExcess(e);
      var i :| 0 <= i < |all| && all[i] == e;
      assert batches[i] in batches;
    }
    if exists b :: b in batches && b.batched > StockFor(stock, b.productId) && e == Compared(stock)(b) {
      var b :| b in batches && b.batched > StockFor(stock, b.productId) && e == Compared(stock)(b);
      var i :| 0 <= i < |batches| && batches[i] == b;
      assert all[i] == e && IsExcess(e);
    }
  }

  /** The largest excess comes first. */
  lemma ReportIsInOrder(batches: seq<BatchTotal>, stock: seq<StockTotal>, i: nat, j: nat)
    requires i < j < |ReconcileBatches(batches, stock)|
    ensures ReconcileBatches(batches, stock)[i].excess >= ReconcileBatches(batches, stock)[j].excess
  {
    StableSortSorts(Filter(MapSeq(batches, Compared(stock)), IsExcess), LargestFirst);
  }

  // --------------------------------------------------------------------- runs

  datatype Change = Change(locationId: string, productId: string, quantity: real)

  datatype World = World(rows: seq<Batch>, ledger: seq<Change>)

  datatype Op =
    | ReceiveBatch(batch: Batch)
    | ReceiveUntracked(locationId: string, productId: string, quantity: real)
    | Sell(locationId: string, lines: seq<Line>, heldBack: map<string, real>, policy: Policy, now: int)
    | TakeAway(locationId: string, lines: seq<Line>, now: int)
    | ReturnInto(locationId: string, productId: string, batchId: string, quantity: real)

  function Here(locationId: string, productId: string): Change -> real {
    (c: Change) => if c.locationId == locationId && c.productId == productId then c.quantity else 0.0
  }

  function OnHand(w: World, locationId: string, productId: string): real {
    SumBy(w.ledger, Here(locationId, productId))
  }

  function Leaves(locationId: string): Line -> Change {
    (l: Line) => Change(locationId, l.productId, -Max(l.quantity, 0.0))
  }

  function HeldBack(heldBack: map<string, real>, productId: string): real {
    if productId in heldBack then Max(heldBack[productId], 0.0) else 0.0
  }

  const Stocked: Batch -> bool := (b: Batch) => b.quantity > 0.0

  /** What the till offers of a product: by its batches when any has goods, by the free stock otherwise. */
  function Offered(w: World, l: string, p: string, heldBack: map<string, real>, policy: Policy, now: int): real {
    var batches := Filter(Filter(w.rows, Own(l, p)), Stocked);
    if batches == [] then OnHand(w, l, p) - HeldBack(heldBack, p)
    else SellableQuantity(OnHand(w, l, p), batches, HeldBack(heldBack, p), now, policy)
  }

  /** With no goods in any batch the till offers what is on hand and not held back; with goods in some,
      all that has not expired, in a batch or not, and in a pharmacy only what fresh batches hold. */
  lemma OfferIsWhatMayBeSold(w: World, l: string, p: string, heldBack: map<string, real>, policy: Policy, now: int)
    requires NoneNegative(w.rows)
    ensures
      var back := if p in heldBack && heldBack[p] > 0.0 then heldBack[p] else 0.0;
      var expired := SumBy(w.rows, ExpiredInPlace(l, p, now));
      var batched := SumBy(w.rows, InPlace(l, p));
      var all := if policy.SellableUntracked? && OnHand(w, l, p) > batched then OnHand(w, l, p) else batched;
      var rest := all - expired - back;
      Offered(w, l, p, heldBack, policy, now) ==
        if forall b :: b in w.rows && b.locationId == l && b.productId == p ==> b.quantity == 0.0
        then OnHand(w, l, p) - back
        else if rest > 0.0 then rest else 0.0
  {
    var own := Filter(w.rows, Own(l, p));
    var batches := Filter(own, Stocked);
    SumByFilter(w.rows, Own(l, p), InPlace(l, p));
    SumByFilter(w.rows, Own(l, p), ExpiredInPlace(l, p, now));
    SumByFilter(own, Stocked, InPlace(l, p));
    SumByFilter(own, Stocked, ExpiredInPlace(l, p, now));
    SumBySame(batches, InPlace(l, p), Held);
    SumBySame(batches, ExpiredInPlace(l, p, now), ExpiredBy(now));
    SellableIsAllButExpired(OnHand(w, l, p), batches, HeldBack(heldBack, p), now);
    if batches == [] {
      forall b | b in w.rows && b.locationId == l && b.productId == p
        ensures b.quantity == 0.0
      {
        assert b in own && b !in batches;
      }
    } else {
      assert batches[0] in batches && batches[0] in own && batches[0] in w.rows;
    }
  }

  /** What the batches of a product at a place hold, and what of it has expired. */
  function InPlace(l: string, p: string): Batch -> real {
    (b: Batch) => if b.locationId == l && b.productId == p then b.quantity else 0.0
  }

  function ExpiredInPlace(l: string, p: string, now: int): Batch -> real {
    (b: Batch) => if b.locationId == l && b.productId == p && b.expiry <= now then b.quantity else 0.0
  }

  /** The till's own question, asked of every product of the receipt at the moment of the sale. */
  ghost predicate Admitted(w: World, l: string, lines: seq<Line>, heldBack: map<string, real>, policy: Policy,
      now: int) {
    forall p :: SumBy(lines, Takes(p)) > 0.0 ==> SumBy(lines, Takes(p)) <= Offered(w, l, p, heldBack, policy, now)
  }

  /** `quantity: { increment }` on the row of this id. */
  function More(id: string, quantity: real): Batch -> Batch {
    (b: Batch) => if b.id == id then b.(quantity := b.quantity + quantity) else b
  }

  ghost predicate InStock(w: World, l: string, lines: seq<Line>) {
    forall p :: SumBy(lines, Takes(p)) <= Max(OnHand(w, l, p), 0.0)
  }

  ghost function Step(w: World, op: Op): World {
    match op
    case ReceiveBatch(batch) =>
      if batch.quantity <= 0.0 || exists b :: b in w.rows && b.id == batch.id then w
      else World([batch] + w.rows, w.ledger + [Change(batch.locationId, batch.productId, batch.quantity)])
    case ReceiveUntracked(l, p, quantity) =>
      if quantity <= 0.0 then w else w.(ledger := w.ledger + [Change(l, p, quantity)])
    case Sell(l, lines, heldBack, policy, now) =>
      if !Admitted(w, l, lines, heldBack, policy, now) then w
      else World(Removed(w.rows, l, lines, GoodFirst, now), w.ledger + MapSeq(lines, Leaves(l)))
    case TakeAway(l, lines, now) =>
      if !InStock(w, l, lines) then w
      else World(Removed(w.rows, l, lines, OldestFirst, now), w.ledger + MapSeq(lines, Leaves(l)))
    case ReturnInto(l, p, id, quantity) =>
      if quantity <= 0.0 || !exists b :: b in w.rows && b.id == id && Own(l, p)(b) then w
      else World(MapSeq(w.rows, More(id, quantity)), w.ledger + [Change(l, p, quantity)])
  }

  ghost predicate Within(w: World, l: string, p: string) {
    Batched(w.rows, l, p) <= OnHand(w, l, p)
  }

  ghost predicate Inv(w: World) {
    && Distinct(w.rows, BatchId) && NoneNegative(w.rows)
    && forall l, p :: Within(w, l, p)
  }

  // ----------------------------------------------------------------- arrivals

  lemma OneChange(w: World, c: Change, l: string, p: string)
    ensures SumBy(w.ledger + [c], Here(l, p)) == OnHand(w, l, p) + Here(l, p)(c)
  {
    SumByConcat(w.ledger, [c], Here(l, p));
    assert [c][1..] == [];
  }

  lemma ReceiveKeepsInv(w: World, batch: Batch)
    requires Inv(w)
    ensures Inv(Step(w, ReceiveBatch(batch)))
  {
    var next := Step(w, ReceiveBatch(batch));
    if next != w {
      assert next.rows[1..] == w.rows;
      forall l, p
        ensures Within(next, l, p)
      {
        assert Within(w, l, p);
        OneChange(w, Change(batch.locationId, batch.productId, batch.quantity), l, p);
        if Own(l, p)(batch) {
          assert Filter(next.rows, Own(l, p))[1..] == Filter(w.rows, Own(l, p));
        }
      }
    }
  }

  lemma UntrackedKeepsInv(w: World, l0: string, p0: string, quantity: real)
    requires Inv(w)
    ensures Inv(Step(w, ReceiveUntracked(l0, p0, quantity)))
  {
    hide Batched, Distinct;
    var next := Step(w, ReceiveUntracked(l0, p0, quantity));
    if next != w {
      forall l, p
        ensures Within(next, l, p)
      {
        assert Within(w, l, p);
        OneChange(w, Change(l0, p0, quantity), l, p);
      }
    }
  }

  // ------------------------------------------------------------------- returns

  lemma {:induction false} MoreElsewhere(rows: seq<Batch>, id: string, quantity: real)
    requires forall b :: b in rows ==> BatchId(b) != id
    ensures MapSeq(rows, More(id, quantity)) == rows
  {
    if rows != [] {
      assert BatchId(rows[0]) != id;
      MoreElsewhere(rows[1..], id, quantity);
    }
  }

  lemma {:induction false} MoreOfOne(rows: seq<Batch>, batch: Batch, quantity: real)
    requires Distinct(rows, BatchId) && batch in rows
    ensures Tracked(MapSeq(rows, More(batch.id, quantity))) == Tracked(rows) + quantity
  {
    assert MapSeq(rows, More(batch.id, quantity))[1..] == MapSeq(rows[1..], More(batch.id, quantity));
    if batch == rows[0] {
      MoreElsewhere(rows[1..], batch.id, quantity);
    } else {
      assert BatchId(batch) != BatchId(rows[0]);
      MoreOfOne(rows[1..], batch, quantity);
    }
  }

  lemma BatchedMore(rows: seq<Batch>, batch: Batch, quantity: real, l: string, p: string)
    requires Distinct(rows, BatchId) && batch in rows
    ensures Batched(MapSeq(rows, More(batch.id, quantity)), l, p)
      == Batched(rows, l, p) + if Own(l, p)(batch) then quantity else 0.0
  {
    hide Distinct, Filter, Tracked;
    var own := Filter(rows, Own(l, p));
    MapOwn(rows, More(batch.id, quantity), Own(l, p));
    DistinctFilter(rows, BatchId, Own(l, p));
    if Own(l, p)(batch) {
      MoreOfOne(own, batch, quantity);
    } else {
      forall b | b in own
        ensures BatchId(b) != batch.id
      {
        if b.id == batch.id {
          SameKeySameElement(rows, BatchId, b, batch);
        }
      }
      MoreElsewhere(own, batch.id, quantity);
    }
  }

  lemma ReturnKeepsInv(w: World, l0: string, p0: string, batch: Batch, quantity: real)
    requires Inv(w) && batch in w.rows && Own(l0, p0)(batch) && quantity > 0.0
    ensures Inv(World(MapSeq(w.rows, More(batch.id, quantity)), w.ledger + [Change(l0, p0, quantity)]))
  {
    hide Distinct, Batched;
    var next := World(MapSeq(w.rows, More(batch.id, quantity)), w.ledger + [Change(l0, p0, quantity)]);
    DistinctMap(w.rows, More(batch.id, quantity), BatchId);
    MapSeqAt(w.rows, More(batch.id, quantity));
    forall b | b in next.rows
      ensures b.quantity >= 0.0
    {
      var i :| 0 <= i < |next.rows| && next.rows[i] == b;
      assert w.rows[i] in w.rows;
    }
    forall l, p
      ensures Within(next, l, p)
    {
      assert Within(w, l, p);
      BatchedMore(w.rows, batch, quantity, l, p);
      OneChange(w, Change(l0, p0, quantity), l, p);
    }
  }

  // ------------------------------------------------------------------ removals

  lemma {:induction false} LeavesAt(lines: seq<Line>, l0: string, l: string, p: string)
    ensures SumBy(MapSeq(lines, Leaves(l0)), Here(l, p)) == if l == l0 then -SumBy(lines, Takes(p)) else 0.0
  {
    if lines != [] {
      LeavesAt(lines[1..], l0, l, p);
      assert MapSeq(lines, Leaves(l0))[1..] == MapSeq(lines[1..], Leaves(l0));
    }
  }

  lemma {:induction false} SameFilter(a: seq<Batch>, b: seq<Batch>, own: Batch -> bool)
    requires |a| == |b| && forall k :: 0 <= k < |a| ==> own(a[k]) == own(b[k]) && (own(a[k]) ==> a[k] == b[k])
    ensures Filter(a, own) == Filter(b, own)
  {
    if a != [] {
      SameFilter(a[1..], b[1..], own);
    }
  }

  /** For one product a document leaves what one line for its total would. */
  lemma BatchedAfterLines(rows: seq<Batch>, l: string, lines: seq<Line>, rule: Rule, now: int, p: string)
    requires Distinct(rows, BatchId)
    ensures Batched(Removed(rows, l, lines, rule, now), l, p) ==
      Batched(RemoveLine(rows, l, Line(p, SumBy(lines, Takes(p))), rule, now), l, p)
  {
    hide Distinct, RemoveLine, Removed, Parts, Filter;
    var whole := Line(p, SumBy(lines, Takes(p)));
    var a, b := Removed(rows, l, lines, rule, now), RemoveLine(rows, l, whole, rule, now);
    RemovedIsTable(rows, l, lines, rule, now);
    if rows == [] {
      NoRows(l, whole, rule, now);
    } else {
      LineAt(rows, l, whole, rule, now, 0);
    }
    forall k | 0 <= k < |rows|
      ensures b[k] == rows[k].(quantity := b[k].quantity)
      ensures Own(l, p)(a[k]) ==> a[k] == b[k]
    {
      LineAt(rows, l, whole, rule, now, k);
      SeveralLinesAreOne(rows, l, lines, rule, now, k);
    }
    SameFilter(a, b, Own(l, p));
  }

  lemma NoRows(l: string, line: Line, rule: Rule, now: int)
    ensures RemoveLine([], l, line, rule, now) == []
  {
  }

  /** Elsewhere a document changes nothing. */
  lemma {:induction false} BatchedElsewhere(rows: seq<Batch>, l0: string, lines: seq<Line>, rule: Rule, now: int,
      l: string, p: string)
    requires Distinct(rows, BatchId) && NoneNegative(rows) && l != l0
    ensures Batched(Removed(rows, l0, lines, rule, now), l, p) == Batched(rows, l, p)
  {
    hide Distinct, RemoveLine, Batched;
    if lines != [] {
      var before, line := Removed(rows, l0, lines[..|lines| - 1], rule, now), lines[|lines| - 1];
      BatchedElsewhere(rows, l0, lines[..|lines| - 1], rule, now, l, p);
      RemovedIsTable(rows, l0, lines[..|lines| - 1], rule, now);
      StillNoneNegative(rows, l0, lines[..|lines| - 1], rule, now);
      if line.quantity > 0.0 {
        BatchedAfter(before, l0, line, rule, now, l, p);
      } else {
        LineTakes(before, l0, line, rule, now);
      }
    }
  }

  lemma {:induction false} StillNoneNegative(rows: seq<Batch>, l: string, lines: seq<Line>, rule: Rule, now: int)
    requires Distinct(rows, BatchId) && NoneNegative(rows)
    ensures NoneNegative(Removed(rows, l, lines, rule, now))
  {
    hide Distinct, RemoveLine;
    if lines != [] {
      var before, line := Removed(rows, l, lines[..|lines| - 1], rule, now), lines[|lines| - 1];
      StillNoneNegative(rows, l, lines[..|lines| - 1], rule, now);
      RemovedIsTable(rows, l, lines[..|lines| - 1], rule, now);
      if line.quantity > 0.0 {
        BatchedAfter(before, l, line, rule, now, l, line.productId);
      } else {
        LineTakes(before, l, line, rule, now);
      }
    }
  }

  /** What a document takes from the batches of one product at its location. */
  lemma TakenByDocument(rows: seq<Batch>, l: string, lines: seq<Line>, rule: Rule, now: int, p: string)
    requires Distinct(rows, BatchId) && NoneNegative(rows)
    ensures
      var own, q := Filter(rows, Own(l, p)), SumBy(lines, Takes(p));
      q >= 0.0 && Batched(Removed(rows, l, lines, rule, now), l, p) ==
        Tracked(own) - Min(q, if rule.GoodFirst? then Tracked(Filter(own, Fresh(now))) else Tracked(own))
  {
    hide Distinct, RemoveLine, Removed, Filter;
    var own, q := Filter(rows, Own(l, p)), SumBy(lines, Takes(p));
    SumByNonNegative(lines, Takes(p));
    BatchedAfterLines(rows, l, lines, rule, now, p);
    assert forall b :: b in own ==> b in rows;
    TotalTaken(q, own, now);
    if q > 0.0 {
      BatchedAfter(rows, l, Line(p, q), rule, now, l, p);
    } else {
      LineTakes(rows, l, Line(p, q), rule, now);
    }
  }

  lemma DocumentKeepsInv(w: World, l0: string, lines: seq<Line>, rule: Rule, now: int)
    requires Inv(w)
    requires forall p ::
      var own := Filter(w.rows, Own(l0, p));
      SumBy(lines, Takes(p))
        - Min(SumBy(lines, Takes(p)), if rule.GoodFirst? then Tracked(Filter(own, Fresh(now))) else Tracked(own))
        <= OnHand(w, l0, p) - Tracked(own)
    ensures Inv(World(Removed(w.rows, l0, lines, rule, now), w.ledger + MapSeq(lines, Leaves(l0))))
  {
    hide Distinct, RemoveLine, Removed, Filter;
    var next := World(Removed(w.rows, l0, lines, rule, now), w.ledger + MapSeq(lines, Leaves(l0)));
    RemovedIsTable(w.rows, l0, lines, rule, now);
    StillNoneNegative(w.rows, l0, lines, rule, now);
    forall l, p
      ensures Within(next, l, p)
    {
      assert Within(w, l, p);
      SumByConcat(w.ledger, MapSeq(lines, Leaves(l0)), Here(l, p));
      LeavesAt(lines, l0, l, p);
      if l == l0 {
        TakenByDocument(w.rows, l0, lines, rule, now, p);
      } else {
        BatchedElsewhere(w.rows, l0, lines, rule, now, l, p);
      }
    }
  }

  /** Rows with nothing on them count for nothing, before a filter or after it. */
  lemma {:induction false} StockedSum(batches: seq<Batch>)
    requires NoneNegative(batches)
    ensures Tracked(Filter(batches, Stocked)) == Tracked(batches)
  {
    SumByFilter(batches, Stocked, Held);
  }

  lemma {:induction false} FiltersCommute(batches: seq<Batch>, p: Batch -> bool, q: Batch -> bool)
    ensures Filter(Filter(batches, p), q) == Filter(Filter(batches, q), p)
  {
    if batches != [] {
      FiltersCommute(batches[1..], p, q);
      var ps, qs := Filter(batches[1..], p), Filter(batches[1..], q);
      assert ([batches[0]] + ps)[1..] == ps && ([batches[0]] + qs)[1..] == qs;
    }
  }

  lemma StockedPart(batches: seq<Batch>, now: int)
    requires NoneNegative(batches)
    ensures Tracked(Filter(batches, Stocked)) == Tracked(batches)
    ensures Tracked(Filter(Filter(batches, Stocked), Fresh(now))) == Tracked(Filter(batches, Fresh(now)))
  {
    StockedSum(batches);
    FiltersCommute(batches, Stocked, Fresh(now));
    StockedSum(Filter(batches, Fresh(now)));
  }

  lemma OfferedFits(w: World, l: string, p: string, heldBack: map<string, real>, policy: Policy, now: int)
    requires Within(w, l, p) && NoneNegative(w.rows)
    ensures
      var own := Filter(w.rows, Own(l, p));
      Offered(w, l, p, heldBack, policy, now) <= OnHand(w, l, p) - Tracked(own) + Tracked(Filter(own, Fresh(now)))
  {
    hide Filter, Tracked, OnHand;
    var own := Filter(w.rows, Own(l, p));
    assert forall b :: b in own ==> b in w.rows;
    StockedPart(own, now);
    TotalTaken(0.0, own, now);
    NoneTracked(now);
  }

  /** What a sale may take beyond the unexpired batches is stock no batch covers. */
  lemma AdmittedFits(w: World, l: string, lines: seq<Line>, heldBack: map<string, real>, policy: Policy, now: int,
      p: string)
    requires Inv(w) && Admitted(w, l, lines, heldBack, policy, now)
    ensures
      var own, q := Filter(w.rows, Own(l, p)), SumBy(lines, Takes(p));
      q - Min(q, Tracked(Filter(own, Fresh(now)))) <= OnHand(w, l, p) - Tracked(own)
  {
    hide Distinct, Filter, Tracked, OnHand, Offered, SumBy;
    var own, q := Filter(w.rows, Own(l, p)), SumBy(lines, Takes(p));
    assert Within(w, l, p);
    OfferedFits(w, l, p, heldBack, policy, now);
    SumByNonNegative(lines, Takes(p));
    assert forall b :: b in own ==> b in w.rows;
    TotalTaken(0.0, own, now);
  }

  lemma NoneTracked(now: int)
    ensures Tracked([]) == 0.0 && Tracked(Filter([], Fresh(now))) == 0.0
  {
  }

  lemma StepKeepsInv(w: World, op: Op)
    requires Inv(w)
    ensures Inv(Step(w, op))
  {
    hide Inv, Removed, Filter, Admitted, InStock;
    match op
    case ReceiveBatch(batch) => ReceiveKeepsInv(w, batch);
    case ReceiveUntracked(l, p, quantity) => UntrackedKeepsInv(w, l, p, quantity);
    case Sell(l, lines, heldBack, policy, now) =>
      if Admitted(w, l, lines, heldBack, policy, now) {
        forall p
          ensures
            var own := Filter(w.rows, Own(l, p));
            SumBy(lines, Takes(p)) - Min(SumBy(lines, Takes(p)), Tracked(Filter(own, Fresh(now))))
              <= OnHand(w, l, p) - Tracked(own)
        {
          AdmittedFits(w, l, lines, heldBack, policy, now, p);
        }
        DocumentKeepsInv(w, l, lines, GoodFirst, now);
      }
    case TakeAway(l, lines, now) =>
      if InStock(w, l, lines) {
        forall p
          ensures
            var own := Filter(w.rows, Own(l, p));
            SumBy(lines, Takes(p)) - Min(SumBy(lines, Takes(p)), Tracked(own)) <= OnHand(w, l, p) - Tracked(own)
        {
          InStockFits(w, l, lines, p);
        }
        DocumentKeepsInv(w, l, lines, OldestFirst, now);
      }
    case ReturnInto(l, p, id, quantity) =>
      if quantity > 0.0 && exists b :: b in w.rows && b.id == id && Own(l, p)(b) {
        var batch :| batch in w.rows && batch.id == id && Own(l, p)(batch);
        ReturnKeepsInv(w, l, p, batch, quantity);
      }
  }

  /** Goods of a product at a place, and what its batches hold there, have moved by these amounts. */
  ghost predicate Moved(w: World, next: World, l: string, p: string, goods: real, batched: real) {
    OnHand(next, l, p) == OnHand(w, l, p) + goods && Batched(next.rows, l, p) == Batched(w.rows, l, p) + batched
  }

  /** Goods that arrive or come back, and only they, raise the stock of their product at their place, and
      its batches when they have one. */
  lemma ArrivalMeans(w: World, op: Op, l: string, p: string)
    requires Inv(w)
    ensures op.ReceiveBatch? && op.batch.quantity > 0.0 && (forall b :: b in w.rows ==> b.id != op.batch.id) ==>
      var q := if op.batch.locationId == l && op.batch.productId == p then op.batch.quantity else 0.0;
      Moved(w, Step(w, op), l, p, q, q)
    ensures op.ReceiveUntracked? && op.quantity > 0.0 ==>
      var q := if op.locationId == l && op.productId == p then op.quantity else 0.0;
      Moved(w, Step(w, op), l, p, q, 0.0)
    ensures
      op.ReturnInto? && op.quantity > 0.0
      && (exists b :: b in w.rows && b.id == op.batchId && Own(op.locationId, op.productId)(b)) ==>
        var q := if op.locationId == l && op.productId == p then op.quantity else 0.0;
        Moved(w, Step(w, op), l, p, q, q)
  {
    hide Batched, Distinct;
    match op
    case ReceiveBatch(batch) =>
      OneChange(w, Change(batch.locationId, batch.productId, batch.quantity), l, p);
      OneBatchMore(w.rows, batch, l, p);
    case ReceiveUntracked(l0, p0, quantity) =>
      OneChange(w, Change(l0, p0, quantity), l, p);
    case ReturnInto(l0, p0, id, quantity) =>
      OneChange(w, Change(l0, p0, quantity), l, p);
      if b :| b in w.rows && b.id == id && Own(l0, p0)(b) {
        BatchedMore(w.rows, b, quantity, l, p);
      }
    case _ =>
  }

  lemma OneBatchMore(rows: seq<Batch>, batch: Batch, l: string, p: string)
    ensures Batched([batch] + rows, l, p) == Batched(rows, l, p) + if Own(l, p)(batch) then batch.quantity else 0.0
  {
    assert ([batch] + rows)[1..] == rows;
    if Own(l, p)(batch) {
      assert Filter([batch] + rows, Own(l, p))[1..] == Filter(rows, Own(l, p));
    }
  }

  /** Goods that leave lower the stock by what the lines take. An admitted sale takes them from batches that
      have not expired as far as these go, any other removal from all batches; one that is not admitted, or
      asks for more than is there, changes nothing. */
  lemma DepartureMeans(w: World, op: Op, l: string, p: string)
    requires Inv(w)
    ensures op.Sell? ==>
      if Admitted(w, op.locationId, op.lines, op.heldBack, op.policy, op.now) then
        var q := if op.locationId == l then SumBy(op.lines, Takes(p)) else 0.0;
        var good := SumBy(w.rows, InPlace(l, p)) - SumBy(w.rows, ExpiredInPlace(l, p, op.now));
        Moved(w, Step(w, op), l, p, -q, if q < good then -q else -good)
      else Step(w, op) == w
    ensures op.TakeAway? ==>
      if InStock(w, op.locationId, op.lines) then
        var q := if op.locationId == l then SumBy(op.lines, Takes(p)) else 0.0;
        var batched := SumBy(w.rows, InPlace(l, p));
        Moved(w, Step(w, op), l, p, -q, if q < batched then -q else -batched)
      else Step(w, op) == w
  {
    hide Distinct, RemoveLine, Removed, Filter, Admitted, InStock;
    match op
    case Sell(l0, lines, _, _, now) =>
      InBatches(w.rows, l, p, now);
      DocumentMoves(w, l0, lines, GoodFirst, now, l, p);
    case TakeAway(l0, lines, now) =>
      InBatches(w.rows, l, p, now);
      DocumentMoves(w, l0, lines, OldestFirst, now, l, p);
    case _ =>
  }

  lemma InBatches(rows: seq<Batch>, l: string, p: string, now: int)
    requires NoneNegative(rows)
    ensures Tracked(Filter(rows, Own(l, p))) == SumBy(rows, InPlace(l, p))
    ensures Tracked(Filter(Filter(rows, Own(l, p)), Fresh(now)))
      == SumBy(rows, InPlace(l, p)) - SumBy(rows, ExpiredInPlace(l, p, now))
    ensures 0.0 <= SumBy(rows, ExpiredInPlace(l, p, now)) <= SumBy(rows, InPlace(l, p))
  {
    var own := Filter(rows, Own(l, p));
    assert forall b :: b in own ==> b in rows;
    SumByFilter(rows, Own(l, p), InPlace(l, p));
    SumByFilter(rows, Own(l, p), ExpiredInPlace(l, p, now));
    SumBySame(own, InPlace(l, p), Held);
    SumBySame(own, ExpiredInPlace(l, p, now), ExpiredBy(now));
    FreshAndExpired(own, now);
    SumByNonNegative(own, ExpiredBy(now));
    TotalTaken(0.0, own, now);
  }

  lemma DocumentMoves(w: World, l0: string, lines: seq<Line>, rule: Rule, now: int, l: string, p: string)
    requires Inv(w)
    ensures
      var next := World(Removed(w.rows, l0, lines, rule, now), w.ledger + MapSeq(lines, Leaves(l0)));
      var own, q := Filter(w.rows, Own(l, p)), SumBy(lines, Takes(p));
      && q >= 0.0
      && (if l != l0 then Moved(w, next, l, p, 0.0, 0.0)
          else
            var there := if rule.GoodFirst? then Tracked(Filter(own, Fresh(now))) else Tracked(own);
            Moved(w, next, l, p, -q, -Min(q, there)))
  {
    hide Distinct, RemoveLine, Removed, Filter;
    SumByConcat(w.ledger, MapSeq(lines, Leaves(l0)), Here(l, p));
    LeavesAt(lines, l0, l, p);
    SumByNonNegative(lines, Takes(p));
    if l == l0 {
      TakenByDocument(w.rows, l0, lines, rule, now, p);
    } else {
      BatchedElsewhere(w.rows, l0, lines, rule, now, l, p);
    }
  }

  lemma InStockFits(w: World, l: string, lines: seq<Line>, p: string)
    requires Inv(w) && InStock(w, l, lines)
    ensures
      var own := Filter(w.rows, Own(l, p));
      SumBy(lines, Takes(p)) - Min(SumBy(lines, Takes(p)), Tracked(own)) <= OnHand(w, l, p) - Tracked(own)
  {
    hide Distinct, Filter;
    var own := Filter(w.rows, Own(l, p));
    assert Within(w, l, p);
    assert forall b :: b in own ==> b in w.rows;
    SumByNonNegative(own, Held);
  }

  ghost function Run(w: World, ops: seq<Op>): World {
    if ops == [] then w else Step(Run(w, ops[..|ops| - 1]), ops[|ops| - 1])
  }

  /** A run is its steps, one after another. */
  lemma {:induction false} RunIsItsSteps(w: World, op: Op, ops: seq<Op>)
    ensures Run(w, []) == w && Run(w, [op] + ops) == Run(Step(w, op), ops)
  {
    hide Step;
    if ops == [] {
      assert [op] + [] == [op] && [op][..0] == [];
    } else {
      var all := [op] + ops;
      assert all[..|all| - 1] == [op] + ops[..|ops| - 1];
      RunIsItsSteps(w, op, ops[..|ops| - 1]);
    }
  }

  lemma {:induction false} RunKeepsInv(w: World, ops: seq<Op>)
    requires Inv(w)
    ensures Inv(Run(w, ops))
  {
    hide Inv, Step;
    if ops != [] {
      RunKeepsInv(w, ops[..|ops| - 1]);
      StepKeepsInv(Run(w, ops[..|ops| - 1]), ops[|ops| - 1]);
    }
  }

  /** The totals the check is given for one location. */
  ghost predicate TotalsOf(w: World, l: string, batches: seq<BatchTotal>, stock: seq<StockTotal>) {
    && (forall b :: b in batches ==> b.batched == Batched(w.rows, l, b.productId))
    && (forall p :: StockFor(stock, p) == OnHand(w, l, p))
  }

  /** From an empty shop, after any deliveries, sales the till admitted, returns and removals of
      goods on hand, batches never exceed stock and the check finds nothing. */
  lemma BatchesNeverExceedStock(ops: seq<Op>, l: string, batches: seq<BatchTotal>, stock: seq<StockTotal>)
    requires TotalsOf(Run(World([], []), ops), l, batches, stock)
    ensures forall p :: Batched(Run(World([], []), ops).rows, l, p) <= OnHand(Run(World([], []), ops), l, p)
    ensures ReconcileBatches(batches, stock) == []
  {
    hide Batched, OnHand, Run, ReconcileBatches;
    var w := Run(World([], []), ops);
    EmptyShop();
    RunKeepsInv(World([], []), ops);
    forall p
      ensures Batched(w.rows, l, p) <= OnHand(w, l, p)
    {
      assert Within(w, l, p);
    }
    if ReconcileBatches(batches, stock) != [] {
      ReportIsExact(batches, stock, ReconcileBatches(batches, stock)[0]);
    }
  }

  lemma EmptyShop()
    ensures Inv(World([], []))
  {
  }
}
