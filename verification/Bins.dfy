/** Which shelves goods are taken from and which holds are released
    (apps/api/src/bins.ts), with the optimality of both orders. */
module Bins {
  import opened Lists
  import opened Greedy

  datatype BinStock = BinStock(stockId: string, binCode: string, available: real)

  datatype BinAllocationResult =
    | Allocated(allocations: seq<Part>)
    | Insufficient(available: real)

  const StockId: BinStock -> string := (b: BinStock) => b.stockId

  const Available: BinStock -> real := (b: BinStock) => b.available

  const Usable: BinStock -> bool := (b: BinStock) => b.available > 0.0

  predicate Addressed(b: BinStock) { b.binCode != "" }

  /** The comparator: unplaced stock last, then the smaller amount, then the code. */
  predicate BinLe(a: BinStock, b: BinStock) {
    if Addressed(a) != Addressed(b) then Addressed(a)
    else if a.available != b.available then a.available < b.available
    else TextLe(a.binCode, b.binCode)
  }

  lemma BinLeIsAnOrder()
    ensures TotalPreorder(BinLe)
  {
    forall x: BinStock, y: BinStock
      ensures BinLe(x, y) || BinLe(y, x)
    {
      TextLeTotal(x.binCode, y.binCode);
    }
    forall x: BinStock, y: BinStock, z: BinStock | BinLe(x, y) && BinLe(y, z)
      ensures BinLe(x, z)
    {
      if TextLe(x.binCode, y.binCode) && TextLe(y.binCode, z.binCode) {
        TextLeTransitive(x.binCode, y.binCode, z.binCode);
      }
    }
  }

  /** The usable bins in the order they are emptied. */
  function Ordered(bins: seq<BinStock>): seq<BinStock> {
    StableSort(Filter(bins, Usable), BinLe)
  }

  function Allocation(required: real, bins: seq<BinStock>): BinAllocationResult {
    var total := SumBy(Filter(bins, Usable), Available);
    if total < required then Insufficient(total)
    else Allocated(Draw(Ordered(bins), StockId, Available, required))
  }

  method AllocateFromBins(required: real, bins: seq<BinStock>) returns (result: BinAllocationResult)
    ensures result == Allocation(required, bins)
  {
    var usable := Filter(bins, Usable);
    var total := SumBy(usable, Available);
    if total < required {
      return Insufficient(total);
    }
    var allocations := TakeInOrder(required, StableSort(usable, BinLe));
    result := Allocated(allocations);
  }

  /** The loop over the sorted bins, none of them empty. */
  method TakeInOrder(required: real, ordered: seq<BinStock>) returns (allocations: seq<Part>)
    requires forall b :: b in ordered ==> Usable(b)
    ensures allocations == Draw(ordered, StockId, Available, required)
  {
    hide Draw;
    allocations := [];
    var remaining := required;
    var i := 0;
    DrawFromStart(ordered, StockId, Available, required);
    while i < |ordered|
      invariant i <= |ordered|
      invariant allocations + Draw(ordered[i..], StockId, Available, remaining)
        == Draw(ordered, StockId, Available, required)
    {
      DrawStops(allocations, ordered, i, StockId, Available, remaining);
      if remaining <= 0.0 {
        break;
      }
      var bin := ordered[i];
      assert Usable(bin);
      var take := Min(bin.available, remaining);
      DrawNext(allocations, ordered, i, StockId, Available, remaining);
      allocations := allocations + [Part(bin.stockId, take)];
      remaining := remaining - take;
      i := i + 1;
    }
    DrawStops(allocations, ordered, i, StockId, Available, remaining);
  }

  lemma OrderedFacts(bins: seq<BinStock>)
    requires Distinct(bins, StockId)
    ensures Distinct(Ordered(bins), StockId) && SortedBy(Ordered(bins), BinLe)
    ensures forall b :: b in Ordered(bins) <==> b in bins && Usable(b)
  {
    DistinctFilter(bins, StockId, Usable);
    DistinctSort(Filter(bins, Usable), BinLe, StockId);
    BinLeIsAnOrder();
    StableSortSorts(Filter(bins, Usable), BinLe);
  }

  lemma OrderedSum(bins: seq<BinStock>, f: BinStock -> real)
    requires forall b :: b in bins && !Usable(b) ==> f(b) == 0.0
    ensures SumBy(Ordered(bins), f) == SumBy(bins, f)
  {
    SumBySort(Filter(bins, Usable), BinLe, f);
    SumByFilter(bins, Usable, f);
  }

  lemma NotOrdered(bins: seq<BinStock>, b: BinStock)
    requires Distinct(bins, StockId) && b in bins && b !in Ordered(bins)
    ensures forall x :: x in Ordered(bins) ==> x.stockId != b.stockId
  {
    forall x | x in Ordered(bins)
      ensures x.stockId != b.stockId
    {
      if x.stockId == b.stockId {
        SameKeySameElement(bins, StockId, x, b);
      }
    }
  }

  /** Exactly what is required is taken, no bin gives more than it has, a bin with
      nothing free gives nothing, and the answer is a refusal just when the free
      stock falls short; then it names what was free. */
  lemma AllocationIsExact(required: real, bins: seq<BinStock>)
    requires Distinct(bins, StockId)
    ensures Allocation(required, bins).Insufficient? <==> SumBy(bins, Room(Available)) < required
    ensures Allocation(required, bins).Insufficient? ==>
      Allocation(required, bins).available == SumBy(bins, Room(Available))
    ensures Allocation(required, bins).Allocated? ==>
      var parts := Allocation(required, bins).allocations;
      && SumBy(parts, Quantity) == Max(required, 0.0)
      && (forall b :: b in bins ==> 0.0 <= Taken(parts, b.stockId) <= Max(b.available, 0.0))
      && (forall p :: p in parts ==> p.quantity > 0.0 && exists b :: b in bins && b.stockId == p.id)
      && Distinct(parts, Id)
  {
    OrderedFacts(bins);
    SumBySame(Filter(bins, Usable), Available, Room(Available));
    SumByFilter(bins, Usable, Room(Available));
    SumByNonNegative(bins, Room(Available));
    if Allocation(required, bins).Allocated? {
      var parts := Allocation(required, bins).allocations;
      OrderedSum(bins, Room(Available));
      DrawTotal(Ordered(bins), StockId, Available, required);
      DrawParts(Ordered(bins), StockId, Available, required);
      forall b | b in bins
        ensures 0.0 <= Taken(parts, b.stockId) <= Max(b.available, 0.0)
      {
        if Usable(b) {
          TakenBounds(Ordered(bins), StockId, Available, required, b);
        } else {
          NotOrdered(bins, b);
          TakenElsewhere(Ordered(bins), StockId, Available, required, b.stockId);
        }
      }
    }
  }

  lemma TouchedIsOrdered(required: real, bins: seq<BinStock>, b: BinStock)
    requires Distinct(bins, StockId) && b in bins
    requires Taken(Draw(Ordered(bins), StockId, Available, required), b.stockId) > 0.0
    ensures b in Ordered(bins)
  {
    if b !in Ordered(bins) {
      NotOrdered(bins, b);
      TakenElsewhere(Ordered(bins), StockId, Available, required, b.stockId);
    }
  }

  lemma {:induction false} Before(o: seq<BinStock>, first: BinStock, second: BinStock) returns (i: nat, j: nat)
    requires SortedBy(o, BinLe) && first in o && second in o && !BinLe(second, first)
    ensures i < j < |o| && o[i] == first && o[j] == second
  {
    i :| 0 <= i < |o| && o[i] == first;
    j :| 0 <= j < |o| && o[j] == second;
    TextLeTotal(first.binCode, first.binCode);
  }

  /** Goods nobody has put away are touched only when every shelf is empty. */
  lemma UnplacedIsDrawnLast(required: real, bins: seq<BinStock>, pile: BinStock, shelf: BinStock)
    requires Distinct(bins, StockId) && Allocation(required, bins).Allocated?
    requires pile in bins && pile.binCode == ""
    requires shelf in bins && shelf.binCode != "" && shelf.available > 0.0
    requires Taken(Allocation(required, bins).allocations, pile.stockId) > 0.0
    ensures Taken(Allocation(required, bins).allocations, shelf.stockId) == shelf.available
  {
    OrderedFacts(bins);
    TouchedIsOrdered(required, bins, pile);
    var i, j := Before(Ordered(bins), shelf, pile);
    DrawInOrder(Ordered(bins), StockId, Available, required, i, j);
  }

  /** Of two shelves, the one that holds less is emptied first, and of two that hold the same the one whose
      code comes first: it is its beginning, or smaller where they first differ. */
  lemma SmallerShelfIsDrawnFirst(required: real, bins: seq<BinStock>, first: BinStock, second: BinStock, k: nat)
    requires Distinct(bins, StockId) && Allocation(required, bins).Allocated?
    requires first in bins && second in bins && first.available > 0.0 && (first.binCode == "" <==> second.binCode == "")
    requires
      || first.available < second.available
      || (&& first.available == second.available
          && k <= |first.binCode| && k < |second.binCode| && first.binCode[..k] == second.binCode[..k]
          && (k < |first.binCode| ==> first.binCode[k] < second.binCode[k]))
    requires Taken(Allocation(required, bins).allocations, second.stockId) > 0.0
    ensures Taken(Allocation(required, bins).allocations, first.stockId) == first.available
  {
    OrderedFacts(bins);
    TouchedIsOrdered(required, bins, second);
    if first.available == second.available {
      TextBefore(first.binCode, second.binCode, k);
    }
    var i, j := Before(Ordered(bins), first, second);
    DrawInOrder(Ordered(bins), StockId, Available, required, i, j);
  }

  // ------------------------------------------------ most shelves are emptied

  /** A way of taking goods: some amount from every bin, no more than is free there. */
  ghost predicate ValidPlan(bins: seq<BinStock>, plan: string -> real) {
    forall b :: b in bins ==> 0.0 <= plan(b.stockId) <= Max(b.available, 0.0)
  }

  /** What a plan takes out of a bin. */
  function Share(plan: string -> real): BinStock -> real {
    OnRow(StockId, plan)
  }

  /** One for an addressed bin the plan empties, nothing for any other. */
  function Emptied(plan: string -> real): BinStock -> real {
    (b: BinStock) => if b.binCode != "" && b.available > 0.0 && plan(b.stockId) == b.available then 1.0 else 0.0
  }

  /** How many shelves a draw of `amount` over `o` empties. */
  function DrawEmpties(o: seq<BinStock>, amount: real): real {
    if o == [] || !Addressed(o[0]) || amount < o[0].available then 0.0
    else 1.0 + DrawEmpties(o[1..], amount - o[0].available)
  }

  lemma {:induction false} SortedTail(o: seq<BinStock>)
    requires SortedBy(o, BinLe) && o != []
    ensures SortedBy(o[1..], BinLe)
    ensures forall b :: b in o[1..] ==> BinLe(o[0], b)
  {
    forall b | b in o[1..]
      ensures BinLe(o[0], b)
    {
      var k :| 0 <= k < |o[1..]| && o[1..][k] == b;
      assert b == o[k + 1];
    }
  }

  lemma {:induction false} NoneEmptied(o: seq<BinStock>, plan: string -> real)
    requires forall b :: b in o ==> Emptied(plan)(b) == 0.0
    ensures SumBy(o, Emptied(plan)) == 0.0
  {
    if o != [] {
      NoneEmptied(o[1..], plan);
    }
  }

  lemma NothingEmptiesNothing(o: seq<BinStock>)
    requires forall b :: b in o ==> Usable(b)
    ensures DrawEmpties(o, 0.0) == 0.0
  {
    if o != [] {
      assert Usable(o[0]);
    }
  }

  /** The draw's own parts empty `DrawEmpties` shelves. */
  lemma {:induction false} DrawEmptiesIsItsCount(o: seq<BinStock>, amount: real)
    requires Distinct(o, StockId) && SortedBy(o, BinLe) && amount >= 0.0
    requires forall b :: b in o ==> Usable(b)
    ensures SumBy(o, Emptied(AsPlan(Draw(o, StockId, Available, amount)))) == DrawEmpties(o, amount)
  {
    var plan := AsPlan(Draw(o, StockId, Available, amount));
    if o != [] {
      SortedTail(o);
      DrawStep(o, StockId, Available, amount);
      var take := FirstTake(o, Available, amount);
      var rest := AsPlan(Draw(o[1..], StockId, Available, amount - take));
      forall b | b in o[1..]
        ensures Emptied(plan)(b) == Emptied(rest)(b)
      {
        assert StockId(b) != StockId(o[0]);
      }
      SumBySame(o[1..], Emptied(plan), Emptied(rest));
      if Addressed(o[0]) {
        DrawEmptiesIsItsCount(o[1..], amount - take);
        assert Usable(o[0]);
        if amount < o[0].available {
          assert take == amount;
          NothingEmptiesNothing(o[1..]);
        }
      } else {
        NoneEmptied(o[1..], plan);
      }
    }
  }

  /** A budget smaller by one bin, no bigger than any in the list, empties at most one shelf fewer. */
  lemma {:induction false} OneBinLess(o: seq<BinStock>, budget: real, bin: real)
    requires SortedBy(o, BinLe)
    requires forall b :: b in o && Addressed(b) ==> 0.0 < bin <= b.available
    ensures DrawEmpties(o, budget) <= 1.0 + DrawEmpties(o, budget - bin)
  {
    if o != [] && Addressed(o[0]) && budget >= o[0].available {
      SortedTail(o);
      if budget - bin >= o[0].available {
        OneBinLess(o[1..], budget - o[0].available, bin);
      } else if o[1..] != [] {
        assert BinLe(o[0], o[1..][0]);
      }
    }
  }

  /** The exchange argument: no plan within the budget empties more than the draw does. */
  lemma {:induction false} NoPlanEmptiesMore(o: seq<BinStock>, amount: real, plan: string -> real)
    requires SortedBy(o, BinLe) && ValidPlan(o, plan)
    requires forall b :: b in o ==> Usable(b)
    requires SumBy(o, Share(plan)) <= amount
    ensures SumBy(o, Emptied(plan)) <= DrawEmpties(o, amount)
  {
    if o != [] {
      SortedTail(o);
      SumByNonNegative(o[1..], Share(plan));
      if !Addressed(o[0]) {
        NoneEmptied(o, plan);
      } else if amount < o[0].available {
        forall b | b in o
          ensures Emptied(plan)(b) == 0.0
        {
          SumByMember(o, Share(plan), b);
        }
        NoneEmptied(o, plan);
      } else if plan(o[0].stockId) == o[0].available {
        NoPlanEmptiesMore(o[1..], amount - o[0].available, plan);
      } else {
        NoPlanEmptiesMore(o[1..], amount, plan);
        assert Usable(o[0]);
        OneBinLess(o[1..], amount, o[0].available);
      }
    }
  }

  /** No other way of taking the same amount leaves fewer part-full shelves behind. */
  lemma AllocationEmptiesMostShelves(required: real, bins: seq<BinStock>, plan: string -> real)
    requires Distinct(bins, StockId) && required >= 0.0
    requires Allocation(required, bins).Allocated?
    requires ValidPlan(bins, plan) && SumBy(bins, Share(plan)) == required
    ensures
      var own := AsPlan(Allocation(required, bins).allocations);
      && ValidPlan(bins, own)
      && SumBy(bins, Share(own)) == required
      && SumBy(bins, Emptied(plan)) <= SumBy(bins, Emptied(own))
  {
    var own := AsPlan(Allocation(required, bins).allocations);
    AllocationIsExact(required, bins);
    OrderedFacts(bins);
    var o := Ordered(bins);
    OrderedSum(bins, Share(plan));
    OrderedSum(bins, Emptied(plan));
    OrderedSum(bins, Emptied(own));
    NoPlanEmptiesMore(o, required, plan);
    DrawEmptiesIsItsCount(o, required);
    OrderedSum(bins, Share(own));
    PlanTotal(o, StockId, Available, required);
  }

  // ------------------------------------------------------ releasing holds

  datatype HeldRow = HeldRow(stockId: string, held: real)

  const HeldId: HeldRow -> string := (r: HeldRow) => r.stockId

  const Held: HeldRow -> real := (r: HeldRow) => r.held

  const Holding: HeldRow -> bool := (r: HeldRow) => r.held > 0.0

  /** The comparator: the bigger hold first, then the row id. */
  predicate HeldLe(a: HeldRow, b: HeldRow) {
    if a.held != b.held then a.held > b.held else TextLe(a.stockId, b.stockId)
  }

  lemma HeldLeIsAnOrder()
    ensures TotalPreorder(HeldLe)
  {
    forall x: HeldRow, y: HeldRow
      ensures HeldLe(x, y) || HeldLe(y, x)
    {
      TextLeTotal(x.stockId, y.stockId);
    }
    forall x: HeldRow, y: HeldRow, z: HeldRow | HeldLe(x, y) && HeldLe(y, z)
      ensures HeldLe(x, z)
    {
      if TextLe(x.stockId, y.stockId) && TextLe(y.stockId, z.stockId) {
        TextLeTransitive(x.stockId, y.stockId, z.stockId);
      }
    }
  }

  function OrderedHolds(rows: seq<HeldRow>): seq<HeldRow> {
    StableSort(Filter(rows, Holding), HeldLe)
  }

  function Release(required: real, rows: seq<HeldRow>): seq<Part> {
    Draw(OrderedHolds(rows), HeldId, Held, required)
  }

  method AllocateRelease(required: real, rows: seq<HeldRow>) returns (allocations: seq<Part>)
    ensures allocations == Release(required, rows)
  {
    var ordered := StableSort(Filter(rows, Holding), HeldLe);
    allocations := [];
    var remaining := required;
    var i := 0;
    assert ordered[0..] == ordered
      && allocations + Draw(ordered, HeldId, Held, required) == Draw(ordered, HeldId, Held, required);
    hide Draw, StableSort;
    while i < |ordered|
      invariant i <= |ordered|
      invariant allocations + Draw(ordered[i..], HeldId, Held, remaining) == Draw(ordered, HeldId, Held, required)
    {
      DrawStops(allocations, ordered, i, HeldId, Held, remaining);
      if remaining <= 0.0 {
        break;
      }
      var row := ordered[i];
      assert row in Filter(rows, Holding);
      var take := Min(row.held, remaining);
      DrawNext(allocations, ordered, i, HeldId, Held, remaining);
      allocations := allocations + [Part(row.stockId, take)];
      remaining := remaining - take;
      i := i + 1;
    }
    DrawStops(allocations, ordered, i, HeldId, Held, remaining);
  }

  lemma OrderedHoldsFacts(rows: seq<HeldRow>)
    requires Distinct(rows, HeldId)
    ensures Distinct(OrderedHolds(rows), HeldId) && SortedBy(OrderedHolds(rows), HeldLe)
    ensures forall r :: r in OrderedHolds(rows) <==> r in rows && Holding(r)
  {
    DistinctFilter(rows, HeldId, Holding);
    DistinctSort(Filter(rows, Holding), HeldLe, HeldId);
    HeldLeIsAnOrder();
    StableSortSorts(Filter(rows, Holding), HeldLe);
  }

  lemma OrderedHoldsSum(rows: seq<HeldRow>, f: HeldRow -> real)
    requires forall r :: r in rows && !Holding(r) ==> f(r) == 0.0
    ensures SumBy(OrderedHolds(rows), f) == SumBy(rows, f)
  {
    SumBySort(Filter(rows, Holding), HeldLe, f);
    SumByFilter(rows, Holding, f);
  }

  /** Releasing never fails: it gives back what was asked or everything held,
      whichever is less, and never more on a row than that row holds. */
  lemma ReleaseIsExact(required: real, rows: seq<HeldRow>)
    requires Distinct(rows, HeldId)
    ensures SumBy(Release(required, rows), Quantity) == Min(Max(required, 0.0), SumBy(rows, Room(Held)))
    ensures forall r :: r in rows ==> 0.0 <= Taken(Release(required, rows), r.stockId) <= Max(r.held, 0.0)
    ensures forall p :: p in Release(required, rows) ==> p.quantity > 0.0 && exists r :: r in rows && r.stockId == p.id
    ensures Distinct(Release(required, rows), Id)
  {
    OrderedHoldsFacts(rows);
    OrderedHoldsSum(rows, Room(Held));
    DrawTotal(OrderedHolds(rows), HeldId, Held, required);
    DrawParts(OrderedHolds(rows), HeldId, Held, required);
    forall r | r in rows
      ensures 0.0 <= Taken(Release(required, rows), r.stockId) <= Max(r.held, 0.0)
    {
      if Holding(r) {
        TakenBounds(OrderedHolds(rows), HeldId, Held, required, r);
      } else {
        forall x | x in OrderedHolds(rows)
          ensures x.stockId != r.stockId
        {
          if x.stockId == r.stockId {
            SameKeySameElement(rows, HeldId, x, r);
          }
        }
        TakenElsewhere(OrderedHolds(rows), HeldId, Held, required, r.stockId);
      }
    }
  }

  /** A way of giving back holds: some amount on every row, no more than it holds. */
  ghost predicate ValidRelease(rows: seq<HeldRow>, plan: string -> real) {
    forall r :: r in rows ==> 0.0 <= plan(r.stockId) <= Max(r.held, 0.0)
  }

  /** One for a row the plan changes, nothing for any other. */
  function Touched(plan: string -> real): HeldRow -> real {
    (r: HeldRow) => if plan(r.stockId) > 0.0 then 1.0 else 0.0
  }

  /** How many rows a draw of `amount` over `o` changes. */
  function DrawTouches(o: seq<HeldRow>, amount: real): (n: real)
    ensures n >= 0.0
  {
    if o == [] || amount <= 0.0 then 0.0 else 1.0 + DrawTouches(o[1..], amount - Min(o[0].held, amount))
  }

  lemma SortedHoldsTail(o: seq<HeldRow>)
    requires SortedBy(o, HeldLe) && o != []
    ensures SortedBy(o[1..], HeldLe)
    ensures forall r :: r in o[1..] ==> r.held <= o[0].held
  {
    forall r | r in o[1..]
      ensures r.held <= o[0].held
    {
      var k :| 0 <= k < |o[1..]| && o[1..][k] == r;
      assert HeldLe(o[0], o[k + 1]);
    }
  }

  lemma {:induction false} DrawTouchesIsItsCount(o: seq<HeldRow>, amount: real)
    requires Distinct(o, HeldId) && forall r :: r in o ==> Holding(r)
    ensures SumBy(o, Touched(AsPlan(Draw(o, HeldId, Held, amount)))) == DrawTouches(o, amount)
  {
    var plan := AsPlan(Draw(o, HeldId, Held, amount));
    if o != [] {
      var take := FirstTake(o, Held, amount);
      var rest := AsPlan(Draw(o[1..], HeldId, Held, amount - take));
      DrawStep(o, HeldId, Held, amount);
      assert Holding(o[0]);
      forall r | r in o[1..]
        ensures Touched(plan)(r) == Touched(rest)(r)
      {
        assert HeldId(r) != HeldId(o[0]);
      }
      SumBySame(o[1..], Touched(plan), Touched(rest));
      DrawTouchesIsItsCount(o[1..], amount - take);
    }
  }

  /** A budget bigger by one row, no smaller than any in the list, touches at least one row more. */
  lemma {:induction false} OneRowMore(o: seq<HeldRow>, amount: real, row: real)
    requires SortedBy(o, HeldLe) && forall r :: r in o ==> 0.0 < r.held <= row
    requires 0.0 < amount <= SumBy(o, Held)
    ensures DrawTouches(o, amount) >= 1.0 + DrawTouches(o, amount - row)
  {
    assert o != [] && o[0] in o;
    SortedHoldsTail(o);
    if amount - row > 0.0 {
      OneRowMore(o[1..], amount - o[0].held, row);
    }
  }

  /** The exchange argument for releases. */
  lemma {:induction false} NoReleaseTouchesFewer(o: seq<HeldRow>, amount: real, plan: string -> real)
    requires SortedBy(o, HeldLe) && ValidRelease(o, plan)
    requires forall r :: r in o ==> Holding(r)
    requires SumBy(o, OnRow(HeldId, plan)) >= amount
    ensures DrawTouches(o, amount) <= SumBy(o, Touched(plan))
  {
    SumByNonNegative(o, Touched(plan));
    if o != [] && amount > 0.0 {
      SortedHoldsTail(o);
      assert Holding(o[0]);
      SumByNonNegative(o[1..], Touched(plan));
      if plan(o[0].stockId) > 0.0 {
        if amount > o[0].held {
          NoReleaseTouchesFewer(o[1..], amount - o[0].held, plan);
        }
      } else {
        NoReleaseTouchesFewer(o[1..], amount, plan);
        SumByAtMost(o[1..], OnRow(HeldId, plan), Held);
        OneRowMore(o[1..], amount, o[0].held);
        if amount <= o[0].held {
          assert DrawTouches(o[1..], 0.0) == 0.0;
        }
      }
    }
  }

  /** No other way of giving back the same amount changes fewer rows. */
  lemma ReleaseTouchesFewestRows(required: real, rows: seq<HeldRow>, plan: string -> real)
    requires Distinct(rows, HeldId) && ValidRelease(rows, plan)
    requires SumBy(rows, OnRow(HeldId, plan)) == SumBy(Release(required, rows), Quantity)
    ensures
      var own := AsPlan(Release(required, rows));
      && ValidRelease(rows, own)
      && SumBy(rows, OnRow(HeldId, own)) == SumBy(Release(required, rows), Quantity)
      && SumBy(rows, Touched(own)) <= SumBy(rows, Touched(plan))
  {
    var own := AsPlan(Release(required, rows));
    ReleaseIsExact(required, rows);
    OrderedHoldsFacts(rows);
    var o := OrderedHolds(rows);
    var released := SumBy(Release(required, rows), Quantity);
    OrderedHoldsSum(rows, OnRow(HeldId, plan));
    OrderedHoldsSum(rows, OnRow(HeldId, own));
    OrderedHoldsSum(rows, Touched(plan));
    OrderedHoldsSum(rows, Touched(own));
    PlanTotal(o, HeldId, Held, required);
    DrawTouchesIsItsCount(o, required);
    OrderedHoldsSum(rows, Room(Held));
    SumBySame(o, Room(Held), Held);
    DrawTouchesCapped(o, required);
    NoReleaseTouchesFewer(o, released, plan);
  }

  /** Asking for more than is held changes the same rows as asking for all of it. */
  lemma {:induction false} DrawTouchesCapped(o: seq<HeldRow>, amount: real)
    requires forall r :: r in o ==> Holding(r)
    ensures DrawTouches(o, amount) == DrawTouches(o, Min(Max(amount, 0.0), SumBy(o, Held)))
  {
    if o != [] {
      assert Holding(o[0]);
      assert forall r :: r in o[1..] ==> Holding(r);
      SumByNonNegative(o[1..], Held);
      if amount > o[0].held {
        DrawTouchesCapped(o[1..], amount - o[0].held);
      }
    }
  }
}
