/** Batches with an expiry date: what a sale and a removal take from them, and how they stand to the
    stock they are part of (apps/api/src/batches.ts, removeFromBatches in apps/api/src/stock.ts). */
module Batches {
  import opened Lists
  import opened Greedy
  import opened JsMap

  /** `expiry` is a moment, in milliseconds. */
  datatype Batch = Batch(id: string, productId: string, locationId: string, expiry: int, quantity: real)

  datatype Rule = GoodFirst | OldestFirst

  datatype Policy = SellableUntracked | QuarantinedUntracked

  datatype Line = Line(productId: string, quantity: real)

  const BatchId: Batch -> string := (b: Batch) => b.id

  const Held: Batch -> real := (b: Batch) => b.quantity

  const SoonestFirst: (Batch, Batch) -> bool := (a: Batch, b: Batch) => a.expiry <= b.expiry

  function Fresh(now: int): Batch -> bool {
    (b: Batch) => b.expiry > now
  }

  // --------------------------------------------------------------- allocation

  function Fefo(requested: real, batches: seq<Batch>, now: int): seq<Part> {
    Draw(StableSort(Filter(batches, Fresh(now)), SoonestFirst), BatchId, Held, requested)
  }

  function ForRemoval(requested: real, batches: seq<Batch>): seq<Part> {
    Draw(StableSort(batches, SoonestFirst), BatchId, Held, requested)
  }

  method AllocateFefo(requested: real, batches: seq<Batch>, now: int) returns (allocations: seq<Part>, shortage: real)
    ensures allocations == Fefo(requested, batches, now)
    ensures shortage == requested - SumBy(allocations, Quantity)
  {
    allocations, shortage := TakeInOrder(requested, StableSort(Filter(batches, Fresh(now)), SoonestFirst));
  }

  method AllocateForRemoval(requested: real, batches: seq<Batch>) returns (allocations: seq<Part>)
    ensures allocations == ForRemoval(requested, batches)
  {
    var remaining;
    allocations, remaining := TakeInOrder(requested, StableSort(batches, SoonestFirst));
  }

  /** The loop of both allocators. */
  method TakeInOrder(requested: real, sorted: seq<Batch>) returns (allocations: seq<Part>, remaining: real)
    ensures allocations == Draw(sorted, BatchId, Held, requested)
    ensures remaining == requested - SumBy(allocations, Quantity)
  {
    hide Draw, SumBy;
    allocations := [];
    remaining := requested;
    var i := 0;
    DrawFromStart(sorted, BatchId, Held, requested);
    NothingYet();
    while i < |sorted|
      invariant i <= |sorted|
      invariant allocations + Draw(sorted[i..], BatchId, Held, remaining) == Draw(sorted, BatchId, Held, requested)
      invariant remaining == requested - SumBy(allocations, Quantity)
    {
      DrawStops(allocations, sorted, i, BatchId, Held, remaining);
      var batch := sorted[i];
      if remaining <= 0.0 {
        break;
      }
      DrawNext(allocations, sorted, i, BatchId, Held, remaining);
      i := i + 1;
      if batch.quantity <= 0.0 {
        continue;
      }
      var take := Min(batch.quantity, remaining);
      var part := Part(batch.id, take);
      TotalNext(allocations, part);
      allocations := allocations + [part];
      remaining := remaining - take;
    }
    DrawStops(allocations, sorted, i, BatchId, Held, remaining);
  }

  lemma NothingYet()
    ensures SumBy([], Quantity) == 0.0
  {
  }

  /** A sale is never given an expired batch. */
  lemma ExpiredIsNeverSold(requested: real, batches: seq<Batch>, now: int, b: Batch)
    requires Distinct(batches, BatchId) && b in batches && Taken(Fefo(requested, batches, now), b.id) != 0.0
    ensures b.expiry > now
  {
    var s := StableSort(Filter(batches, Fresh(now)), SoonestFirst);
    if b.expiry <= now {
      forall x | x in s
        ensures BatchId(x) != b.id
      {
        assert Fresh(now)(x);
        if x.id == b.id {
          SameKeySameElement(batches, BatchId, x, b);
        }
      }
      TakenElsewhere(s, BatchId, Held, requested, b.id);
    }
  }

  lemma SoonestFirstIsAnOrder()
    ensures TotalPreorder(SoonestFirst)
  {
  }

  lemma FreshInOrder(batches: seq<Batch>, now: int)
    requires Distinct(batches, BatchId)
    ensures
      var s := StableSort(Filter(batches, Fresh(now)), SoonestFirst);
      && Distinct(s, BatchId) && SortedBy(s, SoonestFirst)
      && forall b :: b in s <==> b in batches && b.expiry > now
  {
    hide Distinct, SortedBy;
    SoonestFirstIsAnOrder();
    DistinctFilter(batches, BatchId, Fresh(now));
    DistinctSort(Filter(batches, Fresh(now)), SoonestFirst, BatchId);
    StableSortSorts(Filter(batches, Fresh(now)), SoonestFirst);
  }

  lemma PlacesInOrder(s: seq<Batch>, sooner: Batch, later: Batch) returns (i: nat, j: nat)
    requires SortedBy(s, SoonestFirst) && sooner in s && later in s && sooner.expiry < later.expiry
    ensures i < j < |s| && s[i] == sooner && s[j] == later
  {
    i :| 0 <= i < |s| && s[i] == sooner;
    j :| 0 <= j < |s| && s[j] == later;
    assert !SoonestFirst(later, sooner);
  }

  /** A batch is touched only when every unexpired one that expires sooner is empty. */
  lemma SoonestGoesFirst(requested: real, batches: seq<Batch>, now: int, sooner: Batch, later: Batch)
    requires Distinct(batches, BatchId) && sooner in batches && later in batches
    requires now < sooner.expiry < later.expiry && Taken(Fefo(requested, batches, now), later.id) > 0.0
    ensures Taken(Fefo(requested, batches, now), sooner.id) == Max(sooner.quantity, 0.0)
  {
    hide StableSort, Filter, Distinct, SortedBy, Draw, Taken;
    var s := StableSort(Filter(batches, Fresh(now)), SoonestFirst);
    FreshInOrder(batches, now);
    var i, j := PlacesInOrder(s, sooner, later);
    DrawInOrder(s, BatchId, Held, requested, i, j);
  }

  /** A removal goes soonest first too, expired batches before fresh ones. */
  lemma RemovalGoesInOrder(requested: real, batches: seq<Batch>, sooner: Batch, later: Batch)
    requires Distinct(batches, BatchId) && sooner in batches && later in batches && sooner.expiry < later.expiry
    requires Taken(ForRemoval(requested, batches), later.id) > 0.0
    ensures Taken(ForRemoval(requested, batches), sooner.id) == Max(sooner.quantity, 0.0)
  {
    hide StableSort, Distinct, SortedBy, Draw, Taken;
    var s := StableSort(batches, SoonestFirst);
    SoonestFirstIsAnOrder();
    DistinctSort(batches, SoonestFirst, BatchId);
    StableSortSorts(batches, SoonestFirst);
    var i, j := PlacesInOrder(s, sooner, later);
    DrawInOrder(s, BatchId, Held, requested, i, j);
  }

  // ------------------------------------------------------- what may be sold

  function Tracked(batches: seq<Batch>): real {
    SumBy(batches, Held)
  }

  function UncoveredStock(stockOnHand: real, batches: seq<Batch>): real {
    Max(stockOnHand - Tracked(batches), 0.0)
  }

  function SellableQuantity(stockOnHand: real, batches: seq<Batch>, heldBack: real, now: int, policy: Policy): real {
    var unexpired := Tracked(Filter(batches, Fresh(now)));
    var uncovered := if policy.SellableUntracked? then UncoveredStock(stockOnHand, batches) else 0.0;
    Max(unexpired + uncovered - heldBack, 0.0)
  }

  /** What is drawn in all, by either rule. */
  lemma TotalTaken(requested: real, batches: seq<Batch>, now: int)
    requires requested >= 0.0 && forall b :: b in batches ==> b.quantity >= 0.0
    ensures SumBy(Fefo(requested, batches, now), Quantity) == Min(requested, Tracked(Filter(batches, Fresh(now))))
    ensures SumBy(ForRemoval(requested, batches), Quantity) == Min(requested, Tracked(batches))
    ensures 0.0 <= Tracked(Filter(batches, Fresh(now))) <= Tracked(batches)
  {
    var good := Filter(batches, Fresh(now));
    DrawTotal(StableSort(good, SoonestFirst), BatchId, Held, requested);
    DrawTotal(StableSort(batches, SoonestFirst), BatchId, Held, requested);
    SumBySame(StableSort(good, SoonestFirst), Room(Held), Held);
    SumBySame(StableSort(batches, SoonestFirst), Room(Held), Held);
    SumBySort(good, SoonestFirst, Held);
    SumBySort(batches, SoonestFirst, Held);
    SumByNonNegative(good, Held);
    FreshPart(batches, now);
  }

  lemma {:induction false} FreshPart(batches: seq<Batch>, now: int)
    requires forall b :: b in batches ==> b.quantity >= 0.0
    ensures Tracked(Filter(batches, Fresh(now))) <= Tracked(batches)
  {
    if batches != [] {
      FreshPart(batches[1..], now);
      if Fresh(now)(batches[0]) {
        assert Filter(batches, Fresh(now))[1..] == Filter(batches[1..], Fresh(now));
      }
    }
  }

  /** What the till offers can be handed over: the part no unexpired batch covers is stock that
      belongs to no batch, and a pharmacy has no such part. */
  lemma SellableCanBeServed(requested: real, stockOnHand: real, batches: seq<Batch>, heldBack: real, now: int,
      policy: Policy)
    requires heldBack >= 0.0 && 0.0 < requested <= SellableQuantity(stockOnHand, batches, heldBack, now, policy)
    requires forall b :: b in batches ==> b.quantity >= 0.0
    ensures
      var shortage := requested - SumBy(Fefo(requested, batches, now), Quantity);
      && 0.0 <= shortage <= UncoveredStock(stockOnHand, batches)
      && (policy.QuarantinedUntracked? ==> shortage == 0.0)
  {
    TotalTaken(requested, batches, now);
  }

  /** What has expired by `now`. */
  function ExpiredBy(now: int): Batch -> real {
    (b: Batch) => if b.expiry <= now then b.quantity else 0.0
  }

  lemma {:induction false} FreshAndExpired(batches: seq<Batch>, now: int)
    ensures Tracked(Filter(batches, Fresh(now))) + SumBy(batches, ExpiredBy(now)) == Tracked(batches)
  {
    if batches != [] {
      FreshAndExpired(batches[1..], now);
      if Fresh(now)(batches[0]) {
        assert Filter(batches, Fresh(now))[1..] == Filter(batches[1..], Fresh(now));
      }
    }
  }

  /** A shop may sell everything on hand, or in batches when that is more, but what has expired and what is
      held back; a pharmacy only what a fresh batch covers. */
  lemma SellableIsAllButExpired(stockOnHand: real, batches: seq<Batch>, heldBack: real, now: int)
    ensures
      var batched := SumBy(batches, Held);
      var rest := (if stockOnHand > batched then stockOnHand else batched) - SumBy(batches, ExpiredBy(now)) - heldBack;
      SellableQuantity(stockOnHand, batches, heldBack, now, SellableUntracked) == if rest > 0.0 then rest else 0.0
    ensures
      var rest := SumBy(batches, Held) - SumBy(batches, ExpiredBy(now)) - heldBack;
      SellableQuantity(stockOnHand, batches, heldBack, now, QuarantinedUntracked) == if rest > 0.0 then rest else 0.0
  {
    FreshAndExpired(batches, now);
  }

  // ------------------------------------------------------------- the batch rows

  function Own(locationId: string, productId: string): Batch -> bool {
    (b: Batch) => b.locationId == locationId && b.productId == productId
  }

  function Parts(batches: seq<Batch>, requested: real, rule: Rule, now: int): seq<Part> {
    if rule.GoodFirst? then Fefo(requested, batches, now) else ForRemoval(requested, batches)
  }

  function Less(parts: seq<Part>): Batch -> Batch {
    (b: Batch) => b.(quantity := b.quantity - Taken(parts, b.id))
  }

  /** The table after one line has taken its goods. */
  function RemoveLine(rows: seq<Batch>, locationId: string, line: Line, rule: Rule, now: int): seq<Batch> {
    if line.quantity <= 0.0 then rows
    else MapSeq(rows, Less(Parts(Filter(rows, Own(locationId, line.productId)), line.quantity, rule, now)))
  }

  function Removed(rows: seq<Batch>, locationId: string, lines: seq<Line>, rule: Rule, now: int): seq<Batch> {
    if lines == [] then rows
    else RemoveLine(Removed(rows, locationId, lines[..|lines| - 1], rule, now), locationId,
                    lines[|lines| - 1], rule, now)
  }

  /** `quantity: { decrement }` on the row of this id. */
  function Decrement(rows: seq<Batch>, id: string, quantity: real): seq<Batch> {
    MapSeq(rows, Less([Part(id, quantity)]))
  }

  // ----------------------------------------------------- several lines are one

  /** How much the lines take of a product: lines that take nothing do not count. */
  function Takes(productId: string): Line -> real {
    (l: Line) => if l.productId == productId then Max(l.quantity, 0.0) else 0.0
  }

  lemma {:induction false} MapOwn(rows: seq<Batch>, f: Batch -> Batch, own: Batch -> bool)
    requires forall b :: own(f(b)) <==> own(b)
    ensures Filter(MapSeq(rows, f), own) == MapSeq(Filter(rows, own), f)
  {
    if rows != [] {
      MapOwn(rows[1..], f, own);
      assert MapSeq(rows, f)[1..] == MapSeq(rows[1..], f);
      if own(rows[0]) {
        assert Filter(rows, own)[1..] == Filter(rows[1..], own);
      }
    }
  }

  /** The batches one rule draws from, in the order it draws. */
  function Ordered(batches: seq<Batch>, rule: Rule, now: int): seq<Batch> {
    StableSort(if rule.GoodFirst? then Filter(batches, Fresh(now)) else batches, SoonestFirst)
  }

  lemma OrderedFacts(batches: seq<Batch>, rule: Rule, now: int, f: Batch -> Batch)
    requires Distinct(batches, BatchId)
    requires forall b :: f(b) == b.(quantity := f(b).quantity)
    ensures Distinct(Ordered(batches, rule, now), BatchId) && Distinct(MapSeq(batches, f), BatchId)
    ensures Ordered(MapSeq(batches, f), rule, now) == MapSeq(Ordered(batches, rule, now), f)
    ensures forall b :: b in Ordered(batches, rule, now) <==> b in batches && (rule.GoodFirst? ==> b.expiry > now)
  {
    hide StableSort, Filter, Distinct, MapSeq;
    DistinctMap(batches, f, BatchId);
    DistinctFilter(batches, BatchId, Fresh(now));
    MapOwn(batches, f, Fresh(now));
    var drawn := if rule.GoodFirst? then Filter(batches, Fresh(now)) else batches;
    DistinctSort(drawn, SoonestFirst, BatchId);
    SortMap(drawn, SoonestFirst, f);
  }

  lemma NotDrawn(batches: seq<Batch>, requested: real, rule: Rule, now: int, id: string)
    requires forall b :: b in Ordered(batches, rule, now) ==> b.id != id
    ensures Taken(Parts(batches, requested, rule, now), id) == 0.0
  {
    TakenElsewhere(Ordered(batches, rule, now), BatchId, Held, requested, id);
  }

  /** Taking `a` and then `b` from what is left takes from a batch what taking `a + b` would. */
  lemma PartsTwice(batches: seq<Batch>, a: real, b: real, rule: Rule, now: int, x: Batch)
    requires Distinct(batches, BatchId) && a >= 0.0 && b >= 0.0 && x in batches
    ensures
      var first := Parts(batches, a, rule, now);
      Taken(Parts(batches, a + b, rule, now), x.id) ==
        Taken(first, x.id) + Taken(Parts(MapSeq(batches, Less(first)), b, rule, now), x.id)
  {
    hide Distinct, Taken, Ordered, Parts, MapSeq;
    var first := Parts(batches, a, rule, now);
    OrderedFacts(batches, rule, now, Less(first));
    if x in Ordered(batches, rule, now) {
      PartsTwiceDrawn(batches, a, b, rule, now, x);
    } else {
      var left := MapSeq(batches, Less(first));
      AbsentById(batches, Ordered(batches, rule, now), x);
      AbsentAfter(Ordered(batches, rule, now), Less(first), x.id);
      NotDrawn(batches, a, rule, now, x.id);
      NotDrawn(batches, a + b, rule, now, x.id);
      NotDrawn(left, b, rule, now, x.id);
    }
  }

  lemma PartsTwiceDrawn(batches: seq<Batch>, a: real, b: real, rule: Rule, now: int, x: Batch)
    requires Distinct(batches, BatchId) && a >= 0.0 && b >= 0.0 && x in Ordered(batches, rule, now)
    ensures
      var first := Parts(batches, a, rule, now);
      Taken(Parts(batches, a + b, rule, now), x.id) ==
        Taken(first, x.id) + Taken(Parts(MapSeq(batches, Less(first)), b, rule, now), x.id)
  {
    hide Parts, Ordered, Draw, Taken, LeftAfter, Distinct, Less, MapSeq, StableSort, Filter, Fefo, ForRemoval;
    var first := Parts(batches, a, rule, now);
    var left := MapSeq(batches, Less(first));
    var items, rest := Ordered(batches, rule, now), Ordered(left, rule, now);
    PartsAreDrawn(batches, a, rule, now);
    PartsAreDrawn(batches, a + b, rule, now);
    PartsAreDrawn(left, b, rule, now);
    LeftIsOrdered(batches, a, rule, now);
    DrawTwiceOf(items, rest, BatchId, Held, a, b, x);
  }

  lemma LeftIsOrdered(batches: seq<Batch>, a: real, rule: Rule, now: int)
    requires Distinct(batches, BatchId)
    ensures
      var items := Ordered(batches, rule, now);
      var rest := Ordered(MapSeq(batches, Less(Parts(batches, a, rule, now))), rule, now);
      Distinct(items, BatchId) && Distinct(rest, BatchId) && LeftAfter(items, rest, BatchId, Held, a)
  {
    hide Distinct, Draw, Taken, Ordered, LeftAfter, Parts, MapSeq;
    OrderedFacts(batches, rule, now, Less(Parts(batches, a, rule, now)));
    OrderedIsTable(MapSeq(batches, Less(Parts(batches, a, rule, now))), rule, now);
    PartsAreDrawn(batches, a, rule, now);
    LeftInOrder(Ordered(batches, rule, now), a);
  }

  lemma OrderedIsTable(batches: seq<Batch>, rule: Rule, now: int)
    requires Distinct(batches, BatchId)
    ensures Distinct(Ordered(batches, rule, now), BatchId)
    ensures forall b :: b in Ordered(batches, rule, now) <==> b in batches && (rule.GoodFirst? ==> b.expiry > now)
  {
    OrderedFacts(batches, rule, now, Less([]));
  }

  lemma PartsAreDrawn(batches: seq<Batch>, requested: real, rule: Rule, now: int)
    ensures Parts(batches, requested, rule, now) == Draw(Ordered(batches, rule, now), BatchId, Held, requested)
  {
  }

  lemma LeftInOrder(items: seq<Batch>, a: real)
    ensures LeftAfter(items, MapSeq(items, Less(Draw(items, BatchId, Held, a))), BatchId, Held, a)
  {
    MapSeqAt(items, Less(Draw(items, BatchId, Held, a)));
  }

  lemma AbsentById(batches: seq<Batch>, items: seq<Batch>, x: Batch)
    requires Distinct(batches, BatchId) && x in batches && x !in items && forall b :: b in items ==> b in batches
    ensures forall b :: b in items ==> b.id != x.id
  {
    forall b | b in items
      ensures b.id != x.id
    {
      if b.id == x.id {
        SameKeySameElement(batches, BatchId, b, x);
      }
    }
  }

  lemma AbsentAfter(items: seq<Batch>, f: Batch -> Batch, id: string)
    requires (forall b :: f(b).id == b.id) && forall b :: b in items ==> b.id != id
    ensures forall b :: b in MapSeq(items, f) ==> b.id != id
  {
    MapSeqAt(items, f);
  }

  /** Rows that changed one by one, seen through a filter their change does not affect. */
  lemma {:induction false} FilterPointwise(rows: seq<Batch>, later: seq<Batch>, own: Batch -> bool, f: Batch -> Batch)
    requires |later| == |rows|
    requires forall k :: 0 <= k < |rows| ==> own(later[k]) == own(rows[k]) && (own(rows[k]) ==> later[k] == f(rows[k]))
    ensures Filter(later, own) == MapSeq(Filter(rows, own), f)
  {
    if rows != [] {
      FilterPointwise(rows[1..], later[1..], own, f);
      if own(rows[0]) {
        assert Filter(rows, own)[1..] == Filter(rows[1..], own);
      }
    }
  }

  /** A line changes the rows of its own product here and nothing but their quantity. */
  lemma LineAt(rows: seq<Batch>, locationId: string, line: Line, rule: Rule, now: int, k: nat)
    requires Distinct(rows, BatchId) && k < |rows|
    ensures |RemoveLine(rows, locationId, line, rule, now)| == |rows|
    ensures RemoveLine(rows, locationId, line, rule, now)[k] ==
      if Own(locationId, line.productId)(rows[k])
      then Less(Parts(Filter(rows, Own(locationId, line.productId)), line.quantity, rule, now))(rows[k])
      else rows[k]
  {
    var own := Filter(rows, Own(locationId, line.productId));
    MapSeqAt(rows, Less(Parts(own, line.quantity, rule, now)));
    if line.quantity > 0.0 {
      if !Own(locationId, line.productId)(rows[k]) {
        AbsentById(rows, own, rows[k]);
        NotDrawn(own, line.quantity, rule, now, rows[k].id);
      }
    } else {
      NothingDrawn(own, line.quantity, rule, now, rows[k].id);
    }
  }

  lemma NothingDrawn(batches: seq<Batch>, requested: real, rule: Rule, now: int, id: string)
    requires requested <= 0.0
    ensures Taken(Parts(batches, requested, rule, now), id) == 0.0
  {
  }

  lemma {:induction false} RemovedIsTable(rows: seq<Batch>, locationId: string, lines: seq<Line>, rule: Rule, now: int)
    requires Distinct(rows, BatchId)
    ensures Distinct(Removed(rows, locationId, lines, rule, now), BatchId)
    ensures |Removed(rows, locationId, lines, rule, now)| == |rows|
    ensures forall k :: 0 <= k < |rows| ==>
      Removed(rows, locationId, lines, rule, now)[k]
        == rows[k].(quantity := Removed(rows, locationId, lines, rule, now)[k].quantity)
  {
    if lines != [] {
      var before := Removed(rows, locationId, lines[..|lines| - 1], rule, now);
      var line := lines[|lines| - 1];
      RemovedIsTable(rows, locationId, lines[..|lines| - 1], rule, now);
      if line.quantity > 0.0 {
        var f := Less(Parts(Filter(before, Own(locationId, line.productId)), line.quantity, rule, now));
        DistinctMap(before, f, BatchId);
        MapSeqAt(before, f);
      }
    }
  }

  /** However a product is split into lines, and whatever other lines stand between them, its
      batches are left as one line for the whole amount would leave them. */
  lemma {:induction false} SeveralLinesAreOne(
    rows: seq<Batch>, locationId: string, lines: seq<Line>, rule: Rule, now: int, k: nat)
    requires Distinct(rows, BatchId) && k < |rows|
    ensures
      var whole := Line(rows[k].productId, SumBy(lines, Takes(rows[k].productId)));
      && |Removed(rows, locationId, lines, rule, now)| == |rows|
      && |RemoveLine(rows, locationId, whole, rule, now)| == |rows|
      && Removed(rows, locationId, lines, rule, now)[k] == RemoveLine(rows, locationId, whole, rule, now)[k]
    decreases |lines|, 0
  {
    hide RemoveLine, Parts, Distinct, SumBy, Filter, Taken;
    var p := rows[k].productId;
    LineAt(rows, locationId, Line(p, SumBy(lines, Takes(p))), rule, now, k);
    if lines == [] {
      NoSum(p);
      NothingDrawn(Filter(rows, Own(locationId, p)), 0.0, rule, now, rows[k].id);
    } else {
      var front, line := lines[..|lines| - 1], lines[|lines| - 1];
      var before := Removed(rows, locationId, front, rule, now);
      assert lines == front + [line];
      OneLineSum(front, line, p);
      RemovedIsTable(rows, locationId, front, rule, now);
      SeveralLinesAreOne(rows, locationId, front, rule, now, k);
      LineAt(rows, locationId, Line(p, SumBy(front, Takes(p))), rule, now, k);
      LineAt(before, locationId, line, rule, now, k);
      if Own(locationId, line.productId)(rows[k]) {
        LastLine(rows, locationId, front, line, rule, now, k);
      }
    }
  }

  lemma OneLineSum(front: seq<Line>, line: Line, p: string)
    ensures SumBy(front + [line], Takes(p)) == SumBy(front, Takes(p)) + Takes(p)(line)
  {
    SumByConcat(front, [line], Takes(p));
    assert [line][1..] == [];
  }

  lemma NoSum(p: string)
    ensures SumBy([], Takes(p)) == 0.0
  {
  }

  lemma LastLine(
    rows: seq<Batch>, locationId: string, front: seq<Line>, line: Line, rule: Rule, now: int, k: nat)
    requires Distinct(rows, BatchId) && k < |rows| && Own(locationId, line.productId)(rows[k])
    ensures
      var before := Removed(rows, locationId, front, rule, now);
      var a, b := SumBy(front, Takes(line.productId)), Max(line.quantity, 0.0);
      var own := Filter(rows, Own(locationId, line.productId));
      Taken(Parts(own, a + b, rule, now), rows[k].id) ==
        Taken(Parts(own, a, rule, now), rows[k].id)
        + Taken(Parts(Filter(before, Own(locationId, line.productId)), line.quantity, rule, now), rows[k].id)
    decreases |front|, 1
  {
    hide RemoveLine, Parts, Distinct, Removed, SumBy, Filter, MapSeq, Taken;
    var p := line.productId;
    var before := Removed(rows, locationId, front, rule, now);
    var a, b := SumBy(front, Takes(p)), Max(line.quantity, 0.0);
    var own := Filter(rows, Own(locationId, p));
    SumByNonNegative(front, Takes(p));
    RemovedIsTable(rows, locationId, front, rule, now);
    forall i | 0 <= i < |rows| && Own(locationId, p)(rows[i])
      ensures before[i] == Less(Parts(own, a, rule, now))(rows[i])
    {
      SeveralLinesAreOne(rows, locationId, front, rule, now, i);
      LineAt(rows, locationId, Line(p, a), rule, now, i);
    }
    FilterPointwise(rows, before, Own(locationId, p), Less(Parts(own, a, rule, now)));
    DistinctFilter(rows, BatchId, Own(locationId, p));
    PartsTwice(own, a, b, rule, now, rows[k]);
    if line.quantity <= 0.0 {
      NothingDrawn(Filter(before, Own(locationId, p)), line.quantity, rule, now, rows[k].id);
      NothingDrawn(Filter(before, Own(locationId, p)), b, rule, now, rows[k].id);
    }
  }

  // ------------------------------------------------------------- the statement

  function Asked(lines: seq<Line>): set<string> {
    set l | l in lines && l.quantity > 0.0 :: l.productId
  }

  function Stocked(locationId: string, productIds: set<string>): Batch -> bool {
    (b: Batch) => b.locationId == locationId && b.productId in productIds && b.quantity > 0.0
  }

  function OfProduct(productId: string): Batch -> bool {
    (b: Batch) => b.productId == productId
  }

  /** The batches with what is still left of them. */
  function Left(remaining: map<string, real>): Batch -> Batch {
    (b: Batch) => b.(quantity := if b.id in remaining then remaining[b.id] else 0.0)
  }

  method GroupByProduct(batches: seq<Batch>) returns (m: seq<(string, seq<Batch>)>)
    ensures forall p :: GetOr(m, p, []) == Filter(batches, OfProduct(p))
  {
    m := [];
    var i := 0;
    while i < |batches|
      invariant i <= |batches|
      invariant forall p :: GetOr(m, p, []) == Filter(batches[..i], OfProduct(p))
    {
      var productId, before := batches[i].productId, m;
      m := Set(m, productId, GetOr(m, productId, []) + [batches[i]]);
      forall p
        ensures GetOr(m, p, []) == Filter(batches[..i + 1], OfProduct(p))
      {
        GetSet(before, productId, GetOr(before, productId, []) + [batches[i]], p);
        FilterAppend(batches[..i], batches[i], OfProduct(p));
        assert batches[..i + 1] == batches[..i] + [batches[i]];
      }
      i := i + 1;
    }
    assert batches[..i] == batches;
  }

  lemma {:induction false} FilterAppend(s: seq<Batch>, x: Batch, p: Batch -> bool)
    ensures Filter(s + [x], p) == Filter(s, p) + if p(x) then [x] else []
  {
    if s == [] {
      assert s + [x] == [x] && [x][1..] == s;
    } else {
      assert (s + [x])[1..] == s[1..] + [x];
      FilterAppend(s[1..], x, p);
    }
  }

  /** `rows` is the table now, `before` the table the batches were read from, `remaining` the map
      the loop keeps: it holds the quantity of every batch that was read. */
  ghost predicate Tracks(before: seq<Batch>, rows: seq<Batch>, remaining: map<string, real>, read: Batch -> bool) {
    && |rows| == |before| && Distinct(rows, BatchId)
    && forall k :: 0 <= k < |rows| ==>
         && rows[k] == before[k].(quantity := rows[k].quantity)
         && (before[k].id in remaining <==> read(before[k]))
         && (if read(before[k]) then remaining[before[k].id] == rows[k].quantity else rows[k] == before[k])
  }

  function Kept(remaining: map<string, real>): Batch -> bool {
    (b: Batch) => b.id in remaining
  }

  /** What the loop rebuilds from the map is what the table holds. */
  lemma {:induction false} Rebuilt(
    before: seq<Batch>, rows: seq<Batch>, remaining: map<string, real>, locationId: string, productIds: set<string>,
      p: string)
    requires Tracks(before, rows, remaining, Stocked(locationId, productIds)) && p in productIds
    ensures
      MapSeq(Filter(Filter(before, Stocked(locationId, productIds)), OfProduct(p)), Left(remaining)) ==
      Filter(Filter(rows, Own(locationId, p)), Kept(remaining))
  {
    if before != [] {
      var read := Stocked(locationId, productIds);
      assert Tracks(before[1..], rows[1..], remaining, read);
      Rebuilt(before[1..], rows[1..], remaining, locationId, productIds, p);
      if read(before[0]) {
        assert Filter(before, read)[1..] == Filter(before[1..], read);
        if p == before[0].productId {
          assert Filter(Filter(before, read), OfProduct(p))[1..] == Filter(Filter(before[1..], read), OfProduct(p));
        }
      }
      if Own(locationId, p)(rows[0]) {
        assert Filter(rows, Own(locationId, p))[1..] == Filter(rows[1..], Own(locationId, p));
      }
    }
  }

  lemma {:induction false} FiltersSwap(s: seq<Batch>, p: Batch -> bool, q: Batch -> bool)
    ensures Filter(Filter(s, p), q) == Filter(Filter(s, q), p)
  {
    if s != [] {
      FiltersSwap(s[1..], p, q);
      if p(s[0]) {
        assert Filter(s, p)[1..] == Filter(s[1..], p);
      }
      if q(s[0]) {
        assert Filter(s, q)[1..] == Filter(s[1..], q);
      }
    }
  }

  /** Empty batches may be left out of the search. */
  lemma EmptyOnesDoNotMatter(batches: seq<Batch>, keep: Batch -> bool, requested: real, rule: Rule, now: int)
    requires forall b :: b in batches && !keep(b) ==> b.quantity <= 0.0
    ensures Parts(Filter(batches, keep), requested, rule, now) == Parts(batches, requested, rule, now)
  {
    hide StableSort, Draw, Filter;
    SoonestFirstIsAnOrder();
    FiltersSwap(batches, keep, Fresh(now));
    var drawn := if rule.GoodFirst? then Filter(batches, Fresh(now)) else batches;
    SortFilter(drawn, SoonestFirst, keep);
    DrawSkips(StableSort(drawn, SoonestFirst), BatchId, Held, requested, keep);
  }

  lemma {:induction false} TakenAppend(parts: seq<Part>, part: Part, id: string)
    ensures Taken(parts + [part], id) == Taken(parts, id) + Taken([part], id)
  {
    if parts == [] {
      assert parts + [part] == [part];
    } else {
      assert (parts + [part])[1..] == parts[1..] + [part];
      TakenAppend(parts[1..], part, id);
    }
  }

  lemma LessAppend(rows: seq<Batch>, parts: seq<Part>, part: Part)
    ensures Decrement(MapSeq(rows, Less(parts)), part.id, part.quantity) == MapSeq(rows, Less(parts + [part]))
  {
    forall b | b in rows
      ensures Less([part])(Less(parts)(b)) == Less(parts + [part])(b)
    {
      TakenAppend(parts, part, b.id);
    }
    MapTwice(rows, Less(parts), Less([part]), Less(parts + [part]));
  }

  lemma MapTwice(rows: seq<Batch>, f: Batch -> Batch, g: Batch -> Batch, h: Batch -> Batch)
    requires forall b :: b in rows ==> g(f(b)) == h(b)
    ensures MapSeq(MapSeq(rows, f), g) == MapSeq(rows, h)
  {
    MapSeqAt(rows, f);
    MapSeqAt(MapSeq(rows, f), g);
    MapSeqAt(rows, h);
    forall i | 0 <= i < |rows|
      ensures MapSeq(MapSeq(rows, f), g)[i] == MapSeq(rows, h)[i]
    {
      assert rows[i] in rows;
    }
  }

  lemma LessNothing(rows: seq<Batch>)
    ensures MapSeq(rows, Less([])) == rows
  {
    MapSeqAt(rows, Less([]));
  }

  /** A line whose product has no stocked batch here takes nothing from the table. */
  lemma NothingToTake(rows: seq<Batch>, locationId: string, line: Line, rule: Rule, now: int)
    requires forall b :: b in rows && b.locationId == locationId && b.productId == line.productId ==> b.quantity <= 0.0
    ensures RemoveLine(rows, locationId, line, rule, now) == rows
  {
    var own := Filter(rows, Own(locationId, line.productId));
    forall b | b in own
      ensures b.quantity <= 0.0
    {
      assert Own(locationId, line.productId)(b);
    }
    AllEmpty(Ordered(own, rule, now), line.quantity);
    PartsAreDrawn(own, line.quantity, rule, now);
    LessNothing(rows);
  }

  lemma {:induction false} AllEmpty(items: seq<Batch>, requested: real)
    requires forall b :: b in items ==> b.quantity <= 0.0
    ensures Draw(items, BatchId, Held, requested) == []
  {
    if items != [] {
      AllEmpty(items[1..], requested);
    }
  }

  /** The line asks for the product of this batch, and the batch is at this location. */
  predicate AskedHere(line: Line, locationId: string, b: Batch) {
    line.quantity > 0.0 && b.locationId == locationId && b.productId == line.productId
  }

  lemma {:induction false} NoLineTakes(rows: seq<Batch>, locationId: string, lines: seq<Line>, rule: Rule, now: int)
    requires forall l, b :: l in lines && b in rows && AskedHere(l, locationId, b) ==> b.quantity <= 0.0
    ensures Removed(rows, locationId, lines, rule, now) == rows
  {
    if lines != [] {
      NoLineTakes(rows, locationId, lines[..|lines| - 1], rule, now);
      var line := lines[|lines| - 1];
      assert line in lines;
      if line.quantity > 0.0 {
        forall b | b in rows && b.locationId == locationId && b.productId == line.productId
          ensures b.quantity <= 0.0
        {
          assert AskedHere(line, locationId, b);
        }
        NothingToTake(rows, locationId, line, rule, now);
      }
    }
  }

  lemma NobodyStocked(rows: seq<Batch>, locationId: string, lines: seq<Line>, rule: Rule, now: int)
    requires Filter(rows, Stocked(locationId, Asked(lines))) == []
    ensures Removed(rows, locationId, lines, rule, now) == rows
  {
    forall l, b | l in lines && b in rows && AskedHere(l, locationId, b)
      ensures b.quantity <= 0.0
    {
      assert l.productId in Asked(lines);
      assert b !in Filter(rows, Stocked(locationId, Asked(lines)));
      assert !Stocked(locationId, Asked(lines))(b);
    }
    NoLineTakes(rows, locationId, lines, rule, now);
  }

  /** No batch of the product was read: those here are empty, then and now. */
  lemma NoneRead(
    before: seq<Batch>, rows: seq<Batch>, remaining: map<string, real>, locationId: string, productIds: set<string>,
    line: Line, rule: Rule, now: int)
    requires Tracks(before, rows, remaining, Stocked(locationId, productIds)) && line.productId in productIds
    requires Filter(Filter(before, Stocked(locationId, productIds)), OfProduct(line.productId)) == []
    ensures RemoveLine(rows, locationId, line, rule, now) == rows
  {
    hide RemoveLine, Distinct;
    var read := Stocked(locationId, productIds);
    forall b | b in rows && b.locationId == locationId && b.productId == line.productId
      ensures b.quantity <= 0.0
    {
      var k :| 0 <= k < |rows| && rows[k] == b;
      assert before[k] in before;
      assert before[k] !in Filter(Filter(before, read), OfProduct(line.productId));
      assert OfProduct(line.productId)(before[k]);
      assert !read(before[k]);
    }
    NothingToTake(rows, locationId, line, rule, now);
  }

  /** Drawing from the batches read is drawing from all batches of the product here. */
  lemma SameParts(
    before: seq<Batch>, rows: seq<Batch>, remaining: map<string, real>, locationId: string, productIds: set<string>,
    line: Line, rule: Rule, now: int)
    requires Tracks(before, rows, remaining, Stocked(locationId, productIds)) && line.productId in productIds
    ensures
      var available := MapSeq(Filter(Filter(before, Stocked(locationId, productIds)), OfProduct(line.productId)),
                              Left(remaining));
      && Parts(available, line.quantity, rule, now) ==
           Parts(Filter(rows, Own(locationId, line.productId)), line.quantity, rule, now)
      && (forall b :: b in available ==> b.id in remaining)
  {
    hide Parts, Distinct;
    var own := Filter(rows, Own(locationId, line.productId));
    Rebuilt(before, rows, remaining, locationId, productIds, line.productId);
    forall b | b in own && !Kept(remaining)(b)
      ensures b.quantity <= 0.0
    {
      assert b in rows && Own(locationId, line.productId)(b);
      var k :| 0 <= k < |rows| && rows[k] == b;
      assert !Stocked(locationId, productIds)(before[k]);
    }
    EmptyOnesDoNotMatter(own, Kept(remaining), line.quantity, rule, now);
    assert forall b :: b in Filter(own, Kept(remaining)) ==> Kept(remaining)(b);
  }

  lemma PartsKnown(available: seq<Batch>, remaining: map<string, real>, requested: real, rule: Rule, now: int,
      id: string)
    requires (forall b :: b in available ==> b.id in remaining) && id !in remaining
    ensures Taken(Parts(available, requested, rule, now), id) == 0.0
  {
    PartsAreDrawn(available, requested, rule, now);
    forall b | b in Ordered(available, rule, now)
      ensures b.id != id
    {
      assert b in available;
    }
    NotDrawn(available, requested, rule, now, id);
  }

  lemma PartsAreKnown(available: seq<Batch>, remaining: map<string, real>, requested: real, rule: Rule, now: int)
    requires forall b :: b in available ==> b.id in remaining
    ensures forall p :: p in Parts(available, requested, rule, now) ==> p.id in remaining
  {
    PartsAreDrawn(available, requested, rule, now);
    forall b | b in Ordered(available, rule, now)
      ensures b.id in remaining
    {
      assert b in available;
    }
    DrawnIds(Ordered(available, rule, now), remaining, requested);
  }

  lemma {:induction false} DrawnIds(items: seq<Batch>, remaining: map<string, real>, requested: real)
    requires forall b :: b in items ==> b.id in remaining
    ensures forall p :: p in Draw(items, BatchId, Held, requested) ==> p.id in remaining
  {
    if items != [] && requested > 0.0 {
      assert items[0] in items;
      DrawnIds(items[1..], remaining,
               if items[0].quantity <= 0.0 then requested else requested - Min(items[0].quantity, requested));
    }
  }

  /** After the parts are written to the table and to the map, the two still agree. */
  lemma TracksAfter(
    before: seq<Batch>, rows: seq<Batch>, remaining: map<string, real>, read: Batch -> bool,
    parts: seq<Part>, left: map<string, real>)
    requires Tracks(before, rows, remaining, read)
    requires forall id :: id !in remaining ==> Taken(parts, id) == 0.0
    requires left.Keys == remaining.Keys && forall id :: id in left ==> left[id] == remaining[id] - Taken(parts, id)
    ensures Tracks(before, MapSeq(rows, Less(parts)), left, read)
  {
    DistinctMap(rows, Less(parts), BatchId);
    MapSeqAt(rows, Less(parts));
  }

  lemma ReadOnce(rows: seq<Batch>, read: Batch -> bool)
    requires Distinct(rows, BatchId)
    ensures forall a, b :: a in Filter(rows, read) && b in Filter(rows, read) && a.id == b.id ==> a == b
  {
    forall a, b | a in Filter(rows, read) && b in Filter(rows, read) && a.id == b.id
      ensures a == b
    {
      SameKeySameElement(rows, BatchId, a, b);
    }
  }

  lemma TracksAtFirst(rows: seq<Batch>, remaining: map<string, real>, read: Batch -> bool)
    requires Distinct(rows, BatchId)
    requires forall b :: b in Filter(rows, read) ==> b.id in remaining && remaining[b.id] == b.quantity
    requires forall id :: id in remaining ==> exists b :: b in Filter(rows, read) && b.id == id
    ensures Tracks(rows, rows, remaining, read)
  {
    hide Distinct;
    forall k | 0 <= k < |rows|
      ensures rows[k].id in remaining <==> read(rows[k])
      ensures read(rows[k]) ==> remaining[rows[k].id] == rows[k].quantity
    {
      assert rows[k] in rows;
      if rows[k].id in remaining {
        var b :| b in Filter(rows, read) && b.id == rows[k].id;
        SameKeySameElement(rows, BatchId, b, rows[k]);
      }
    }
  }

  lemma OneLineMore(rows: seq<Batch>, locationId: string, lines: seq<Line>, i: nat, rule: Rule, now: int)
    requires i < |lines|
    ensures Removed(rows, locationId, lines[..i + 1], rule, now) ==
      RemoveLine(Removed(rows, locationId, lines[..i], rule, now), locationId, lines[i], rule, now)
  {
    assert lines[..i + 1][..i] == lines[..i];
  }

  lemma LineTakes(rows: seq<Batch>, locationId: string, line: Line, rule: Rule, now: int)
    ensures RemoveLine(rows, locationId, line, rule, now) ==
      if line.quantity <= 0.0 then rows
      else MapSeq(rows, Less(Parts(Filter(rows, Own(locationId, line.productId)), line.quantity, rule, now)))
  {
  }

  /** `new Map(batches.map(...))`: every batch read, by id, with its quantity. */
  method QuantitiesRead(batches: seq<Batch>, ghost rows: seq<Batch>, ghost read: Batch -> bool)
    returns (remaining: map<string, real>)
    requires Distinct(rows, BatchId) && batches == Filter(rows, read)
    ensures Tracks(rows, rows, remaining, read)
  {
    hide Distinct, Tracks, Filter;
    ReadOnce(rows, read);
    remaining := map b | b in batches :: b.id := b.quantity;
    TracksAtFirst(rows, remaining, read);
  }

  class BatchTable {
    var rows: seq<Batch>

    constructor (rows: seq<Batch>)
      ensures this.rows == rows
    {
      this.rows := rows;
    }

    /** Takes the goods of every line from the batches of their products at one location, at one
        moment for the whole call. */
    method RemoveFromBatches(locationId: string, lines: seq<Line>, rule: Rule, now: int)
      requires Distinct(rows, BatchId)
      modifies this
      ensures rows == Removed(old(rows), locationId, lines, rule, now)
    {
      hide *;
      var productIds := Asked(lines);
      var batches := Filter(rows, Stocked(locationId, productIds));
      if batches == [] {
        NobodyStocked(rows, locationId, lines, rule, now);
        return;
      }
      var byProduct := GroupByProduct(batches);
      ghost var before := rows;
      var remaining := QuantitiesRead(batches, rows, Stocked(locationId, productIds));
      NoLines(rows, locationId, rule, now);
      var i := 0;
      while i < |lines|
        invariant i <= |lines|
        invariant rows == Removed(before, locationId, lines[..i], rule, now)
        invariant Tracks(before, rows, remaining, Stocked(locationId, productIds))
      {
        var line := lines[i];
        OneLineMore(before, locationId, lines, i, rule, now);
        LineTakes(rows, locationId, line, rule, now);
        i := i + 1;
        if line.quantity <= 0.0 {
          continue;
        }
        AskedLine(lines, line);
        GetOrSplit(byProduct, line.productId);
        var productBatches := Get(byProduct, line.productId);
        if productBatches.None? {
          NoneRead(before, rows, remaining, locationId, productIds, line, rule, now);
          continue;
        }
        SameParts(before, rows, remaining, locationId, productIds, line, rule, now);
        remaining := TakeFrom(MapSeq(productBatches.value, Left(remaining)), line.quantity, rule, now, remaining,
                              before, Stocked(locationId, productIds));
      }
      assert lines[..i] == lines;
    }

    /** One line of the call: the rule allocates, and every allocation is written to the map and to its row. */
    method TakeFrom(
      available: seq<Batch>, quantity: real, rule: Rule, now: int, remaining: map<string, real>,
      ghost before: seq<Batch>, ghost read: Batch -> bool)
      returns (left: map<string, real>)
      requires Tracks(before, rows, remaining, read)
      requires forall b :: b in available ==> b.id in remaining
      modifies this
      ensures rows == MapSeq(old(rows), Less(Parts(available, quantity, rule, now)))
      ensures Tracks(before, rows, left, read)
    {
      hide Tracks, Ordered, Draw;
      var allocations;
      if rule == GoodFirst {
        var shortage;
        allocations, shortage := AllocateFefo(quantity, available, now);
      } else {
        allocations := AllocateForRemoval(quantity, available);
      }
      forall id | id !in remaining
        ensures Taken(allocations, id) == 0.0
      {
        PartsKnown(available, remaining, quantity, rule, now, id);
      }
      PartsAreKnown(available, remaining, quantity, rule, now);
      left := Write(allocations, remaining);
      TracksAfter(before, old(rows), remaining, read, allocations, left);
    }

    method Write(allocations: seq<Part>, remaining: map<string, real>) returns (left: map<string, real>)
      requires forall p :: p in allocations ==> p.id in remaining
      modifies this
      ensures rows == MapSeq(old(rows), Less(allocations))
      ensures left.Keys == remaining.Keys
      ensures forall id :: id in left ==> left[id] == remaining[id] - Taken(allocations, id)
    {
      left := remaining;
      LessNothing(rows);
      var j := 0;
      while j < |allocations|
        invariant j <= |allocations|
        invariant rows == MapSeq(old(rows), Less(allocations[..j]))
        invariant left.Keys == remaining.Keys
        invariant forall id :: id in left ==> left[id] == remaining[id] - Taken(allocations[..j], id)
      {
        var alloc := allocations[j];
        assert allocations[..j + 1] == allocations[..j] + [alloc];
        LessAppend(old(rows), allocations[..j], alloc);
        forall id
          ensures Taken(allocations[..j + 1], id) == Taken(allocations[..j], id)
            + if id == alloc.id then alloc.quantity else 0.0
        {
          TakenAppend(allocations[..j], alloc, id);
          assert [alloc][1..] == [];
        }
        left := left[alloc.id := left[alloc.id] - alloc.quantity];
        rows := Decrement(rows, alloc.id, alloc.quantity);
        j := j + 1;
      }
      assert allocations[..j] == allocations;
    }
  }

  lemma NoLines(rows: seq<Batch>, locationId: string, rule: Rule, now: int)
    ensures Removed(rows, locationId, [], rule, now) == rows
  {
  }

  lemma AskedLine(lines: seq<Line>, line: Line)
    requires line in lines && line.quantity > 0.0
    ensures line.productId in Asked(lines)
  {
  }

  lemma GetOrSplit(m: seq<(string, seq<Batch>)>, key: string)
    ensures GetOr(m, key, []) == if Get(m, key).Some? then Get(m, key).value else []
  {
  }

  // ---------------------------------------------------- batches against stock

  /** What one product's batches hold at one location. */
  function Batched(rows: seq<Batch>, locationId: string, productId: string): real {
    Tracked(Filter(rows, Own(locationId, productId)))
  }

  ghost predicate NoneNegative(rows: seq<Batch>) {
    forall b :: b in rows ==> b.quantity >= 0.0
  }

  /** What a line takes from the batches of its own product, and from no other. */
  lemma BatchedAfter(rows: seq<Batch>, locationId: string, line: Line, rule: Rule, now: int, l: string, p: string)
    requires Distinct(rows, BatchId) && NoneNegative(rows) && line.quantity > 0.0
    ensures
      var own := Filter(rows, Own(locationId, line.productId));
      Batched(RemoveLine(rows, locationId, line, rule, now), l, p) == Batched(rows, l, p) -
        if (l, p) != (locationId, line.productId) then 0.0
        else if rule.GoodFirst? then Min(line.quantity, Tracked(Filter(own, Fresh(now))))
        else Min(line.quantity, Tracked(own))
    ensures NoneNegative(RemoveLine(rows, locationId, line, rule, now))
  {
    hide Distinct, Parts, Filter, SumBy;
    var own := Filter(rows, Own(locationId, line.productId));
    var parts := Parts(own, line.quantity, rule, now);
    MapOwn(rows, Less(parts), Own(l, p));
    DistinctFilter(rows, BatchId, Own(locationId, line.productId));
    forall b | b in rows
      ensures 0.0 <= Taken(parts, b.id) <= b.quantity
      ensures !Own(locationId, line.productId)(b) ==> Taken(parts, b.id) == 0.0
    {
      PartOf(rows, own, locationId, line, rule, now, b);
    }
    MapSeqAt(rows, Less(parts));
    TakenFrom(Filter(rows, Own(l, p)), parts);
    if (l, p) == (locationId, line.productId) {
      PartsTotal(own, line.quantity, rule, now);
      forall b | b in own
        ensures b in rows
      {
      }
      TotalTaken(line.quantity, own, now);
      PartsByRule(own, line.quantity, rule, now);
    } else {
      forall b | b in Filter(rows, Own(l, p))
        ensures OnRow(BatchId, AsPlan(parts))(b) == 0.0
      {
        assert Own(l, p)(b) && !Own(locationId, line.productId)(b);
      }
      NothingInAll(Filter(rows, Own(l, p)), OnRow(BatchId, AsPlan(parts)));
    }
  }

  lemma PartsByRule(own: seq<Batch>, requested: real, rule: Rule, now: int)
    ensures Parts(own, requested, rule, now)
      == if rule.GoodFirst? then Fefo(requested, own, now) else ForRemoval(requested, own)
  {
  }

  lemma {:induction false} NothingInAll(rows: seq<Batch>, f: Batch -> real)
    requires forall b :: b in rows ==> f(b) == 0.0
    ensures SumBy(rows, f) == 0.0
  {
    if rows != [] {
      NothingInAll(rows[1..], f);
    }
  }

  /** A row loses no more than it holds, and a row of another product nothing. */
  lemma PartOf(
    rows: seq<Batch>, own: seq<Batch>, locationId: string, line: Line, rule: Rule, now: int, b: Batch)
    requires Distinct(rows, BatchId) && NoneNegative(rows) && b in rows
    requires own == Filter(rows, Own(locationId, line.productId))
    ensures 0.0 <= Taken(Parts(own, line.quantity, rule, now), b.id) <= b.quantity
    ensures b !in own ==> Taken(Parts(own, line.quantity, rule, now), b.id) == 0.0
  {
    hide Distinct, Parts, Ordered, Draw, Taken, MapSeq, Filter, StableSort;
    DistinctFilter(rows, BatchId, Own(locationId, line.productId));
    OrderedIsTable(own, rule, now);
    PartsAreDrawn(own, line.quantity, rule, now);
    var items := Ordered(own, rule, now);
    if b in items {
      TakenBounds(items, BatchId, Held, line.quantity, b);
    } else {
      AbsentById(rows, items, b);
      NotDrawn(own, line.quantity, rule, now, b.id);
    }
  }

  lemma {:induction false} TakenFrom(rows: seq<Batch>, parts: seq<Part>)
    ensures Tracked(MapSeq(rows, Less(parts))) == Tracked(rows) - SumBy(rows, OnRow(BatchId, AsPlan(parts)))
  {
    if rows != [] {
      TakenFrom(rows[1..], parts);
      assert MapSeq(rows, Less(parts))[1..] == MapSeq(rows[1..], Less(parts));
    }
  }

  /** Row by row or in all, the same is taken. */
  lemma PartsTotal(own: seq<Batch>, requested: real, rule: Rule, now: int)
    requires Distinct(own, BatchId)
    ensures
      var parts := Parts(own, requested, rule, now);
      SumBy(own, OnRow(BatchId, AsPlan(parts))) == SumBy(parts, Quantity)
  {
    hide Distinct, Draw, Taken, SumBy, StableSort;
    var parts, items := Parts(own, requested, rule, now), Ordered(own, rule, now);
    var plan := OnRow(BatchId, AsPlan(parts));
    OrderedFacts(own, rule, now, Less([]));
    PlanTotal(items, BatchId, Held, requested);
    if rule.GoodFirst? {
      forall b | b in own && !Fresh(now)(b)
        ensures plan(b) == 0.0
      {
        AbsentById(own, items, b);
        NotDrawn(own, requested, rule, now, b.id);
      }
      SumByFilter(own, Fresh(now), plan);
      SumBySort(Filter(own, Fresh(now)), SoonestFirst, plan);
    } else {
      SumBySort(own, SoonestFirst, plan);
    }
  }
}
