/** Picking an order rack by rack and shipping what was found (apps/api/src/picking.ts). */
module Picking {
  import opened Lists
  import opened JsMap
  import opened Requests

  datatype OrderedLine = OrderedLine(productId: string, quantity: real, pickedQuantity: Option<real>, onHand: real)

  datatype PickedLine = PickedLine(productId: string, quantity: real)

  datatype ResolvedPick = ResolvedPick(productId: string, ordered: real, picked: real, shortfall: real, touched: bool)

  datatype PickResolution =
    | Picked(lines: seq<ResolvedPick>, complete: bool, shortfall: real)
    | Empty
    | NotOrdered(productId: string)
    | MoreThanOrdered(productId: string, ordered: real)
    | NotOnShelf(productId: string, onHand: real)
    | NegativeQuantity

  const ProductOf: OrderedLine -> string := (l: OrderedLine) => l.productId

  const Shortfall: ResolvedPick -> real := (l: ResolvedPick) => l.shortfall

  const PickedAmount: ResolvedPick -> real := (l: ResolvedPick) => l.picked

  const Ordered: ResolvedPick -> real := (l: ResolvedPick) => l.ordered

  /** The order line the picker's product resolves to: the last one wins. */
  function OrderLineFor(ordered: seq<OrderedLine>, productId: string): Option<OrderedLine> {
    if ordered == [] then None
    else if ordered[|ordered| - 1].productId == productId then Some(ordered[|ordered| - 1])
    else OrderLineFor(ordered[..|ordered| - 1], productId)
  }

  /** The request added up per product, or nothing when a quantity is negative. */
  function Wanted(picked: seq<PickedLine>): Option<seq<(string, real)>> {
    if picked == [] then Some([])
    else
      match Wanted(picked[..|picked| - 1])
      case None => None
      case Some(m) =>
        var line := picked[|picked| - 1];
        if line.quantity < 0.0 then None
        else Some(Set(m, line.productId, GetOr(m, line.productId, 0.0) + line.quantity))
  }

  /** The first objection to the request, in the order it was written. */
  function Objection(ordered: seq<OrderedLine>, wanted: seq<(string, real)>): (refusal: Option<PickResolution>)
    ensures refusal.Some? ==> refusal.value.NotOrdered? || refusal.value.MoreThanOrdered? || refusal.value.NotOnShelf?
  {
    if wanted == [] then None
    else
      match OrderLineFor(ordered, wanted[0].0)
      case None => Some(NotOrdered(wanted[0].0))
      case Some(line) =>
        if wanted[0].1 > line.quantity then Some(MoreThanOrdered(wanted[0].0, line.quantity))
        else if wanted[0].1 > line.onHand then Some(NotOnShelf(wanted[0].0, line.onHand))
        else Objection(ordered, wanted[1..])
  }

  function ResolveLine(line: OrderedLine, wanted: seq<(string, real)>): ResolvedPick {
    var submitted := Has(wanted, line.productId);
    var pickedNow :=
      if submitted then Get(wanted, line.productId).value
      else if line.pickedQuantity.Some? then line.pickedQuantity.value else 0.0;
    ResolvedPick(line.productId, line.quantity, pickedNow, Max(line.quantity - pickedNow, 0.0),
                 submitted || line.pickedQuantity.Some?)
  }

  function ResolveLines(ordered: seq<OrderedLine>, wanted: seq<(string, real)>): seq<ResolvedPick> {
    if ordered == [] then [] else [ResolveLine(ordered[0], wanted)] + ResolveLines(ordered[1..], wanted)
  }

  function Resolve(ordered: seq<OrderedLine>, picked: seq<PickedLine>): PickResolution {
    if picked == [] then Empty
    else
      match Wanted(picked)
      case None => NegativeQuantity
      case Some(wanted) =>
        match Objection(ordered, wanted)
        case Some(refusal) => refusal
        case None =>
          var lines := ResolveLines(ordered, wanted);
          Picked(lines, SumBy(lines, Shortfall) == 0.0, SumBy(lines, Shortfall))
  }

  method ResolvePick(ordered: seq<OrderedLine>, picked: seq<PickedLine>) returns (result: PickResolution)
    ensures result == Resolve(ordered, picked)
  {
    if picked == [] {
      return Empty;
    }
    var wanted: seq<(string, real)> := [];
    var i := 0;
    while i < |picked|
      invariant i <= |picked|
      invariant Wanted(picked[..i]) == Some(wanted)
    {
      assert picked[..i + 1][..i] == picked[..i];
      if picked[i].quantity < 0.0 {
        NegativeStays(picked, i + 1);
        return NegativeQuantity;
      }
      wanted := Set(wanted, picked[i].productId, GetOr(wanted, picked[i].productId, 0.0) + picked[i].quantity);
      i := i + 1;
    }
    assert picked[..i] == picked;
    i := 0;
    while i < |wanted|
      invariant i <= |wanted|
      invariant Objection(ordered, wanted) == Objection(ordered, wanted[i..])
    {
      assert wanted[i..][1..] == wanted[i + 1..];
      match OrderLineFor(ordered, wanted[i].0) {
        case None =>
          return NotOrdered(wanted[i].0);
        case Some(line) =>
          if wanted[i].1 > line.quantity {
            return MoreThanOrdered(wanted[i].0, line.quantity);
          }
          if wanted[i].1 > line.onHand {
            return NotOnShelf(wanted[i].0, line.onHand);
          }
      }
      i := i + 1;
    }
    var lines := ResolveLines(ordered, wanted);
    result := Picked(lines, SumBy(lines, Shortfall) == 0.0, SumBy(lines, Shortfall));
  }

  lemma {:induction false} NegativeStays(picked: seq<PickedLine>, k: nat)
    requires k <= |picked| && Wanted(picked[..k]).None?
    ensures Wanted(picked).None?
    decreases |picked| - k
  {
    if k < |picked| {
      assert picked[..k + 1][..k] == picked[..k];
      NegativeStays(picked, k + 1);
    } else {
      assert picked[..k] == picked;
    }
  }

  // -------------------------------------------------------------- shipping

  datatype ShipResolution =
    | Shipped(lines: seq<ResolvedPick>, shipped: real, released: real)
    | NothingPicked

  const Found: ResolvedPick -> bool := (l: ResolvedPick) => l.picked > 0.0

  function ResolveShipment(lines: seq<ResolvedPick>): ShipResolution {
    var shipped := SumBy(lines, PickedAmount);
    if shipped == 0.0 then NothingPicked
    else Shipped(Filter(lines, Found), shipped, SumBy(lines, Shortfall))
  }

  // ------------------------------------------------------ whole pick histories

  /** An accepted pick writes back the lines somebody looked at; a refused one changes nothing. */
  function Stored(ordered: seq<OrderedLine>, lines: seq<ResolvedPick>): seq<OrderedLine>
    requires |ordered| == |lines|
  {
    if ordered == [] then []
    else
      [if lines[0].touched then ordered[0].(pickedQuantity := Some(lines[0].picked)) else ordered[0]]
      + Stored(ordered[1..], lines[1..])
  }

  lemma {:induction false} ResolveLinesLength(ordered: seq<OrderedLine>, wanted: seq<(string, real)>)
    ensures |ResolveLines(ordered, wanted)| == |ordered|
  {
    if ordered != [] {
      ResolveLinesLength(ordered[1..], wanted);
    }
  }

  function PickStep(ordered: seq<OrderedLine>, picked: seq<PickedLine>): seq<OrderedLine> {
    match Resolve(ordered, picked)
    case Picked(lines, _, _) => ResolveLinesLength(ordered, Wanted(picked).value); Stored(ordered, lines)
    case _ => ordered
  }

  /** One visit to the shelves: what is there at the time, and what the picker writes down. */
  datatype Visit = Visit(onHand: string -> real, request: seq<PickedLine>)

  function OnShelf(onHand: string -> real): OrderedLine -> OrderedLine {
    (l: OrderedLine) => l.(onHand := onHand(l.productId))
  }

  /** The order after a series of visits, each of which reads the shelves anew. */
  function PickRun(ordered: seq<OrderedLine>, visits: seq<Visit>): seq<OrderedLine>
    decreases |visits|
  {
    if visits == [] then ordered
    else PickRun(PickStep(MapSeq(ordered, OnShelf(visits[0].onHand)), visits[0].request), visits[1..])
  }

  /** A series of visits is its visits, one after another. */
  lemma {:induction false} PickRunIsItsVisits(ordered: seq<OrderedLine>, visits: seq<Visit>, visit: Visit)
    ensures PickRun(ordered, []) == ordered
    ensures PickRun(ordered, visits + [visit])
      == PickStep(MapSeq(PickRun(ordered, visits), OnShelf(visit.onHand)), visit.request)
    decreases |visits|
  {
    hide PickStep;
    if visits == [] {
      assert [] + [visit] == [visit] && [visit][1..] == [];
    } else {
      assert (visits + [visit])[0] == visits[0] && (visits + [visit])[1..] == visits[1..] + [visit];
      PickRunIsItsVisits(PickStep(MapSeq(ordered, OnShelf(visits[0].onHand)), visits[0].request), visits[1..], visit);
    }
  }

  /** The lines a shipment is resolved from: a line nobody looked at ships in full. */
  function ToShip(ordered: seq<OrderedLine>): seq<ResolvedPick> {
    if ordered == [] then []
    else
      var line := ordered[0];
      var picked := if line.pickedQuantity.Some? then line.pickedQuantity.value else line.quantity;
      [ResolvedPick(line.productId, line.quantity, picked, Max(line.quantity - picked, 0.0), line.pickedQuantity.Some?)]
      + ToShip(ordered[1..])
  }

  predicate Within(line: OrderedLine) {
    line.pickedQuantity.Some? ==> 0.0 <= line.pickedQuantity.value <= line.quantity
  }

  lemma {:induction false} WantedFacts(picked: seq<PickedLine>)
    requires Wanted(picked).Some?
    ensures Keyed(Wanted(picked).value)
    ensures forall e :: e in Wanted(picked).value ==> e.1 >= 0.0
  {
    if picked != [] {
      hide Keyed, Set, Get;
      var before := picked[..|picked| - 1];
      WantedFacts(before);
      var m := Wanted(before).value;
      var line := picked[|picked| - 1];
      GetEntry(m, line.productId);
      if Has(m, line.productId) {
        assert (line.productId, Get(m, line.productId).value) in m;
      }
      SetKeyed(m, line.productId, GetOr(m, line.productId, 0.0) + line.quantity);
    }
  }

  lemma {:induction false} NoObjection(ordered: seq<OrderedLine>, wanted: seq<(string, real)>)
    requires Objection(ordered, wanted).None?
    ensures forall e :: e in wanted ==>
      OrderLineFor(ordered, e.0).Some? && e.1 <= OrderLineFor(ordered, e.0).value.quantity
  {
    if wanted != [] {
      NoObjection(ordered, wanted[1..]);
    }
  }

  lemma {:induction false} OwnLine(ordered: seq<OrderedLine>, line: OrderedLine)
    requires Distinct(ordered, ProductOf) && line in ordered
    ensures OrderLineFor(ordered, line.productId) == Some(line)
  {
    var last := ordered[|ordered| - 1];
    if last.productId == line.productId {
      SameKeySameElement(ordered, ProductOf, last, line);
    } else {
      var before := ordered[..|ordered| - 1];
      assert ordered == before + [last];
      DistinctPrefix(before, last, ProductOf);
      OwnLine(before, line);
    }
  }

  lemma {:induction false} StoredFacts(ordered: seq<OrderedLine>, wanted: seq<(string, real)>)
    requires forall l :: l in ordered ==> Within(l)
    requires forall l ::
      l in ordered && Has(wanted, l.productId) ==> 0.0 <= Get(wanted, l.productId).value <= l.quantity
    requires |ResolveLines(ordered, wanted)| == |ordered|
    ensures
      var after := Stored(ordered, ResolveLines(ordered, wanted));
      && |after| == |ordered|
      && forall i :: 0 <= i < |ordered| ==>
           Within(after[i]) && after[i].productId == ordered[i].productId && after[i].quantity == ordered[i].quantity
  {
    if ordered != [] {
      assert ordered[0] in ordered && forall l :: l in ordered[1..] ==> l in ordered;
      var lines := ResolveLines(ordered, wanted);
      assert lines[1..] == ResolveLines(ordered[1..], wanted);
      ResolveLinesLength(ordered[1..], wanted);
      StoredFacts(ordered[1..], wanted);
      assert Within(if lines[0].touched then ordered[0].(pickedQuantity := Some(lines[0].picked)) else ordered[0]);
    }
  }

  /** With one line per product, a pick never records more on a line than was ordered on it. */
  lemma PickStepStaysWithin(ordered: seq<OrderedLine>, picked: seq<PickedLine>)
    requires Distinct(ordered, ProductOf) && forall l :: l in ordered ==> Within(l)
    ensures
      var after := PickStep(ordered, picked);
      && |after| == |ordered| && (forall l :: l in after ==> Within(l))
      && forall i :: 0 <= i < |ordered| ==>
           after[i].productId == ordered[i].productId && after[i].quantity == ordered[i].quantity
  {
    if Resolve(ordered, picked).Picked? {
      var wanted := Wanted(picked).value;
      WantedFacts(picked);
      NoObjection(ordered, wanted);
      forall l | l in ordered && Has(wanted, l.productId)
        ensures 0.0 <= Get(wanted, l.productId).value <= l.quantity
      {
        GetEntry(wanted, l.productId);
        assert (l.productId, Get(wanted, l.productId).value) in wanted;
        OwnLine(ordered, l);
      }
      ResolveLinesLength(ordered, wanted);
      StoredFacts(ordered, wanted);
    }
  }

  lemma {:induction false} PickRunStaysWithin(ordered: seq<OrderedLine>, visits: seq<Visit>)
    requires Distinct(ordered, ProductOf) && forall l :: l in ordered ==> Within(l)
    ensures
      var after := PickRun(ordered, visits);
      && |after| == |ordered| && (forall l :: l in after ==> Within(l))
      && forall i :: 0 <= i < |ordered| ==> after[i].quantity == ordered[i].quantity
    decreases |visits|
  {
    hide PickStep;
    if visits != [] {
      var seen := MapSeq(ordered, OnShelf(visits[0].onHand));
      MapSeqAt(ordered, OnShelf(visits[0].onHand));
      DistinctMap(ordered, OnShelf(visits[0].onHand), ProductOf);
      forall l | l in seen
        ensures Within(l)
      {
        var i :| 0 <= i < |seen| && seen[i] == l;
        assert ordered[i] in ordered;
      }
      var next := PickStep(seen, visits[0].request);
      PickStepStaysWithin(seen, visits[0].request);
      SameKeysDistinct(seen, next, ProductOf);
      PickRunStaysWithin(next, visits[1..]);
    }
  }

  /** What leaves and what is let go of add up to the order, and exactly when no line holds
      more picked than ordered: the excess is what breaks the sum. */
  lemma {:induction false} ShippedAndReleased(ordered: seq<OrderedLine>)
    requires forall l :: l in ordered ==> l.pickedQuantity.Some? ==> l.pickedQuantity.value >= 0.0
    ensures
      var lines := ToShip(ordered);
      && SumBy(lines, PickedAmount) + SumBy(lines, Shortfall) >= SumBy(lines, Ordered)
      && (SumBy(lines, PickedAmount) + SumBy(lines, Shortfall) == SumBy(lines, Ordered)
          <==> forall l :: l in ordered ==> Within(l))
  {
    if ordered != [] {
      assert ordered[0] in ordered && forall l :: l in ordered[1..] ==> l in ordered;
      ShippedAndReleased(ordered[1..]);
      assert ToShip(ordered)[1..] == ToShip(ordered[1..]);
      assert forall l :: l in ordered <==> l == ordered[0] || l in ordered[1..];
    }
  }

  lemma {:induction false} ToShipOrdered(a: seq<OrderedLine>, b: seq<OrderedLine>)
    requires |a| == |b| && forall i :: 0 <= i < |a| ==> a[i].quantity == b[i].quantity
    ensures SumBy(ToShip(a), Ordered) == SumBy(ToShip(b), Ordered)
  {
    if a != [] {
      assert ToShip(a)[1..] == ToShip(a[1..]) && ToShip(b)[1..] == ToShip(b[1..]);
      ToShipOrdered(a[1..], b[1..]);
    }
  }

  /** One line per product: after any series of picks, refused or accepted, everything the
      order asked for either ships or stops being held. */
  lemma NothingIsLost(ordered: seq<OrderedLine>, visits: seq<Visit>)
    requires Distinct(ordered, ProductOf) && forall l :: l in ordered ==> l.pickedQuantity.None? && l.quantity > 0.0
    ensures
      var lines := ToShip(PickRun(ordered, visits));
      match ResolveShipment(lines)
      case Shipped(_, shipped, released) => shipped + released == SumBy(ToShip(ordered), Ordered)
      case NothingPicked => SumBy(lines, Shortfall) == SumBy(ToShip(ordered), Ordered)
  {
    var after := PickRun(ordered, visits);
    PickRunStaysWithin(ordered, visits);
    ShippedAndReleased(after);
    ToShipOrdered(ordered, after);
  }

  // --------------------------------------------- which picks are accepted

  /** How much of a product the picker wrote down, lines added up. */
  function AskedOf(productId: string): PickedLine -> real {
    (l: PickedLine) => if l.productId == productId then l.quantity else 0.0
  }

  predicate Names(picked: seq<PickedLine>, productId: string) {
    exists l :: l in picked && l.productId == productId
  }

  lemma {:induction false} WantedIffNoneNegative(picked: seq<PickedLine>)
    ensures Wanted(picked).Some? <==> forall l :: l in picked ==> l.quantity >= 0.0
  {
    if picked != [] {
      WantedIffNoneNegative(picked[..|picked| - 1]);
      assert forall l :: l in picked <==> l in picked[..|picked| - 1] || l == picked[|picked| - 1];
    }
  }

  lemma {:induction false} WantedAmounts(picked: seq<PickedLine>, productId: string)
    requires Wanted(picked).Some?
    ensures Has(Wanted(picked).value, productId) <==> Names(picked, productId)
    ensures GetOr(Wanted(picked).value, productId, 0.0) == SumBy(picked, AskedOf(productId))
  {
    hide Set;
    if picked != [] {
      var before, line := picked[..|picked| - 1], picked[|picked| - 1];
      assert picked == before + [line] && [line][1..] == [];
      WantedAmounts(before, productId);
      SumByConcat(before, [line], AskedOf(productId));
      GetSet(Wanted(before).value, line.productId, GetOr(Wanted(before).value, line.productId, 0.0) + line.quantity,
             productId);
    }
  }

  /** The order has a line of this product, and what was written down of it fits the line and the shelf. */
  ghost predicate Fits(ordered: seq<OrderedLine>, picked: seq<PickedLine>, productId: string) {
    exists l :: l in ordered && l.productId == productId
      && SumBy(picked, AskedOf(productId)) <= l.quantity && SumBy(picked, AskedOf(productId)) <= l.onHand
  }

  lemma {:induction false} NoObjectionIff(ordered: seq<OrderedLine>, wanted: seq<(string, real)>)
    ensures Objection(ordered, wanted).None? <==>
      forall e :: e in wanted ==>
        && OrderLineFor(ordered, e.0).Some?
        && e.1 <= OrderLineFor(ordered, e.0).value.quantity && e.1 <= OrderLineFor(ordered, e.0).value.onHand
  {
    if wanted != [] {
      NoObjectionIff(ordered, wanted[1..]);
      assert forall e :: e in wanted <==> e == wanted[0] || e in wanted[1..];
    }
  }

  lemma {:induction false} OrderLineMember(ordered: seq<OrderedLine>, productId: string)
    ensures OrderLineFor(ordered, productId).Some? ==>
      OrderLineFor(ordered, productId).value in ordered
      && OrderLineFor(ordered, productId).value.productId == productId
    ensures OrderLineFor(ordered, productId).None? ==> forall l :: l in ordered ==> l.productId != productId
  {
    if ordered != [] {
      OrderLineMember(ordered[..|ordered| - 1], productId);
      assert forall l :: l in ordered <==> l in ordered[..|ordered| - 1] || l == ordered[|ordered| - 1];
    }
  }

  lemma FitsIff(ordered: seq<OrderedLine>, picked: seq<PickedLine>, productId: string)
    requires Distinct(ordered, ProductOf)
    ensures Fits(ordered, picked, productId) <==>
      && OrderLineFor(ordered, productId).Some?
      && SumBy(picked, AskedOf(productId)) <= OrderLineFor(ordered, productId).value.quantity
      && SumBy(picked, AskedOf(productId)) <= OrderLineFor(ordered, productId).value.onHand
  {
    hide Distinct, SumBy;
    OrderLineMember(ordered, productId);
    if Fits(ordered, picked, productId) {
      var l :| l in ordered && l.productId == productId
        && SumBy(picked, AskedOf(productId)) <= l.quantity && SumBy(picked, AskedOf(productId)) <= l.onHand;
      OwnLine(ordered, l);
    }
  }

  /** A pick is accepted exactly when something was written down, nothing negative, and every product named is
      on the order, with no more than was ordered and than lies on the shelf. */
  lemma PickAcceptedIff(ordered: seq<OrderedLine>, picked: seq<PickedLine>)
    requires Distinct(ordered, ProductOf)
    ensures Resolve(ordered, picked).Picked? <==>
      && picked != [] && (forall l :: l in picked ==> l.quantity >= 0.0)
      && forall p :: Names(picked, p) ==> Fits(ordered, picked, p)
  {
    hide Wanted, Objection, OrderLineFor, Distinct, Fits, SumBy, Keyed, Get, Names;
    WantedIffNoneNegative(picked);
    if Wanted(picked).Some? {
      var wanted := Wanted(picked).value;
      WantedFacts(picked);
      NoObjectionIff(ordered, wanted);
      forall p
        ensures Names(picked, p) <==> Has(wanted, p)
        ensures Has(wanted, p) ==> (p, SumBy(picked, AskedOf(p))) in wanted
        ensures forall v :: (p, v) in wanted ==> Has(wanted, p) && v == SumBy(picked, AskedOf(p))
        ensures Fits(ordered, picked, p) <==>
          && OrderLineFor(ordered, p).Some?
          && SumBy(picked, AskedOf(p)) <= OrderLineFor(ordered, p).value.quantity
          && SumBy(picked, AskedOf(p)) <= OrderLineFor(ordered, p).value.onHand
      {
        WantedAmounts(picked, p);
        GetEntry(wanted, p);
        FitsIff(ordered, picked, p);
      }
      AllFitIff(ordered, picked, wanted);
    }
  }

  lemma AllFitIff(ordered: seq<OrderedLine>, picked: seq<PickedLine>, wanted: seq<(string, real)>)
    requires forall p :: Names(picked, p) <==> Has(wanted, p)
    requires forall p :: Has(wanted, p) ==> (p, SumBy(picked, AskedOf(p))) in wanted
    requires forall p, v :: (p, v) in wanted ==> Has(wanted, p) && v == SumBy(picked, AskedOf(p))
    requires forall p :: Fits(ordered, picked, p) <==>
      && OrderLineFor(ordered, p).Some?
      && SumBy(picked, AskedOf(p)) <= OrderLineFor(ordered, p).value.quantity
      && SumBy(picked, AskedOf(p)) <= OrderLineFor(ordered, p).value.onHand
    ensures (forall p :: Names(picked, p) ==> Fits(ordered, picked, p)) <==>
      forall e :: e in wanted ==>
        && OrderLineFor(ordered, e.0).Some?
        && e.1 <= OrderLineFor(ordered, e.0).value.quantity && e.1 <= OrderLineFor(ordered, e.0).value.onHand
  {
    hide OrderLineFor, Fits, SumBy, Get, Names;
    forall e | e in wanted
      ensures Has(wanted, e.0) && e.1 == SumBy(picked, AskedOf(e.0))
    {
      assert (e.0, e.1) in wanted;
    }
  }

  lemma {:induction false} StoredAt(ordered: seq<OrderedLine>, wanted: seq<(string, real)>)
    requires |ResolveLines(ordered, wanted)| == |ordered|
    ensures |Stored(ordered, ResolveLines(ordered, wanted))| == |ordered|
    ensures forall i :: 0 <= i < |ordered| ==>
      var line := ordered[i];
      && Stored(ordered, ResolveLines(ordered, wanted))[i] ==
           line.(pickedQuantity := if Has(wanted, line.productId) then Some(GetOr(wanted, line.productId, 0.0))
                                   else line.pickedQuantity)
      && ResolveLines(ordered, wanted)[i] == ResolveLine(line, wanted)
  {
    hide Get;
    if ordered != [] {
      var lines := ResolveLines(ordered, wanted);
      assert lines[1..] == ResolveLines(ordered[1..], wanted);
      ResolveLinesLength(ordered[1..], wanted);
      StoredAt(ordered[1..], wanted);
    }
  }

  /** What a pick writes: an accepted one records on each line that was named what was written down of it and
      leaves every other line as earlier picks left it; a refused one writes nothing. */
  lemma PickStepRecords(ordered: seq<OrderedLine>, picked: seq<PickedLine>)
    ensures !Resolve(ordered, picked).Picked? ==> PickStep(ordered, picked) == ordered
    ensures Resolve(ordered, picked).Picked? ==>
      && |PickStep(ordered, picked)| == |ordered|
      && forall i :: 0 <= i < |ordered| ==>
           var line := ordered[i];
           PickStep(ordered, picked)[i] ==
             line.(pickedQuantity := if Names(picked, line.productId) then Some(SumBy(picked, AskedOf(line.productId)))
                                     else line.pickedQuantity)
  {
    hide Wanted, Objection, ResolveLines, SumBy, Names, Stored;
    if Resolve(ordered, picked).Picked? {
      var wanted := Wanted(picked).value;
      ResolveLinesLength(ordered, wanted);
      StoredAt(ordered, wanted);
      forall p
        ensures Names(picked, p) <==> Has(wanted, p)
        ensures GetOr(wanted, p, 0.0) == SumBy(picked, AskedOf(p))
      {
        WantedAmounts(picked, p);
      }
    }
  }

  /** What an accepted pick reports: line by line what is picked so far and what is short, and whether the
      order is complete. */
  lemma PickReports(ordered: seq<OrderedLine>, picked: seq<PickedLine>)
    requires Resolve(ordered, picked).Picked?
    ensures
      var report := Resolve(ordered, picked);
      && |report.lines| == |ordered|
      && (forall i :: 0 <= i < |ordered| ==>
            var line, r := ordered[i], report.lines[i];
            && r.productId == line.productId && r.ordered == line.quantity
            && r.picked == (if Names(picked, line.productId) then SumBy(picked, AskedOf(line.productId))
                            else if line.pickedQuantity.Some? then line.pickedQuantity.value else 0.0)
            && r.shortfall == (if r.picked < r.ordered then r.ordered - r.picked else 0.0)
            && (r.touched <==> Names(picked, line.productId) || line.pickedQuantity.Some?))
      && (report.complete <==> forall r :: r in report.lines ==> r.picked >= r.ordered)
      && report.shortfall == SumBy(report.lines, Shortfall)
  {
    hide Wanted, Objection, ResolveLines, SumBy, Names, Get;
    var wanted := Wanted(picked).value;
    ResolveLinesLength(ordered, wanted);
    StoredAt(ordered, wanted);
    forall p
      ensures Names(picked, p) <==> Has(wanted, p)
      ensures GetOr(wanted, p, 0.0) == SumBy(picked, AskedOf(p))
    {
      WantedAmounts(picked, p);
    }
    NoneShortIff(ResolveLines(ordered, wanted));
  }

  lemma {:induction false} NoneShortIff(lines: seq<ResolvedPick>)
    requires forall r :: r in lines ==> r.shortfall == Max(r.ordered - r.picked, 0.0)
    ensures SumBy(lines, Shortfall) >= 0.0
    ensures SumBy(lines, Shortfall) == 0.0 <==> forall r :: r in lines ==> r.picked >= r.ordered
  {
    if lines != [] {
      assert lines[0] in lines && forall r :: r in lines[1..] ==> r in lines;
      NoneShortIff(lines[1..]);
      assert forall r :: r in lines <==> r == lines[0] || r in lines[1..];
    }
  }

  /** A refusal says something true of the request: which product, and why. */
  lemma RefusalIsTrue(ordered: seq<OrderedLine>, picked: seq<PickedLine>)
    ensures
      var r := Resolve(ordered, picked);
      && (r.Empty? <==> picked == [])
      && (r.NegativeQuantity? <==> exists l :: l in picked && l.quantity < 0.0)
      && (r.NotOrdered? ==> Names(picked, r.productId) && forall l :: l in ordered ==> l.productId != r.productId)
      && (r.MoreThanOrdered? ==>
            Names(picked, r.productId) && SumBy(picked, AskedOf(r.productId)) > r.ordered
            && exists l :: l in ordered && l.productId == r.productId && l.quantity == r.ordered)
      && (r.NotOnShelf? ==>
            Names(picked, r.productId) && SumBy(picked, AskedOf(r.productId)) > r.onHand
            && exists l :: l in ordered && l.productId == r.productId && l.onHand == r.onHand)
  {
    hide Wanted, OrderLineFor, Distinct, SumBy, Keyed, Get, Names, Objection;
    WantedIffNoneNegative(picked);
    if picked != [] && Wanted(picked).Some? {
      var wanted := Wanted(picked).value;
      WantedFacts(picked);
      if Objection(ordered, wanted).Some? {
        var e := ObjectedTo(ordered, wanted);
        OrderLineMember(ordered, e.0);
        WantedAmounts(picked, e.0);
        GetEntry(wanted, e.0);
        assert (e.0, e.1) in wanted;
      }
    }
  }

  lemma {:induction false} ObjectedTo(ordered: seq<OrderedLine>, wanted: seq<(string, real)>)
    returns (e: (string, real))
    requires Objection(ordered, wanted).Some?
    ensures e in wanted
    ensures
      var r, line := Objection(ordered, wanted).value, OrderLineFor(ordered, e.0);
      || (r == NotOrdered(e.0) && line.None?)
      || (line.Some? && r == MoreThanOrdered(e.0, line.value.quantity) && e.1 > line.value.quantity)
      || (line.Some? && r == NotOnShelf(e.0, line.value.onHand) && e.1 > line.value.onHand)
  {
    var first := OrderLineFor(ordered, wanted[0].0);
    if first.None? || wanted[0].1 > first.value.quantity || wanted[0].1 > first.value.onHand {
      e := wanted[0];
    } else {
      e := ObjectedTo(ordered, wanted[1..]);
    }
  }

  /** A shipment takes the lines something was found for, and there is none exactly when nothing was. */
  lemma ShipmentMeans(lines: seq<ResolvedPick>)
    requires forall l :: l in lines ==> l.picked >= 0.0
    ensures
      match ResolveShipment(lines)
      case NothingPicked => forall l :: l in lines ==> l.picked == 0.0
      case Shipped(shipped, amount, _) =>
        && (exists l :: l in lines && l.picked > 0.0) && amount == SumBy(shipped, PickedAmount)
        && forall l :: l in shipped <==> l in lines && l.picked > 0.0
  {
    if forall l :: l in lines ==> l.picked == 0.0 {
      AllZero(lines);
    } else {
      var l :| l in lines && l.picked != 0.0;
      SumByMember(lines, PickedAmount, l);
    }
    SumByFilter(lines, Found, PickedAmount);
  }

  lemma {:induction false} AllZero(lines: seq<ResolvedPick>)
    requires forall l :: l in lines ==> l.picked == 0.0
    ensures SumBy(lines, PickedAmount) == 0.0
  {
    if lines != [] {
      AllZero(lines[1..]);
    }
  }

  // --------------------------------------------------------- orders as stored

  function Placed(onHand: string -> real): SaleItem -> OrderedLine {
    (it: SaleItem) => OrderedLine(it.productId, it.quantity, None, onHand(it.productId))
  }

  /** The order a customer's items are stored as: one line a product, nothing picked yet. */
  function StoredOrder(items: seq<SaleItem>, onHand: string -> real): seq<OrderedLine> {
    MapSeq(Aggregated(items), Placed(onHand))
  }

  lemma {:induction false} PlacedLines(lines: seq<SaleItem>, onHand: string -> real)
    requires Distinct(lines, ProductId)
    ensures Distinct(MapSeq(lines, Placed(onHand)), ProductOf)
    ensures SumBy(ToShip(MapSeq(lines, Placed(onHand))), Ordered) == SumBy(lines, Quantity)
    ensures forall l :: l in MapSeq(lines, Placed(onHand)) ==>
      l.pickedQuantity.None? && exists it :: it in lines && it.productId == l.productId && it.quantity == l.quantity
  {
    if lines != [] {
      PlacedLines(lines[1..], onHand);
      var rest := MapSeq(lines[1..], Placed(onHand));
      assert MapSeq(lines, Placed(onHand)) == [Placed(onHand)(lines[0])] + rest;
      assert MapSeq(lines, Placed(onHand))[1..] == rest;
      assert ToShip(MapSeq(lines, Placed(onHand)))[1..] == ToShip(rest);
      assert forall it :: it in lines[1..] ==> it in lines && ProductId(it) != ProductId(lines[0]);
      assert lines[0] in lines;
    }
  }

  /** Whatever a customer asks for, repeated or not, and however the order is picked: all of it either
      ships or stops being held. */
  lemma NoStoredOrderLosesAnything(items: seq<SaleItem>, onHand: string -> real, visits: seq<Visit>)
    requires forall it :: it in items ==> it.quantity > 0.0
    ensures
      var lines := ToShip(PickRun(StoredOrder(items, onHand), visits));
      match ResolveShipment(lines)
      case Shipped(_, shipped, released) => shipped + released == SumBy(items, Quantity)
      case NothingPicked => SumBy(lines, Shortfall) == SumBy(items, Quantity)
  {
    hide Aggregated, PickRun, ToShip, SumBy, Distinct, ResolveShipment;
    AggregationKeepsEachProduct(items);
    AggregationKeepsTheTotal(items);
    AggregationStaysPositive(items);
    PlacedLines(Aggregated(items), onHand);
    NothingIsLost(StoredOrder(items, onHand), visits);
  }

  // ---------------------------------------------- several lines of one product

  function LinesOf(ordered: seq<OrderedLine>, productId: string): nat {
    if ordered == [] then 0
    else (if ordered[0].productId == productId then 1 else 0) + LinesOf(ordered[1..], productId)
  }

  function PickedOf(productId: string): ResolvedPick -> real {
    (l: ResolvedPick) => if l.productId == productId then l.picked else 0.0
  }

  lemma {:induction false} EveryLineTakesThePick(ordered: seq<OrderedLine>, wanted: seq<(string, real)>,
      productId: string)
    requires Has(wanted, productId)
    ensures SumBy(ResolveLines(ordered, wanted), PickedOf(productId))
      == LinesOf(ordered, productId) as real * Get(wanted, productId).value
  {
    if ordered != [] {
      EveryLineTakesThePick(ordered[1..], wanted, productId);
      assert ResolveLines(ordered, wanted)[1..] == ResolveLines(ordered[1..], wanted);
    }
  }

  lemma {:induction false} NamedProductHasALine(ordered: seq<OrderedLine>, productId: string)
    requires OrderLineFor(ordered, productId).Some?
    ensures LinesOf(ordered, productId) >= 1
  {
    var before, last := ordered[..|ordered| - 1], ordered[|ordered| - 1];
    assert ordered == before + [last];
    LinesOfExtended(before, last, productId);
    if last.productId != productId {
      NamedProductHasALine(before, productId);
    }
  }

  lemma {:induction false} LinesOfExtended(before: seq<OrderedLine>, last: OrderedLine, productId: string)
    ensures LinesOf(before + [last], productId)
      == LinesOf(before, productId) + if last.productId == productId then 1 else 0
  {
    if before != [] {
      assert (before + [last])[1..] == before[1..] + [last];
      LinesOfExtended(before[1..], last, productId);
    }
  }

  /** `resolvePick` by itself writes what was picked of a product on every line of that product. So an
      accepted pick records as much as was picked exactly when the product has one line, or none was. */
  lemma PickIsRecordedOnceIff(ordered: seq<OrderedLine>, picked: seq<PickedLine>, productId: string)
    requires Resolve(ordered, picked).Picked?
    requires Has(Wanted(picked).value, productId)
    ensures
      var recorded := SumBy(Resolve(ordered, picked).lines, PickedOf(productId));
      var wanted := Get(Wanted(picked).value, productId).value;
      && recorded == LinesOf(ordered, productId) as real * wanted
      && recorded >= wanted
      && (recorded == wanted <==> LinesOf(ordered, productId) == 1 || wanted == 0.0)
  {
    hide Resolve, Wanted, Objection, ResolveLines, LinesOf, SumBy, Keyed, Get, OrderLineFor;
    AcceptedPick(ordered, picked);
    var wanted := Wanted(picked).value;
    WantedFacts(picked);
    NoObjection(ordered, wanted);
    GetEntry(wanted, productId);
    assert (productId, Get(wanted, productId).value) in wanted;
    NamedProductHasALine(ordered, productId);
    EveryLineTakesThePick(ordered, wanted, productId);
    Multiples(SumBy(Resolve(ordered, picked).lines, PickedOf(productId)), LinesOf(ordered, productId),
              Get(wanted, productId).value);
  }

  lemma AcceptedPick(ordered: seq<OrderedLine>, picked: seq<PickedLine>)
    requires Resolve(ordered, picked).Picked?
    ensures Wanted(picked).Some? && Objection(ordered, Wanted(picked).value).None?
    ensures Resolve(ordered, picked).lines == ResolveLines(ordered, Wanted(picked).value)
  {
  }

  lemma Multiples(total: real, n: nat, x: real)
    requires total == n as real * x && n >= 1 && x >= 0.0
    ensures total >= x && (total == x <==> n == 1 || x == 0.0)
  {
    assert total - x == (n as real - 1.0) * x;
    if n >= 2 && x > 0.0 {
      assert (n as real - 1.0) * x >= 1.0 * x;
    }
  }

  /** What `resolvePick` alone would do with two lines of one product: five picked against lines of two
      and five are recorded on both, and ten units would ship for seven. No stored order has two such
      lines: the lines of `StoredOrder` are distinct. */
  lemma TwoLinesShipTooMuch()
    ensures
      var ordered := [OrderedLine("p", 2.0, None, 10.0), OrderedLine("p", 5.0, None, 10.0)];
      var request := [PickedLine("p", 5.0)];
      && Resolve(ordered, request).Picked?
      && ResolveShipment(ToShip(PickStep(ordered, request))).Shipped?
      && ResolveShipment(ToShip(PickStep(ordered, request))).shipped == 10.0
      && SumBy(ToShip(ordered), Ordered) == 7.0
  {
    var ordered := [OrderedLine("p", 2.0, None, 10.0), OrderedLine("p", 5.0, None, 10.0)];
    var request := [PickedLine("p", 5.0)];
    var wanted := [("p", 5.0)];
    assert request[..0] == [];
    assert Wanted(request) == Some(wanted);
    assert Objection(ordered, wanted).None?;
    assert ordered[1..] == [ordered[1]];
    var lines := ResolveLines(ordered, wanted);
    assert lines == [ResolveLine(ordered[0], wanted), ResolveLine(ordered[1], wanted)];
    var after := PickStep(ordered, request);
    assert lines[1..] == [lines[1]];
    assert after == [ordered[0].(pickedQuantity := Some(5.0)), ordered[1].(pickedQuantity := Some(5.0))];
    assert after[1..] == [after[1]];
    var shipping := ToShip(after);
    assert shipping == [ResolvedPick("p", 2.0, 5.0, 0.0, true), ResolvedPick("p", 5.0, 5.0, 0.0, true)];
    assert shipping[1..] == [shipping[1]];
    assert SumBy(shipping, PickedAmount) == 10.0;
    var before := ToShip(ordered);
    assert before == [ResolvedPick("p", 2.0, 2.0, 0.0, false), ResolvedPick("p", 5.0, 5.0, 0.0, false)];
    assert before[1..] == [before[1]];
    assert SumBy([before[1]], Ordered) == 5.0;
  }
}
