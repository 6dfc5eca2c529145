/** Returns against one sale (apps/api/src/returns.ts, receipt-total.ts): what may come back,
    and what money and points go with it. Money is whole tenge; quantities may be weighed. */
module Returns {
  import opened Lists
  import opened JsMap

  datatype SoldLine = SoldLine(
    documentItemId: string, productId: string, batchId: Option<string>,
    quantity: real, price: int, alreadyReturned: real)

  datatype RequestedLine = RequestedLine(documentItemId: string, quantity: real)

  datatype ResolvedLine = ResolvedLine(
    documentItemId: string, productId: string, batchId: Option<string>, quantity: real, price: int)

  datatype SaleTotals = SaleTotals(
    subtotal: int, discountAmount: int, pointsRedeemed: int, pointsEarned: int,
    alreadyRefunded: int, pointsAlreadyRestored: int, pointsAlreadyRevoked: int)

  datatype Refund = Refund(amount: int, pointsRestored: int, pointsRevoked: int)

  datatype Resolution =
    | Accepted(lines: seq<ResolvedLine>, refund: Refund, isFullReturn: bool)
    | Invalid
    | Empty
    | Unknown(documentItemId: string)
    | Excess(documentItemId: string, returnable: real)

  const ItemId: SoldLine -> string := (l: SoldLine) => l.documentItemId

  function ReceiptTotal(lines: int, discountAmount: int, pointsRedeemed: int): int {
    lines - discountAmount - pointsRedeemed
  }

  /** What so many units are worth at this price. */
  function Worth(price: int, quantity: real): real {
    price as real * quantity
  }

  function SoldLineFor(sold: seq<SoldLine>, id: string): Option<SoldLine> {
    if sold == [] then None
    else if sold[|sold| - 1].documentItemId == id then Some(sold[|sold| - 1])
    else SoldLineFor(sold[..|sold| - 1], id)
  }

  function AmountFor(m: seq<(string, real)>, id: string): real {
    match Get(m, id)
    case None => 0.0
    case Some(q) => q
  }

  /** The request added up per line of the sale, or the first objection to it. */
  function Collected(sold: seq<SoldLine>, requested: seq<RequestedLine>): Result<seq<(string, real)>, Resolution> {
    if requested == [] then Ok([])
    else
      match Collected(sold, requested[..|requested| - 1])
      case Err(e) => Err(e)
      case Ok(m) =>
        var line := requested[|requested| - 1];
        if line.quantity <= 0.0 then Err(Invalid)
        else
          match SoldLineFor(sold, line.documentItemId)
          case None => Err(Unknown(line.documentItemId))
          case Some(soldLine) =>
            var total := AmountFor(m, line.documentItemId) + line.quantity;
            var returnable := soldLine.quantity - soldLine.alreadyReturned;
            if total > returnable then Err(Excess(line.documentItemId, returnable))
            else Ok(Set(m, line.documentItemId, total))
  }

  function Resolved(sold: seq<SoldLine>, m: seq<(string, real)>): seq<ResolvedLine>
    requires forall e :: e in m ==> SoldLineFor(sold, e.0).Some?
  {
    if m == [] then []
    else
      var line := SoldLineFor(sold, m[0].0).value;
      [ResolvedLine(m[0].0, line.productId, line.batchId, m[0].1, line.price)] + Resolved(sold, m[1..])
  }

  function Gross(lines: seq<ResolvedLine>): int {
    if lines == [] then 0 else Round(Worth(lines[0].price, lines[0].quantity)) + Gross(lines[1..])
  }

  predicate IsFull(sold: seq<SoldLine>, m: seq<(string, real)>) {
    forall line :: line in sold ==> line.alreadyReturned + AmountFor(m, line.documentItemId) >= line.quantity
  }

  function AtLeastZero(x: int): int {
    if x < 0 then 0 else x
  }

  function BuildRefund(returnedGross: int, totals: SaleTotals, isFullReturn: bool): Refund {
    var cashCollected := ReceiptTotal(totals.subtotal, totals.discountAmount, totals.pointsRedeemed);
    if isFullReturn then
      Refund(AtLeastZero(cashCollected - totals.alreadyRefunded),
             AtLeastZero(totals.pointsRedeemed - totals.pointsAlreadyRestored),
             AtLeastZero(totals.pointsEarned - totals.pointsAlreadyRevoked))
    else if totals.subtotal <= 0 then Refund(0, 0, 0)
    else
      Refund(Round(Part(cashCollected, returnedGross, totals.subtotal)),
             Round(Part(totals.pointsRedeemed, returnedGross, totals.subtotal)),
             Round(Part(totals.pointsEarned, returnedGross, totals.subtotal)))
  }

  /** The exact share of `whole` that `gross` is of `subtotal`. */
  function Part(whole: int, gross: int, subtotal: int): real
    requires subtotal > 0
  {
    whole as real * (gross as real / subtotal as real)
  }

  /** What a summed request holds: each line once, sold, and no more of it than may come back. */
  ghost predicate Returnable(sold: seq<SoldLine>, m: seq<(string, real)>) {
    && Keyed(m)
    && forall e :: e in m ==>
         && SoldLineFor(sold, e.0).Some? && e.1 > 0.0
         && e.1 <= SoldLineFor(sold, e.0).value.quantity - SoldLineFor(sold, e.0).value.alreadyReturned
  }

  lemma SetReturnable(sold: seq<SoldLine>, m: seq<(string, real)>, id: string, total: real)
    requires Returnable(sold, m) && SoldLineFor(sold, id).Some? && total > 0.0
    requires total <= SoldLineFor(sold, id).value.quantity - SoldLineFor(sold, id).value.alreadyReturned
    ensures Returnable(sold, Set(m, id, total))
  {
    hide Keyed, Set, SoldLineFor;
    SetKeyed(m, id, total);
  }

  lemma AmountNotNegative(sold: seq<SoldLine>, m: seq<(string, real)>, id: string)
    requires Returnable(sold, m)
    ensures AmountFor(m, id) >= 0.0
  {
    hide Keyed, SoldLineFor;
    GetEntry(m, id);
    if Has(m, id) {
      assert (id, Get(m, id).value) in m;
    }
  }

  lemma {:induction false} CollectedFacts(sold: seq<SoldLine>, requested: seq<RequestedLine>)
    ensures Collected(sold, requested).Err? ==>
      var e := Collected(sold, requested).error;
      e.Invalid? || e.Unknown? || e.Excess?
    ensures Collected(sold, requested).Ok? ==> Returnable(sold, Collected(sold, requested).value)
  {
    hide Returnable, Set, SoldLineFor, AmountFor;
    if requested == [] {
      NothingReturnable(sold);
    } else {
      var before, line := requested[..|requested| - 1], requested[|requested| - 1];
      CollectedFacts(sold, before);
      if Collected(sold, requested).Ok? {
        var m := Collected(sold, before).value;
        AmountNotNegative(sold, m, line.documentItemId);
        SetReturnable(sold, m, line.documentItemId, AmountFor(m, line.documentItemId) + line.quantity);
      }
    }
  }

  lemma NothingReturnable(sold: seq<SoldLine>)
    ensures Returnable(sold, [])
  {
  }

  function Resolve(sold: seq<SoldLine>, requested: seq<RequestedLine>, totals: SaleTotals): Resolution {
    if requested == [] then Empty
    else
      match Collected(sold, requested)
      case Err(e) => e
      case Ok(m) =>
        CollectedFacts(sold, requested);
        var lines := Resolved(sold, m);
        Accepted(lines, BuildRefund(Gross(lines), totals, IsFull(sold, m)), IsFull(sold, m))
  }

  method ResolveReturn(sold: seq<SoldLine>, requested: seq<RequestedLine>, totals: SaleTotals)
    returns (resolution: Resolution)
    ensures resolution == Resolve(sold, requested, totals)
  {
    if requested == [] {
      return Empty;
    }
    var collected := CollectLines(sold, requested);
    if collected.Err? {
      return collected.error;
    }
    CollectedFacts(sold, requested);
    hide Collected, IsFull, Gross, BuildRefund, Keyed;
    var lines := Resolved(sold, collected.value);
    var full := IsFull(sold, collected.value);
    resolution := Accepted(lines, BuildRefund(Gross(lines), totals, full), full);
  }

  /** The loop that adds the request up, line by line. */
  method CollectLines(sold: seq<SoldLine>, requested: seq<RequestedLine>)
    returns (r: Result<seq<(string, real)>, Resolution>)
    ensures r == Collected(sold, requested)
  {
    hide SoldLineFor, Set, AmountFor;
    var requestedByItemId: seq<(string, real)> := [];
    var i := 0;
    while i < |requested|
      invariant i <= |requested|
      invariant Collected(sold, requested[..i]) == Ok(requestedByItemId)
    {
      assert requested[..i + 1][..i] == requested[..i];
      var line := requested[i];
      if line.quantity <= 0.0 {
        ErrorStays(sold, requested, i + 1);
        return Err(Invalid);
      }
      var soldLine := SoldLineFor(sold, line.documentItemId);
      if soldLine.None? {
        ErrorStays(sold, requested, i + 1);
        return Err(Unknown(line.documentItemId));
      }
      var total := AmountFor(requestedByItemId, line.documentItemId) + line.quantity;
      var returnable := soldLine.value.quantity - soldLine.value.alreadyReturned;
      if total > returnable {
        ErrorStays(sold, requested, i + 1);
        return Err(Excess(line.documentItemId, returnable));
      }
      requestedByItemId := Set(requestedByItemId, line.documentItemId, total);
      i := i + 1;
    }
    assert requested[..i] == requested;
    r := Ok(requestedByItemId);
  }

  lemma {:induction false} ErrorStays(sold: seq<SoldLine>, requested: seq<RequestedLine>, k: nat)
    requires k <= |requested| && Collected(sold, requested[..k]).Err?
    ensures Collected(sold, requested) == Collected(sold, requested[..k])
    decreases |requested| - k
  {
    if k < |requested| {
      assert requested[..k + 1][..k] == requested[..k];
      ErrorStays(sold, requested, k + 1);
    } else {
      assert requested[..k] == requested;
    }
  }

  // ----------------------------------------------------- a history of returns

  datatype Sale = Sale(discountAmount: int, pointsRedeemed: int, pointsEarned: int)

  /** One sale and everything returned against it so far. `partialGross`, `partials` and `inexact` follow
      the returns that did not close the sale: their list price, their number, and how many of their
      lines had to be rounded to a whole tenge. */
  datatype History = History(
    sale: Sale, sold: seq<SoldLine>, given: Refund, partialGross: int, partials: nat, inexact: nat,
    fromPartials: Refund, closed: bool)

  /** The sale's lines at list price. */
  function Subtotal(sold: seq<SoldLine>): int {
    if sold == [] then 0 else Round(Worth(sold[0].price, sold[0].quantity)) + Subtotal(sold[1..])
  }

  /** How many lines of a return have a price that is not a whole tenge. */
  function Inexact(lines: seq<ResolvedLine>): nat {
    if lines == [] then 0
    else (if IsWhole(Worth(lines[0].price, lines[0].quantity)) then 0 else 1) + Inexact(lines[1..])
  }

  function TotalsOf(h: History): SaleTotals {
    SaleTotals(Subtotal(h.sold), h.sale.discountAmount, h.sale.pointsRedeemed, h.sale.pointsEarned,
               h.given.amount, h.given.pointsRestored, h.given.pointsRevoked)
  }

  function TakenBack(sold: seq<SoldLine>, m: seq<(string, real)>): seq<SoldLine> {
    if sold == [] then []
    else
      [sold[0].(alreadyReturned := sold[0].alreadyReturned + AmountFor(m, sold[0].documentItemId))]
      + TakenBack(sold[1..], m)
  }

  function Plus(a: Refund, b: Refund): Refund {
    Refund(a.amount + b.amount, a.pointsRestored + b.pointsRestored, a.pointsRevoked + b.pointsRevoked)
  }

  /** A return request: an accepted one is recorded, a refused one changes nothing. */
  function Step(h: History, requested: seq<RequestedLine>): History {
    match Resolve(h.sold, requested, TotalsOf(h))
    case Accepted(lines, refund, isFull) =>
      CollectedFacts(h.sold, requested);
      var m := Collected(h.sold, requested).value;
      var sold := TakenBack(h.sold, m);
      if isFull then h.(sold := sold, given := Plus(h.given, refund), closed := true)
      else h.(sold := sold, given := Plus(h.given, refund), fromPartials := Plus(h.fromPartials, refund),
              partialGross := h.partialGross + Gross(lines), partials := h.partials + 1,
              inexact := h.inexact + Inexact(lines))
    case _ => h
  }

  function Run(h: History, requests: seq<seq<RequestedLine>>): History
    decreases |requests|
  {
    if requests == [] then h else Run(Step(h, requests[0]), requests[1..])
  }

  /** A run is its steps, one after another. */
  lemma {:induction false} RunIsItsSteps(h: History, requests: seq<seq<RequestedLine>>, requested: seq<RequestedLine>)
    ensures Run(h, []) == h && Run(h, requests + [requested]) == Step(Run(h, requests), requested)
    decreases |requests|
  {
    hide Step;
    if requests == [] {
      assert [] + [requested] == [requested] && [requested][1..] == [];
    } else {
      assert (requests + [requested])[0] == requests[0] && (requests + [requested])[1..] == requests[1..] + [requested];
      RunIsItsSteps(Step(h, requests[0]), requests[1..], requested);
    }
  }

  /** What the sale took: money, points spent on it, points earned by it. */
  function Wholes(h: History): Refund {
    Refund(ReceiptTotal(Subtotal(h.sold), h.sale.discountAmount, h.sale.pointsRedeemed),
           h.sale.pointsRedeemed, h.sale.pointsEarned)
  }

  predicate NonNegative(r: Refund) {
    r.amount >= 0 && r.pointsRestored >= 0 && r.pointsRevoked >= 0
  }

  // -------------------------------------------------------- rounding of shares

  lemma PartAdds(whole: int, a: int, b: int, subtotal: int)
    requires subtotal > 0
    ensures Part(whole, a, subtotal) + Part(whole, b, subtotal) == Part(whole, a + b, subtotal)
  {
    var w, s, x, y := whole as real, subtotal as real, a as real, b as real;
    assert x / s + y / s == (x + y) / s;
    assert w * (x / s) + w * (y / s) == w * (x / s + y / s);
    assert (a + b) as real == x + y;
  }

  // -------------------------------------------------- no line gives back too much

  /** Nothing more has come back on a line than was sold on it. */
  ghost predicate Lines(sold: seq<SoldLine>) {
    Distinct(sold, ItemId) && forall l :: l in sold ==> 0.0 <= l.alreadyReturned <= l.quantity
  }

  lemma {:induction false} OwnLine(sold: seq<SoldLine>, line: SoldLine)
    requires Distinct(sold, ItemId) && line in sold
    ensures SoldLineFor(sold, line.documentItemId) == Some(line)
  {
    var last := sold[|sold| - 1];
    if last.documentItemId == line.documentItemId {
      SameKeySameElement(sold, ItemId, last, line);
    } else {
      var before := sold[..|sold| - 1];
      assert sold == before + [last];
      DistinctPrefix(before, last, ItemId);
      OwnLine(before, line);
    }
  }

  lemma {:induction false} TakenBackAt(sold: seq<SoldLine>, m: seq<(string, real)>)
    ensures |TakenBack(sold, m)| == |sold|
    ensures forall i :: 0 <= i < |sold| ==>
      (TakenBack(sold, m)[i] ==
       sold[i].(alreadyReturned := sold[i].alreadyReturned + AmountFor(m, sold[i].documentItemId)))
    ensures Subtotal(TakenBack(sold, m)) == Subtotal(sold)
  {
    if sold != [] {
      TakenBackAt(sold[1..], m);
      assert TakenBack(sold, m)[1..] == TakenBack(sold[1..], m);
    }
  }

  lemma AcceptedWithin(sold: seq<SoldLine>, requested: seq<RequestedLine>, l: SoldLine)
    requires Lines(sold) && Collected(sold, requested).Ok? && l in sold
    ensures 0.0 <= AmountFor(Collected(sold, requested).value, l.documentItemId) <= l.quantity - l.alreadyReturned
  {
    var m := Collected(sold, requested).value;
    CollectedFacts(sold, requested);
    OwnLine(sold, l);
    GetEntry(m, l.documentItemId);
    if Has(m, l.documentItemId) {
      assert (l.documentItemId, Get(m, l.documentItemId).value) in m;
    }
  }

  lemma TakenBackKeepsLines(sold: seq<SoldLine>, requested: seq<RequestedLine>)
    requires Lines(sold) && Collected(sold, requested).Ok?
    ensures Lines(TakenBack(sold, Collected(sold, requested).value))
  {
    var m := Collected(sold, requested).value;
    var after := TakenBack(sold, m);
    TakenBackAt(sold, m);
    SameKeysDistinct(sold, after, ItemId);
    forall l | l in after
      ensures 0.0 <= l.alreadyReturned <= l.quantity
    {
      var i :| 0 <= i < |after| && after[i] == l;
      AcceptedWithin(sold, requested, sold[i]);
    }
  }

  lemma StepKeepsLines(h: History, requested: seq<RequestedLine>)
    requires Lines(h.sold)
    ensures Lines(Step(h, requested).sold)
    ensures Subtotal(Step(h, requested).sold) == Subtotal(h.sold)
  {
    CollectedFacts(h.sold, requested);
    if Resolve(h.sold, requested, TotalsOf(h)).Accepted? {
      TakenBackKeepsLines(h.sold, requested);
      TakenBackAt(h.sold, Collected(h.sold, requested).value);
    }
  }

  // --------------------------------------------------- what the money adds up to

  /** Half a tenge a partial return, above the exact share of what has come back. */
  predicate WithinShares(h: History) {
    if Subtotal(h.sold) <= 0 then h.fromPartials == Refund(0, 0, 0)
    else
      && h.fromPartials.amount as real <= Part(Wholes(h).amount, h.partialGross, Subtotal(h.sold))
        + h.partials as real / 2.0
      && h.fromPartials.pointsRestored as real
           <= Part(Wholes(h).pointsRestored, h.partialGross, Subtotal(h.sold)) + h.partials as real / 2.0
      && h.fromPartials.pointsRevoked as real
           <= Part(Wholes(h).pointsRevoked, h.partialGross, Subtotal(h.sold)) + h.partials as real / 2.0
  }

  function Larger(a: int, b: int): int {
    if a >= b then a else b
  }

  /** An open sale has given back its partial refunds; a closed one the larger of them and what it took. */
  ghost predicate Money(h: History) {
    && WithinShares(h)
    && (!h.closed ==> h.given == h.fromPartials)
    && (!h.closed && h.partials > 0 ==> exists l :: l in h.sold && l.alreadyReturned < l.quantity)
    && (h.closed ==>
          && h.given.amount == Larger(Wholes(h).amount, h.fromPartials.amount)
          && h.given.pointsRestored == Larger(Wholes(h).pointsRestored, h.fromPartials.pointsRestored)
          && h.given.pointsRevoked == Larger(Wholes(h).pointsRevoked, h.fromPartials.pointsRevoked)
          && forall l :: l in h.sold ==> l.alreadyReturned == l.quantity)
  }

  lemma OneMoreShare(whole: int, given: int, gross: int, more: int, subtotal: int, partials: nat)
    requires subtotal > 0
    requires given as real <= Part(whole, gross, subtotal) + partials as real / 2.0
    ensures (given + Round(Part(whole, more, subtotal))) as real
      <= Part(whole, gross + more, subtotal) + (partials + 1) as real / 2.0
  {
    RoundBounds(Part(whole, more, subtotal));
    PartAdds(whole, gross, more, subtotal);
  }

  /** Nothing can be returned on a sale that is fully back. */
  lemma {:induction false} ClosedStaysClosed(h: History, requested: seq<RequestedLine>)
    requires Lines(h.sold) && forall l :: l in h.sold ==> l.alreadyReturned == l.quantity
    ensures Step(h, requested) == h
  {
    CollectedFacts(h.sold, requested);
    if requested != [] && Collected(h.sold, requested).Ok? {
      var line := requested[|requested| - 1];
      var m := Collected(h.sold, requested[..|requested| - 1]).value;
      SetContains(m, line.documentItemId, AmountFor(m, line.documentItemId) + line.quantity);
      var e := (line.documentItemId, AmountFor(m, line.documentItemId) + line.quantity);
      assert e in Collected(h.sold, requested).value;
      SoldLineMember(h.sold, line.documentItemId);
    }
  }

  lemma {:induction false} SetContains(m: seq<(string, real)>, key: string, value: real)
    ensures (key, value) in Set(m, key, value)
  {
    if m != [] && m[0].0 != key {
      SetContains(m[1..], key, value);
    }
  }

  lemma {:induction false} SoldLineMember(sold: seq<SoldLine>, id: string)
    requires SoldLineFor(sold, id).Some?
    ensures SoldLineFor(sold, id).value in sold
  {
    if sold[|sold| - 1].documentItemId != id {
      SoldLineMember(sold[..|sold| - 1], id);
    }
  }

  /** An accepted return, spelled out. */
  lemma AcceptedStep(h: History, requested: seq<RequestedLine>) returns (m: seq<(string, real)>, gross: int, full: bool)
    requires Resolve(h.sold, requested, TotalsOf(h)).Accepted?
    ensures Collected(h.sold, requested) == Ok(m) && full == IsFull(h.sold, m)
    ensures (forall e :: e in m ==> SoldLineFor(h.sold, e.0).Some?) && gross == Gross(Resolved(h.sold, m))
    ensures
      var refund := BuildRefund(gross, TotalsOf(h), full);
      Step(h, requested) ==
        if full then h.(sold := TakenBack(h.sold, m), given := Plus(h.given, refund), closed := true)
        else h.(sold := TakenBack(h.sold, m), given := Plus(h.given, refund),
                fromPartials := Plus(h.fromPartials, refund),
                partialGross := h.partialGross + gross, partials := h.partials + 1,
                inexact := h.inexact + Inexact(Resolved(h.sold, m)))
  {
    CollectedFacts(h.sold, requested);
    m := Collected(h.sold, requested).value;
    gross := Gross(Resolved(h.sold, m));
    full := IsFull(h.sold, m);
  }

  lemma PartialShares(h: History, gross: int, rounded: nat, sold: seq<SoldLine>)
    requires WithinShares(h) && Subtotal(sold) == Subtotal(h.sold)
    ensures
      var refund := BuildRefund(gross, TotalsOf(h), false);
      WithinShares(h.(sold := sold, given := Plus(h.given, refund), fromPartials := Plus(h.fromPartials, refund),
                      partialGross := h.partialGross + gross, partials := h.partials + 1,
                      inexact := h.inexact + rounded))
  {
    hide Part, Subtotal, Round, ReceiptTotal;
    var s := Subtotal(h.sold);
    if s > 0 {
      OneMoreShare(Wholes(h).amount, h.fromPartials.amount, h.partialGross, gross, s, h.partials);
      OneMoreShare(Wholes(h).pointsRestored, h.fromPartials.pointsRestored, h.partialGross, gross, s, h.partials);
      OneMoreShare(Wholes(h).pointsRevoked, h.fromPartials.pointsRevoked, h.partialGross, gross, s, h.partials);
    }
  }

  lemma NotFull(sold: seq<SoldLine>, m: seq<(string, real)>)
    ensures IsFull(sold, m) <==> forall l :: l in TakenBack(sold, m) ==> l.alreadyReturned >= l.quantity
  {
    TakenBackAt(sold, m);
    var after := TakenBack(sold, m);
    if IsFull(sold, m) {
      forall l | l in after
        ensures l.alreadyReturned >= l.quantity
      {
        var i :| 0 <= i < |after| && after[i] == l;
        assert sold[i] in sold;
      }
    } else {
      var line :| line in sold && line.alreadyReturned + AmountFor(m, line.documentItemId) < line.quantity;
      var i :| 0 <= i < |sold| && sold[i] == line;
      assert after[i] in after;
    }
  }

  lemma ClosingSettles(h: History, gross: int, sold: seq<SoldLine>)
    requires WithinShares(h) && Subtotal(sold) == Subtotal(h.sold) && h.given == h.fromPartials
    requires forall l :: l in sold ==> l.alreadyReturned == l.quantity
    ensures Money(h.(sold := sold, given := Plus(h.given, BuildRefund(gross, TotalsOf(h), true)), closed := true))
  {
    hide Part, Subtotal, Round, ReceiptTotal;
    var refund := BuildRefund(gross, TotalsOf(h), true);
    var closed := h.(sold := sold, given := Plus(h.given, refund), closed := true);
    assert Wholes(closed) == Wholes(h);
    ClosedShares(h, closed);
    ClosingAmount(Wholes(h).amount, h.given.amount);
    ClosingAmount(Wholes(h).pointsRestored, h.given.pointsRestored);
    ClosingAmount(Wholes(h).pointsRevoked, h.given.pointsRevoked);
  }

  lemma ClosedShares(h: History, closed: History)
    requires WithinShares(h) && Subtotal(closed.sold) == Subtotal(h.sold) && Wholes(closed) == Wholes(h)
    requires closed.fromPartials == h.fromPartials && closed.partials == h.partials
      && closed.partialGross == h.partialGross
    ensures WithinShares(closed)
  {
    hide Part, Subtotal, Wholes;
  }

  lemma ClosingAmount(whole: int, given: int)
    ensures given + AtLeastZero(whole - given) == Larger(whole, given)
  {
  }

  lemma AcceptedKeepsMoney(h: History, requested: seq<RequestedLine>)
    requires Lines(h.sold) && Money(h) && !h.closed
    requires Resolve(h.sold, requested, TotalsOf(h)).Accepted?
    ensures Money(Step(h, requested))
  {
    hide Part, Resolve, Collected, Step, WithinShares, BuildRefund, IsFull;
    var m, gross, full := AcceptedStep(h, requested);
    TakenBackAt(h.sold, m);
    TakenBackKeepsLines(h.sold, requested);
    NotFull(h.sold, m);
    if full {
      ClosingSettles(h, gross, TakenBack(h.sold, m));
    } else {
      PartialShares(h, gross, Inexact(Resolved(h.sold, m)), TakenBack(h.sold, m));
    }
  }

  lemma StepKeepsMoney(h: History, requested: seq<RequestedLine>)
    requires Lines(h.sold) && Money(h)
    ensures Money(Step(h, requested))
  {
    if h.closed {
      ClosedStaysClosed(h, requested);
    } else if Resolve(h.sold, requested, TotalsOf(h)).Accepted? {
      AcceptedKeepsMoney(h, requested);
    }
  }

  lemma {:induction false} RunKeepsMoney(h: History, requests: seq<seq<RequestedLine>>)
    requires Lines(h.sold) && Money(h)
    ensures Lines(Run(h, requests).sold) && Money(Run(h, requests))
    ensures Wholes(Run(h, requests)) == Wholes(h)
    decreases |requests|
  {
    if requests != [] {
      StepKeepsLines(h, requests[0]);
      StepKeepsMoney(h, requests[0]);
      RunKeepsMoney(Step(h, requests[0]), requests[1..]);
    }
  }

  // -------------------------------------------------------- list price of returns

  predicate IsWhole(q: real) {
    q == q.Floor as real
  }

  lemma WorthAdds(price: int, a: real, b: real)
    ensures Worth(price, a) + Worth(price, b) == Worth(price, a + b)
  {
  }

  lemma WorthGrows(price: int, a: real, b: real)
    requires price >= 0 && a <= b
    ensures Worth(price, a) <= Worth(price, b)
  {
    assert price as real * (b - a) >= 0.0;
    WorthAdds(price, a, b - a);
  }

  /** A price is off by at most half a tenge once rounded, and not at all when it is whole. */
  lemma RoundedWorth(w: real)
    ensures -0.5 <= Round(w) as real - w <= 0.5
    ensures IsWhole(w) ==> Round(w) as real == w
  {
    RoundBounds(w);
    if IsWhole(w) {
      RoundOfWhole(w.Floor);
    }
  }

  lemma RoundOfWhole(n: int)
    ensures Round(n as real) == n
  {
  }

  /** What has come back so far, at list price. */
  function ReturnedWorth(sold: seq<SoldLine>): real {
    if sold == [] then 0.0 else Worth(sold[0].price, sold[0].alreadyReturned) + ReturnedWorth(sold[1..])
  }

  /** What this request takes back, line of the sale by line of the sale. */
  function SoldWorth(sold: seq<SoldLine>, m: seq<(string, real)>): real {
    if sold == [] then 0.0 else Worth(sold[0].price, AmountFor(m, sold[0].documentItemId)) + SoldWorth(sold[1..], m)
  }

  function PriceFor(sold: seq<SoldLine>, id: string): int {
    match SoldLineFor(sold, id)
    case None => 0
    case Some(l) => l.price
  }

  /** What this request takes back, in the order it was asked for. */
  function EntriesWorth(sold: seq<SoldLine>, m: seq<(string, real)>): real {
    if m == [] then 0.0 else Worth(PriceFor(sold, m[0].0), m[0].1) + EntriesWorth(sold, m[1..])
  }

  lemma {:induction false} SetEntriesWorth(sold: seq<SoldLine>, m: seq<(string, real)>, id: string, more: real)
    ensures EntriesWorth(sold, Set(m, id, AmountFor(m, id) + more))
      == EntriesWorth(sold, m) + Worth(PriceFor(sold, id), more)
  {
    if m == [] {
      var one := [(id, 0.0 + more)];
      assert Set(m, id, AmountFor(m, id) + more) == one && one[1..] == [];
    } else if m[0].0 == id {
      WorthAdds(PriceFor(sold, id), m[0].1, more);
    } else {
      SetEntriesWorth(sold, m[1..], id, more);
    }
  }

  lemma {:induction false} SetElsewhere(sold: seq<SoldLine>, m: seq<(string, real)>, id: string, value: real)
    requires forall l :: l in sold ==> ItemId(l) != id
    ensures SoldWorth(sold, Set(m, id, value)) == SoldWorth(sold, m)
  {
    if sold != [] {
      assert ItemId(sold[0]) != id;
      GetSet(m, id, value, sold[0].documentItemId);
      SetElsewhere(sold[1..], m, id, value);
    }
  }

  lemma {:induction false} SetSoldWorth(sold: seq<SoldLine>, m: seq<(string, real)>, line: SoldLine, more: real)
    requires Distinct(sold, ItemId) && line in sold
    ensures SoldWorth(sold, Set(m, line.documentItemId, AmountFor(m, line.documentItemId) + more))
      == SoldWorth(sold, m) + Worth(line.price, more)
  {
    var id := line.documentItemId;
    var value := AmountFor(m, id) + more;
    GetSet(m, id, value, sold[0].documentItemId);
    if line == sold[0] {
      SetElsewhere(sold[1..], m, id, value);
      WorthAdds(line.price, AmountFor(m, id), more);
    } else {
      assert ItemId(line) != ItemId(sold[0]);
      SetSoldWorth(sold[1..], m, line, more);
    }
  }

  /** Both ways of adding the request up agree. */
  lemma {:induction false} RequestWorth(sold: seq<SoldLine>, requested: seq<RequestedLine>)
    requires Distinct(sold, ItemId) && Collected(sold, requested).Ok?
    ensures EntriesWorth(sold, Collected(sold, requested).value) == SoldWorth(sold, Collected(sold, requested).value)
  {
    if requested == [] {
      NothingAsked(sold);
    } else {
      var before, line := requested[..|requested| - 1], requested[|requested| - 1];
      RequestWorth(sold, before);
      var m := Collected(sold, before).value;
      SoldLineMember(sold, line.documentItemId);
      SoldLineIsIt(sold, line.documentItemId);
      SetEntriesWorth(sold, m, line.documentItemId, line.quantity);
      SetSoldWorth(sold, m, SoldLineFor(sold, line.documentItemId).value, line.quantity);
    }
  }

  lemma {:induction false} SoldLineIsIt(sold: seq<SoldLine>, id: string)
    requires SoldLineFor(sold, id).Some?
    ensures SoldLineFor(sold, id).value.documentItemId == id
  {
    if sold[|sold| - 1].documentItemId != id {
      SoldLineIsIt(sold[..|sold| - 1], id);
    }
  }

  lemma {:induction false} NothingAsked(sold: seq<SoldLine>)
    ensures SoldWorth(sold, []) == 0.0
  {
    if sold != [] {
      NothingAsked(sold[1..]);
    }
  }

  lemma {:induction false} TakenBackWorth(sold: seq<SoldLine>, m: seq<(string, real)>)
    ensures ReturnedWorth(TakenBack(sold, m)) == ReturnedWorth(sold) + SoldWorth(sold, m)
  {
    if sold != [] {
      TakenBackWorth(sold[1..], m);
      assert TakenBack(sold, m)[1..] == TakenBack(sold[1..], m);
      WorthAdds(sold[0].price, sold[0].alreadyReturned, AmountFor(m, sold[0].documentItemId));
    }
  }

  /** The gross of a return is its list price, to within half a tenge for each line that was rounded. */
  lemma {:induction false} GrossIsNearWorth(sold: seq<SoldLine>, m: seq<(string, real)>)
    requires forall e :: e in m ==> SoldLineFor(sold, e.0).Some?
    ensures
      var lines := Resolved(sold, m);
      -(Inexact(lines) as real) <= 2.0 * (Gross(lines) as real - EntriesWorth(sold, m)) <= Inexact(lines) as real
  {
    if m != [] {
      assert m[0] in m && forall e :: e in m[1..] ==> e in m;
      GrossIsNearWorth(sold, m[1..]);
      assert Resolved(sold, m)[1..] == Resolved(sold, m[1..]);
      RoundedWorth(Worth(PriceFor(sold, m[0].0), m[0].1));
    }
  }

  /** How many lines of the sale have a price that is not a whole tenge. */
  function InexactSold(sold: seq<SoldLine>): nat {
    if sold == [] then 0
    else (if IsWhole(Worth(sold[0].price, sold[0].quantity)) then 0 else 1) + InexactSold(sold[1..])
  }

  /** No price is negative: routes/pos.ts:2817 and 2881 refuse one. */
  predicate Priced(sold: seq<SoldLine>) {
    forall l :: l in sold ==> l.price >= 0
  }

  lemma {:induction false} TakenBackKeepsPrices(sold: seq<SoldLine>, m: seq<(string, real)>)
    ensures InexactSold(TakenBack(sold, m)) == InexactSold(sold)
    ensures Priced(sold) ==> Priced(TakenBack(sold, m))
    ensures forall id :: PriceFor(TakenBack(sold, m), id) == PriceFor(sold, id)
  {
    TakenBackAt(sold, m);
    forall id
      ensures PriceFor(TakenBack(sold, m), id) == PriceFor(sold, id)
    {
      SamePrice(sold, TakenBack(sold, m), id);
    }
    TakenBackInexact(sold, m);
    if Priced(sold) {
      forall l | l in TakenBack(sold, m)
        ensures l.price >= 0
      {
        var i :| 0 <= i < |sold| && TakenBack(sold, m)[i] == l;
        assert sold[i] in sold;
      }
    }
  }

  lemma {:induction false} TakenBackInexact(sold: seq<SoldLine>, m: seq<(string, real)>)
    ensures InexactSold(TakenBack(sold, m)) == InexactSold(sold)
  {
    if sold != [] {
      TakenBackInexact(sold[1..], m);
      assert TakenBack(sold, m)[1..] == TakenBack(sold[1..], m);
    }
  }

  lemma {:induction false} SamePrice(a: seq<SoldLine>, b: seq<SoldLine>, id: string)
    requires |a| == |b|
    requires forall i :: 0 <= i < |a| ==> a[i].documentItemId == b[i].documentItemId && a[i].price == b[i].price
    ensures PriceFor(a, id) == PriceFor(b, id)
  {
    if a != [] && a[|a| - 1].documentItemId != id {
      SamePrice(a[..|a| - 1], b[..|b| - 1], id);
    }
  }

  /** What has come back is worth no more than the sale, to within half a tenge for each rounded line. */
  lemma {:induction false} ReturnedWithinSubtotal(sold: seq<SoldLine>)
    requires Priced(sold) && forall l :: l in sold ==> 0.0 <= l.alreadyReturned <= l.quantity
    ensures 2.0 * ReturnedWorth(sold) <= (2 * Subtotal(sold) + InexactSold(sold)) as real
  {
    if sold != [] {
      assert sold[0] in sold && forall l :: l in sold[1..] ==> l in sold;
      ReturnedWithinSubtotal(sold[1..]);
      RoundedWorth(Worth(sold[0].price, sold[0].quantity));
      WorthGrows(sold[0].price, sold[0].alreadyReturned, sold[0].quantity);
    }
  }

  /** The gross of the partial returns is what came back at list price, and so within the sale's
      subtotal, to within half a tenge for each line that was rounded. */
  ghost predicate GrossIsNear(h: History) {
    && Priced(h.sold)
    && 2 * h.partialGross <= 2 * Subtotal(h.sold) + InexactSold(h.sold) + h.inexact
    && (!h.closed ==>
          -(h.inexact as real) <= 2.0 * (h.partialGross as real - ReturnedWorth(h.sold)) <= h.inexact as real)
  }

  lemma AcceptedKeepsGross(h: History, requested: seq<RequestedLine>)
    requires Lines(h.sold) && GrossIsNear(h) && !h.closed
    requires Resolve(h.sold, requested, TotalsOf(h)).Accepted?
    ensures GrossIsNear(Step(h, requested)) && InexactSold(Step(h, requested).sold) == InexactSold(h.sold)
  {
    hide Collected, Resolved, IsFull, Gross, Inexact, TakenBack, Resolve, Subtotal, ReturnedWorth, EntriesWorth,
      SoldWorth, InexactSold, BuildRefund, Distinct;
    var m, gross, full := AcceptedStep(h, requested);
    GrossIsNearWorth(h.sold, m);
    RequestWorth(h.sold, requested);
    TakenBackWorth(h.sold, m);
    TakenBackAt(h.sold, m);
    TakenBackKeepsPrices(h.sold, m);
    TakenBackKeepsLines(h.sold, requested);
    GrossMoves(h, Step(h, requested), gross, Resolved(h.sold, m), full);
  }

  lemma GrossMoves(h: History, next: History, gross: int, lines: seq<ResolvedLine>, full: bool)
    requires GrossIsNear(h) && !h.closed && Lines(next.sold) && Priced(next.sold)
    requires InexactSold(next.sold) == InexactSold(h.sold) && Subtotal(next.sold) == Subtotal(h.sold)
    requires
      -(Inexact(lines) as real) <= 2.0 * (gross as real - (ReturnedWorth(next.sold) - ReturnedWorth(h.sold)))
        <= Inexact(lines) as real
    requires next.closed == full
    requires if full then next.partialGross == h.partialGross && next.inexact == h.inexact
             else next.partialGross == h.partialGross + gross && next.inexact == h.inexact + Inexact(lines)
    ensures GrossIsNear(next)
  {
    hide Subtotal, ReturnedWorth, Inexact, InexactSold;
    ReturnedWithinSubtotal(next.sold);
  }

  lemma {:induction false} RunKeepsGross(h: History, requests: seq<seq<RequestedLine>>)
    requires Lines(h.sold) && Money(h) && GrossIsNear(h)
    ensures GrossIsNear(Run(h, requests)) && InexactSold(Run(h, requests).sold) == InexactSold(h.sold)
    decreases |requests|
  {
    hide GrossIsNear, Money, Lines, Step;
    if requests != [] {
      StepKeepsLines(h, requests[0]);
      StepKeepsMoney(h, requests[0]);
      StepKeepsGross(h, requests[0]);
      RunKeepsGross(Step(h, requests[0]), requests[1..]);
    }
  }

  lemma StepKeepsGross(h: History, requested: seq<RequestedLine>)
    requires Lines(h.sold) && Money(h) && GrossIsNear(h)
    ensures GrossIsNear(Step(h, requested)) && InexactSold(Step(h, requested).sold) == InexactSold(h.sold)
  {
    hide GrossIsNear, InexactSold;
    if h.closed {
      ClosedStaysClosed(h, requested);
    } else if Resolve(h.sold, requested, TotalsOf(h)).Accepted? {
      AcceptedKeepsGross(h, requested);
    }
  }

  // ------------------------------------------------------------ main results

  /** A sale nothing has come back on yet. */
  function Opened(sale: Sale, sold: seq<SoldLine>): History {
    History(sale, sold, Refund(0, 0, 0), 0, 0, 0, Refund(0, 0, 0), false)
  }

  lemma OpenedIsSound(sale: Sale, sold: seq<SoldLine>)
    requires Lines(sold)
    ensures Money(Opened(sale, sold))
  {
    assert forall w: int, s: int :: s > 0 ==> Part(w, 0, s) == 0.0;
  }

  /** Weighed or counted, no series of returns gives back more of a line than it sold; and once
      the last unit is back, every sum given is the larger of what the sale took and what the
      partial returns had already given, so the shop never keeps the customer short. The sale took
      its lines at list price, less the discount and the points spent on it. */
  lemma ReturnsSettleTheSale(sale: Sale, sold: seq<SoldLine>, requests: seq<seq<RequestedLine>>)
    requires Distinct(sold, ItemId) && forall l :: l in sold ==> l.alreadyReturned == 0.0 && l.quantity >= 0.0
    ensures
      var h := Run(Opened(sale, sold), requests);
      var took := Subtotal(sold) - sale.discountAmount - sale.pointsRedeemed;
      && (forall l :: l in h.sold ==> 0.0 <= l.alreadyReturned <= l.quantity)
      && (h.closed ==>
            && (forall l :: l in h.sold ==> l.alreadyReturned == l.quantity)
            && h.given.amount == Larger(took, h.fromPartials.amount)
            && h.given.pointsRestored == Larger(sale.pointsRedeemed, h.fromPartials.pointsRestored)
            && h.given.pointsRevoked == Larger(sale.pointsEarned, h.fromPartials.pointsRevoked))
      && (!h.closed && h.partials > 0 ==> exists l :: l in h.sold && l.alreadyReturned < l.quantity)
  {
    hide Run, Distinct, Subtotal, WithinShares;
    OpenedIsSound(sale, sold);
    RunKeepsMoney(Opened(sale, sold), requests);
  }

  /** What was given of a sum exceeds it by at most half a unit for each partial return, plus the sum's
      own share of half a tenge for each rounded line. */
  predicate AtMost(given: int, whole: int, subtotal: int, rounded: nat, partials: nat) {
    if subtotal <= 0 then given <= whole
    else 2.0 * given as real <= 2.0 * whole as real + Part(whole, rounded, subtotal) + partials as real
  }

  lemma PartMonotone(whole: int, a: int, b: int, subtotal: int)
    requires subtotal > 0 && whole >= 0 && a <= b
    ensures Part(whole, a, subtotal) <= Part(whole, b, subtotal)
  {
    PartAdds(whole, a, b - a, subtotal);
    var share := (b - a) as real / subtotal as real;
    assert share >= 0.0;
    assert whole as real * share >= 0.0;
  }

  lemma PartOfAll(whole: int, subtotal: int)
    requires subtotal > 0
    ensures Part(whole, subtotal, subtotal) == whole as real
    ensures Part(whole, 0, subtotal) == 0.0
  {
    assert subtotal as real / subtotal as real == 1.0;
  }

  lemma ColumnBound(whole: int, given: int, fromPartials: int, gross: int, subtotal: int, rounded: nat, partials: nat)
    requires whole >= 0 && 2 * gross <= 2 * subtotal + rounded
    requires given == fromPartials || given == Larger(whole, fromPartials)
    requires if subtotal <= 0 then fromPartials == 0
             else fromPartials as real <= Part(whole, gross, subtotal) + partials as real / 2.0
    ensures AtMost(given, whole, subtotal, rounded, partials)
  {
    hide Part;
    if subtotal > 0 {
      PartAdds(whole, gross, gross, subtotal);
      PartAdds(whole, subtotal, subtotal, subtotal);
      PartAdds(whole, 2 * subtotal, rounded, subtotal);
      PartOfAll(whole, subtotal);
      PartMonotone(whole, 2 * gross, 2 * subtotal + rounded, subtotal);
      PartMonotone(whole, 0, rounded, subtotal);
      assert gross + gross == 2 * gross && subtotal + subtotal == 2 * subtotal;
    }
  }

  /** A sum no larger than the sale's list price: half a tenge for each rounded line at most. */
  lemma HalfATengeALine(given: int, whole: int, subtotal: int, rounded: nat, partials: nat)
    requires AtMost(given, whole, subtotal, rounded, partials) && 0 <= whole <= subtotal
    ensures 2 * given <= 2 * whole + partials + rounded
  {
    hide Part;
    if subtotal > 0 {
      PartOfLess(whole, rounded, subtotal);
    }
  }

  lemma PartOfLess(whole: int, gross: nat, subtotal: int)
    requires 0 <= whole <= subtotal && subtotal > 0
    ensures Part(whole, gross, subtotal) <= gross as real
  {
    ShareOfLess(whole as real, gross as real, subtotal as real);
  }

  lemma ShareOfLess(whole: real, gross: real, subtotal: real)
    requires 0.0 <= whole <= subtotal && subtotal > 0.0 && gross >= 0.0
    ensures whole * (gross / subtotal) <= gross
  {
    var share := gross / subtotal;
    assert share >= 0.0 && share * subtotal == gross;
    ScaledDown(share, whole, subtotal);
  }

  lemma ScaledDown(share: real, a: real, b: real)
    requires share >= 0.0 && a <= b
    ensures a * share <= share * b
  {
    assert share * (b - a) >= 0.0;
  }

  /** However goods are weighed, what the shop gives beyond what it took is bounded: by half a tenge, or
      half a point, for each return that did not close the sale, and by half a tenge for each line that
      had to be rounded, in those returns and in the sale. */
  lemma RoundingIsBounded(sale: Sale, sold: seq<SoldLine>, requests: seq<seq<RequestedLine>>)
    requires Distinct(sold, ItemId) && Priced(sold)
    requires forall l :: l in sold ==> l.alreadyReturned == 0.0 && l.quantity >= 0.0
    requires NonNegative(Wholes(Opened(sale, sold)))
    ensures
      var h := Run(Opened(sale, sold), requests);
      var rounded := h.inexact + InexactSold(sold);
      && AtMost(h.given.amount, Wholes(h).amount, Subtotal(sold), rounded, h.partials)
      && AtMost(h.given.pointsRestored, Wholes(h).pointsRestored, Subtotal(sold), rounded, h.partials)
      && AtMost(h.given.pointsRevoked, Wholes(h).pointsRevoked, Subtotal(sold), rounded, h.partials)
      && (Wholes(h).amount <= Subtotal(sold) ==> 2 * h.given.amount <= 2 * Wholes(h).amount + h.partials + rounded)
  {
    hide Part, Wholes, Run, Distinct, Subtotal, InexactSold, ReturnedWorth, AtMost;
    var h := Run(Opened(sale, sold), requests);
    OpenedIsSound(sale, sold);
    RunKeepsMoney(Opened(sale, sold), requests);
    NothingReturned(sold);
    RunKeepsGross(Opened(sale, sold), requests);
    RunKeepsSubtotal(Opened(sale, sold), requests);
    var s, rounded := Subtotal(sold), h.inexact + InexactSold(sold);
    ColumnBound(Wholes(h).amount, h.given.amount, h.fromPartials.amount, h.partialGross, s, rounded, h.partials);
    ColumnBound(Wholes(h).pointsRestored, h.given.pointsRestored, h.fromPartials.pointsRestored, h.partialGross, s,
                rounded, h.partials);
    ColumnBound(Wholes(h).pointsRevoked, h.given.pointsRevoked, h.fromPartials.pointsRevoked, h.partialGross, s,
                rounded, h.partials);
    if Wholes(h).amount <= s {
      HalfATengeALine(h.given.amount, Wholes(h).amount, s, rounded, h.partials);
    }
  }

  lemma {:induction false} RunKeepsSubtotal(h: History, requests: seq<seq<RequestedLine>>)
    requires Lines(h.sold)
    ensures Subtotal(Run(h, requests).sold) == Subtotal(h.sold) && Run(h, requests).sale == h.sale
    decreases |requests|
  {
    hide Lines, Subtotal;
    if requests != [] {
      StepKeepsLines(h, requests[0]);
      RunKeepsSubtotal(Step(h, requests[0]), requests[1..]);
    }
  }

  lemma {:induction false} NothingReturned(sold: seq<SoldLine>)
    requires Priced(sold) && forall l :: l in sold ==> l.alreadyReturned == 0.0 && l.quantity >= 0.0
    ensures ReturnedWorth(sold) == 0.0 && 0 <= Subtotal(sold)
  {
    if sold != [] {
      assert sold[0] in sold && forall l :: l in sold[1..] ==> l in sold;
      NothingReturned(sold[1..]);
      WorthGrows(sold[0].price, 0.0, sold[0].quantity);
      RoundBounds(Worth(sold[0].price, sold[0].quantity));
    }
  }

  // --------------------------------------------------- one return, in figures

  /** `n` is the whole number nearest to the share of `whole` that `gross` is of `total`, the larger of two. */
  predicate NearestShare(n: int, whole: int, gross: int, total: int) {
    if total <= 0 then n == 0 else (2 * n - 1) * total <= 2 * (whole * gross) < (2 * n + 1) * total
  }

  /** What one return gives: the last unit brings back all that is left of what the sale took, any other
      return its share, to the nearest whole, of the lines at list price less discount and points. */
  lemma OneReturnRefunds(h: History, requested: seq<RequestedLine>)
    requires Resolve(h.sold, requested, TotalsOf(h)).Accepted?
    ensures
      var given := Resolve(h.sold, requested, TotalsOf(h));
      var total, gross := Subtotal(h.sold), Gross(given.lines);
      var took := total - h.sale.discountAmount - h.sale.pointsRedeemed;
      if given.isFullReturn then
        given.refund == Refund(if took > h.given.amount then took - h.given.amount else 0,
                               if h.sale.pointsRedeemed > h.given.pointsRestored
                               then h.sale.pointsRedeemed - h.given.pointsRestored else 0,
                               if h.sale.pointsEarned > h.given.pointsRevoked
                               then h.sale.pointsEarned - h.given.pointsRevoked else 0)
      else
        && NearestShare(given.refund.amount, took, gross, total)
        && NearestShare(given.refund.pointsRestored, h.sale.pointsRedeemed, gross, total)
        && NearestShare(given.refund.pointsRevoked, h.sale.pointsEarned, gross, total)
  {
    hide Collected, Resolved, IsFull, Gross, Subtotal, Part, Round, NearestShare;
    NoShare(Subtotal(h.sold));
    var m, gross, full := AcceptedStep(h, requested);
    var total, took := Subtotal(h.sold), Subtotal(h.sold) - h.sale.discountAmount - h.sale.pointsRedeemed;
    if total > 0 {
      RoundedShare(took, gross, total);
      RoundedShare(h.sale.pointsRedeemed, gross, total);
      RoundedShare(h.sale.pointsEarned, gross, total);
    }
  }

  lemma NoShare(total: int)
    ensures total <= 0 ==> forall whole, gross :: NearestShare(0, whole, gross, total)
  {
  }

  lemma RoundedShare(whole: int, gross: int, total: int)
    requires total > 0
    ensures NearestShare(Round(Part(whole, gross, total)), whole, gross, total)
  {
    var w, g, t := whole as real, gross as real, total as real;
    var n, p := Round(Part(whole, gross, total)), Part(whole, gross, total);
    assert p * t == w * g by {
      var q := g / t;
      assert q * t == g;
      assert w * q * t == w * (q * t);
    }
    Scaled(n as real - 0.5, p, t);
    NearestBelow(p, n as real + 0.5, t);
    CastProduct(whole, gross);
    CastProduct(2 * n - 1, total);
    CastProduct(2 * n + 1, total);
    assert 2.0 * ((n as real - 0.5) * t) == (2.0 * n as real - 1.0) * t;
    assert 2.0 * ((n as real + 0.5) * t) == (2.0 * n as real + 1.0) * t;
  }

  lemma Scaled(a: real, b: real, t: real)
    requires a <= b && t > 0.0
    ensures a * t <= b * t
  {
    assert (b - a) * t >= 0.0;
  }

  lemma NearestBelow(a: real, b: real, t: real)
    requires a < b && t > 0.0
    ensures a * t < b * t
  {
    assert (b - a) * t > 0.0;
  }

  // ------------------------------------------------ which returns are accepted

  /** How much of one line of the sale a request asks back. */
  function AskedOf(id: string): RequestedLine -> real {
    (r: RequestedLine) => if r.documentItemId == id then r.quantity else 0.0
  }

  lemma OneAskedMore(before: seq<RequestedLine>, line: RequestedLine, id: string)
    ensures SumBy(before + [line], AskedOf(id)) == SumBy(before, AskedOf(id)) + AskedOf(id)(line)
  {
    SumByConcat(before, [line], AskedOf(id));
    assert [line][1..] == [];
  }

  /** The map holds, line by line, the sum of what was asked of it. */
  lemma {:induction false} CollectedAmounts(sold: seq<SoldLine>, requested: seq<RequestedLine>, id: string)
    requires Collected(sold, requested).Ok?
    ensures AmountFor(Collected(sold, requested).value, id) == SumBy(requested, AskedOf(id))
    ensures Has(Collected(sold, requested).value, id) <==> exists r :: r in requested && r.documentItemId == id
  {
    hide Set, SoldLineFor;
    if requested != [] {
      var before, line := requested[..|requested| - 1], requested[|requested| - 1];
      assert requested == before + [line];
      CollectedAmounts(sold, before, id);
      CollectedAmounts(sold, before, line.documentItemId);
      OneAskedMore(before, line, id);
      GetSet(Collected(sold, before).value, line.documentItemId,
             AmountFor(Collected(sold, before).value, line.documentItemId) + line.quantity, id);
    }
  }

  /** Every line asks for something that was sold, and no line of the sale for more than is left of it. */
  ghost predicate MayComeBack(sold: seq<SoldLine>, requested: seq<RequestedLine>) {
    forall r :: r in requested ==>
      && r.quantity > 0.0
      && exists l :: l in sold && l.documentItemId == r.documentItemId
           && SumBy(requested, AskedOf(l.documentItemId)) <= l.quantity - l.alreadyReturned
  }

  lemma {:induction false} AskedGrows(before: seq<RequestedLine>, line: RequestedLine, id: string)
    requires line.quantity >= 0.0
    ensures SumBy(before, AskedOf(id)) <= SumBy(before + [line], AskedOf(id))
  {
    OneAskedMore(before, line, id);
  }

  lemma MayComeBackPrefix(sold: seq<SoldLine>, before: seq<RequestedLine>, line: RequestedLine)
    requires MayComeBack(sold, before + [line])
    ensures MayComeBack(sold, before)
  {
    hide SumBy;
    var all := before + [line];
    assert line in all;
    forall r | r in before
      ensures r.quantity > 0.0
      ensures exists l ::
        l in sold && l.documentItemId == r.documentItemId
        && SumBy(before, AskedOf(l.documentItemId)) <= l.quantity - l.alreadyReturned
    {
      assert r in all;
      AskedGrows(before, line, r.documentItemId);
    }
  }

  lemma {:induction false} CollectedOkIff(sold: seq<SoldLine>, requested: seq<RequestedLine>)
    requires Distinct(sold, ItemId)
    ensures Collected(sold, requested).Ok? <==> MayComeBack(sold, requested)
  {
    hide SoldLineFor, Set, Distinct, SumBy, AmountFor;
    if requested != [] {
      var before, line := requested[..|requested| - 1], requested[|requested| - 1];
      assert requested == before + [line] && line in requested;
      CollectedOkIff(sold, before);
      if Collected(sold, requested).Ok? {
        AcceptedMayComeBack(sold, requested);
      }
      if MayComeBack(sold, requested) {
        MayComeBackPrefix(sold, before, line);
        CollectedAmounts(sold, before, line.documentItemId);
        OneAskedMore(before, line, line.documentItemId);
        var l :| l in sold && l.documentItemId == line.documentItemId
          && SumBy(requested, AskedOf(l.documentItemId)) <= l.quantity - l.alreadyReturned;
        OwnLine(sold, l);
      }
    } else {
      assert Collected(sold, requested) == Ok([]);
    }
  }

  lemma AcceptedMayComeBack(sold: seq<SoldLine>, requested: seq<RequestedLine>)
    requires Collected(sold, requested).Ok?
    ensures MayComeBack(sold, requested)
  {
    hide Collected, SoldLineFor, SumBy;
    var m := Collected(sold, requested).value;
    CollectedFacts(sold, requested);
    AllAsked(sold, requested);
    forall r | r in requested
      ensures exists l ::
        l in sold && l.documentItemId == r.documentItemId
        && SumBy(requested, AskedOf(l.documentItemId)) <= l.quantity - l.alreadyReturned
    {
      var id := r.documentItemId;
      CollectedAmounts(sold, requested, id);
      GetEntry(m, id);
      assert (id, Get(m, id).value) in m;
      SoldLineMember(sold, id);
      SoldLineIsIt(sold, id);
      var l := SoldLineFor(sold, id).value;
      assert SumBy(requested, AskedOf(l.documentItemId)) <= l.quantity - l.alreadyReturned;
    }
  }

  lemma {:induction false} AllAsked(sold: seq<SoldLine>, requested: seq<RequestedLine>)
    requires Collected(sold, requested).Ok?
    ensures forall r :: r in requested ==> r.quantity > 0.0
  {
    if requested != [] {
      AllAsked(sold, requested[..|requested| - 1]);
      assert forall r :: r in requested <==>
        r in requested[..|requested| - 1] || r == requested[|requested| - 1];
    }
  }

  /** A return is accepted exactly when it asks for something, nothing it asks for is missing from the sale
      or without quantity, and no line is asked for beyond what is left of it, repeats added up. */
  lemma ReturnAcceptedIff(sold: seq<SoldLine>, requested: seq<RequestedLine>, totals: SaleTotals)
    requires Distinct(sold, ItemId)
    ensures Resolve(sold, requested, totals).Accepted? <==> requested != [] && MayComeBack(sold, requested)
  {
    hide Collected, MayComeBack, Distinct;
    CollectedOkIff(sold, requested);
    CollectedFacts(sold, requested);
  }

  /** The first line that cannot come back decides the refusal, and says why. */
  lemma FirstObjectionDecides(sold: seq<SoldLine>, requested: seq<RequestedLine>, totals: SaleTotals, k: nat)
    requires Distinct(sold, ItemId) && k < |requested| && MayComeBack(sold, requested[..k])
    ensures
      var line := requested[k];
      var asked := SumBy(requested[..k + 1], AskedOf(line.documentItemId));
      && (line.quantity <= 0.0 ==> Resolve(sold, requested, totals) == Invalid)
      && (line.quantity > 0.0 && (forall l :: l in sold ==> l.documentItemId != line.documentItemId) ==>
            Resolve(sold, requested, totals) == Unknown(line.documentItemId))
      && (forall l ::
            l in sold && l.documentItemId == line.documentItemId
            && line.quantity > 0.0 && asked > l.quantity - l.alreadyReturned ==>
            Resolve(sold, requested, totals) == Excess(line.documentItemId, l.quantity - l.alreadyReturned))
  {
    hide MayComeBack, Distinct, SumBy, Set, SoldLineFor, AmountFor;
    var line, before := requested[k], requested[..k];
    CollectedOkIff(sold, before);
    CollectedAmounts(sold, before, line.documentItemId);
    OneAskedMore(before, line, line.documentItemId);
    assert requested[..k + 1] == before + [line] && requested[..k + 1][..k] == before;
    if Collected(sold, requested[..k + 1]).Err? {
      ErrorStays(sold, requested, k + 1);
    }
    if SoldLineFor(sold, line.documentItemId).Some? {
      SoldLineMember(sold, line.documentItemId);
      SoldLineIsIt(sold, line.documentItemId);
    }
    forall l | l in sold && l.documentItemId == line.documentItemId
      ensures SoldLineFor(sold, line.documentItemId) == Some(l)
    {
      OwnLine(sold, l);
    }
  }

  /** The lines of an accepted return: one for each line of the sale that was asked for, with the sum asked,
      and that line's own product, batch and price. */
  lemma ReturnedLinesMean(sold: seq<SoldLine>, requested: seq<RequestedLine>, totals: SaleTotals, x: ResolvedLine)
    requires Distinct(sold, ItemId) && Resolve(sold, requested, totals).Accepted?
    ensures x in Resolve(sold, requested, totals).lines <==>
      exists l, r :: l in sold && r in requested && r.documentItemId == l.documentItemId
        && x == ResolvedLine(l.documentItemId, l.productId, l.batchId,
                             SumBy(requested, AskedOf(l.documentItemId)), l.price)
  {
    hide Collected, SumBy, SoldLineFor, Distinct, Gross, IsFull, BuildRefund;
    CollectedFacts(sold, requested);
    var m := Collected(sold, requested).value;
    ResolvedMembers(sold, m, x);
    forall e | e in m
      ensures SoldLineFor(sold, e.0).Some? && SoldLineFor(sold, e.0).value in sold
      ensures SoldLineFor(sold, e.0).value.documentItemId == e.0
      ensures e.1 == SumBy(requested, AskedOf(e.0)) && exists r :: r in requested && r.documentItemId == e.0
    {
      SoldLineMember(sold, e.0);
      SoldLineIsIt(sold, e.0);
      GetEntry(m, e.0);
      CollectedAmounts(sold, requested, e.0);
    }
    forall l, r | l in sold && r in requested && r.documentItemId == l.documentItemId
      ensures SoldLineFor(sold, l.documentItemId) == Some(l)
      ensures (l.documentItemId, SumBy(requested, AskedOf(l.documentItemId))) in m
    {
      OwnLine(sold, l);
      CollectedAmounts(sold, requested, l.documentItemId);
      GetEntry(m, l.documentItemId);
    }
  }

  lemma {:induction false} ResolvedMembers(sold: seq<SoldLine>, m: seq<(string, real)>, x: ResolvedLine)
    requires forall e :: e in m ==> SoldLineFor(sold, e.0).Some?
    ensures x in Resolved(sold, m) <==>
      exists e :: e in m && x == (var l := SoldLineFor(sold, e.0).value;
                                  ResolvedLine(e.0, l.productId, l.batchId, e.1, l.price))
  {
    if m != [] {
      assert m[0] in m && forall e :: e in m[1..] ==> e in m;
      ResolvedMembers(sold, m[1..], x);
      assert forall e :: e in m <==> e == m[0] || e in m[1..];
    }
  }

  /** What a return leaves: each line with what was asked of it, and the sums given with what this one gave;
      a refused one changes nothing. */
  lemma StepRecords(h: History, requested: seq<RequestedLine>)
    ensures !Resolve(h.sold, requested, TotalsOf(h)).Accepted? ==> Step(h, requested) == h
    ensures Resolve(h.sold, requested, TotalsOf(h)).Accepted? ==>
      var given, next := Resolve(h.sold, requested, TotalsOf(h)), Step(h, requested);
      && next.sale == h.sale && |next.sold| == |h.sold|
      && (forall i :: 0 <= i < |h.sold| ==>
            var line := h.sold[i];
            next.sold[i] ==
              line.(alreadyReturned := line.alreadyReturned + SumBy(requested, AskedOf(line.documentItemId))))
      && next.given.amount == h.given.amount + given.refund.amount
      && next.given.pointsRestored == h.given.pointsRestored + given.refund.pointsRestored
      && next.given.pointsRevoked == h.given.pointsRevoked + given.refund.pointsRevoked
      && (next.closed <==> given.isFullReturn || h.closed)
  {
    hide Collected, SumBy, Resolved, Gross, BuildRefund, TakenBack;
    CollectedFacts(h.sold, requested);
    if Resolve(h.sold, requested, TotalsOf(h)).Accepted? {
      var m := Collected(h.sold, requested).value;
      TakenBackAt(h.sold, m);
      forall i | 0 <= i < |h.sold|
        ensures AmountFor(m, h.sold[i].documentItemId) == SumBy(requested, AskedOf(h.sold[i].documentItemId))
      {
        CollectedAmounts(h.sold, requested, h.sold[i].documentItemId);
      }
    }
  }

  /** A return completes the sale exactly when nothing is left of any line. */
  lemma FullReturnIff(sold: seq<SoldLine>, requested: seq<RequestedLine>, totals: SaleTotals)
    requires Resolve(sold, requested, totals).Accepted?
    ensures Resolve(sold, requested, totals).isFullReturn <==>
      forall l :: l in sold ==> l.alreadyReturned + SumBy(requested, AskedOf(l.documentItemId)) >= l.quantity
  {
    hide Collected, SumBy, Resolved, Gross, BuildRefund;
    CollectedFacts(sold, requested);
    forall l | l in sold
      ensures AmountFor(Collected(sold, requested).value, l.documentItemId)
        == SumBy(requested, AskedOf(l.documentItemId))
    {
      CollectedAmounts(sold, requested, l.documentItemId);
    }
  }

  // ------------------------------------------- what the requests alone decide

  /** The list prices of the partial returns these requests lead to, one after another: a refused
      request counts for nothing, and nothing follows the return that completes the sale. */
  function Grosses(sold: seq<SoldLine>, requests: seq<seq<RequestedLine>>): seq<int>
    decreases |requests|
  {
    if requests == [] then []
    else if requests[0] == [] then Grosses(sold, requests[1..])
    else
      match Collected(sold, requests[0])
      case Err(_) => Grosses(sold, requests[1..])
      case Ok(m) =>
        CollectedFacts(sold, requests[0]);
        if IsFull(sold, m) then []
        else [Gross(Resolved(sold, m))] + Grosses(TakenBack(sold, m), requests[1..])
  }

  function SumOf(grosses: seq<int>): int {
    if grosses == [] then 0 else grosses[0] + SumOf(grosses[1..])
  }

  /** A sum's exact shares of these returns, each rounded. */
  function RoundedShares(whole: int, grosses: seq<int>, subtotal: int): int {
    if grosses == [] || subtotal <= 0 then 0
    else Round(Part(whole, grosses[0], subtotal)) + RoundedShares(whole, grosses[1..], subtotal)
  }

  function SharesOf(wholes: Refund, grosses: seq<int>, subtotal: int): Refund {
    Refund(RoundedShares(wholes.amount, grosses, subtotal), RoundedShares(wholes.pointsRestored, grosses, subtotal),
           RoundedShares(wholes.pointsRevoked, grosses, subtotal))
  }

  /** The history these requests lead to is this one with those partial returns added. */
  predicate Adds(h: History, next: History, grosses: seq<int>) {
    && next.partials == h.partials + |grosses| && next.partialGross == h.partialGross + SumOf(grosses)
    && next.fromPartials == Plus(h.fromPartials, SharesOf(Wholes(h), grosses, Subtotal(h.sold)))
  }

  lemma NothingAdded(h: History, next: History)
    requires next.partials == h.partials && next.partialGross == h.partialGross && next.fromPartials == h.fromPartials
    ensures Adds(h, next, [])
  {
  }

  lemma OneAdded(h: History, mid: History, next: History, gross: int, rest: seq<int>)
    requires mid.partials == h.partials + 1 && mid.partialGross == h.partialGross + gross
    requires mid.fromPartials == Plus(h.fromPartials, BuildRefund(gross, TotalsOf(h), false))
    requires Wholes(mid) == Wholes(h) && Subtotal(mid.sold) == Subtotal(h.sold) && Adds(mid, next, rest)
    ensures Adds(h, next, [gross] + rest)
  {
    hide Part, Round, Subtotal;
    assert ([gross] + rest)[1..] == rest;
  }

  lemma {:induction false} ClosedRun(h: History, requests: seq<seq<RequestedLine>>)
    requires Lines(h.sold) && Money(h) && h.closed
    ensures Run(h, requests) == h
    decreases |requests|
  {
    hide Lines, Step;
    if requests != [] {
      ClosedStaysClosed(h, requests[0]);
      ClosedRun(h, requests[1..]);
    }
  }

  lemma RefusedGrosses(h: History, requests: seq<seq<RequestedLine>>)
    requires requests != [] && !Resolve(h.sold, requests[0], TotalsOf(h)).Accepted?
    ensures Grosses(h.sold, requests) == Grosses(h.sold, requests[1..]) && Step(h, requests[0]) == h
  {
  }

  lemma AcceptedGrosses(sold: seq<SoldLine>, requests: seq<seq<RequestedLine>>, m: seq<(string, real)>)
    requires requests != [] && requests[0] != [] && Collected(sold, requests[0]) == Ok(m)
    ensures forall e :: e in m ==> SoldLineFor(sold, e.0).Some?
    ensures Grosses(sold, requests) ==
      if IsFull(sold, m) then [] else [Gross(Resolved(sold, m))] + Grosses(TakenBack(sold, m), requests[1..])
  {
    CollectedFacts(sold, requests[0]);
  }

  lemma {:induction false} RunFollowsRequests(h: History, requests: seq<seq<RequestedLine>>)
    requires Lines(h.sold) && Money(h) && !h.closed
    ensures Adds(h, Run(h, requests), Grosses(h.sold, requests))
    decreases |requests|
  {
    hide Lines, Money, Step, Resolve, Collected, Grosses, Gross, Resolved, IsFull, TakenBack, BuildRefund, Adds,
      Subtotal, Inexact;
    if requests == [] {
      assert Grosses(h.sold, requests) == [] by {
        NoGrosses(h.sold);
      }
      NothingAdded(h, h);
    } else if !Resolve(h.sold, requests[0], TotalsOf(h)).Accepted? {
      RefusedGrosses(h, requests);
      RunFollowsRequests(h, requests[1..]);
    } else {
      var m, gross, full := AcceptedStep(h, requests[0]);
      AskedForSomething(h, requests[0]);
      AcceptedGrosses(h.sold, requests, m);
      var next := Step(h, requests[0]);
      StepKeepsLines(h, requests[0]);
      StepKeepsMoney(h, requests[0]);
      if full {
        ClosedRun(next, requests[1..]);
        NothingAdded(h, next);
      } else {
        RunFollowsRequests(next, requests[1..]);
        OneAdded(h, next, Run(next, requests[1..]), gross, Grosses(next.sold, requests[1..]));
      }
    }
  }

  lemma NoGrosses(sold: seq<SoldLine>)
    ensures Grosses(sold, []) == []
  {
  }

  lemma AskedForSomething(h: History, requested: seq<RequestedLine>)
    requires Resolve(h.sold, requested, TotalsOf(h)).Accepted?
    ensures requested != []
  {
  }

  /** For any sale, discounted or not, and any returns: half a tenge, or half a point, a partial return is
      enough exactly when the rounded shares of the partial returns exceed the sum by no more than that. */
  lemma HalfATengeIff(sale: Sale, sold: seq<SoldLine>, requests: seq<seq<RequestedLine>>)
    requires Distinct(sold, ItemId) && forall l :: l in sold ==> l.alreadyReturned == 0.0 && l.quantity >= 0.0
    ensures
      var h, wholes, grosses := Run(Opened(sale, sold), requests), Wholes(Opened(sale, sold)), Grosses(sold, requests);
      var shares := SharesOf(wholes, grosses, Subtotal(sold));
      && h.partials == |grosses|
      && (2 * h.given.amount <= 2 * wholes.amount + |grosses|
        <==> 2 * shares.amount <= 2 * wholes.amount + |grosses|)
      && (2 * h.given.pointsRestored <= 2 * wholes.pointsRestored + |grosses|
        <==> 2 * shares.pointsRestored <= 2 * wholes.pointsRestored + |grosses|)
      && (2 * h.given.pointsRevoked <= 2 * wholes.pointsRevoked + |grosses|
        <==> 2 * shares.pointsRevoked <= 2 * wholes.pointsRevoked + |grosses|)
  {
    hide Run, Distinct, Subtotal, RoundedShares, Grosses, WithinShares, SumOf, Wholes;
    OpenedIsSound(sale, sold);
    RunKeepsMoney(Opened(sale, sold), requests);
    RunFollowsRequests(Opened(sale, sold), requests);
  }

  lemma GrossesAddUp(sale: Sale, sold: seq<SoldLine>, requests: seq<seq<RequestedLine>>)
    requires Lines(sold)
    ensures Run(Opened(sale, sold), requests).partialGross == SumOf(Grosses(sold, requests))
    ensures Run(Opened(sale, sold), requests).partials == |Grosses(sold, requests)|
  {
    hide Run, Lines, Subtotal, Wholes, Grosses, SumOf;
    OpenedIsSound(sale, sold);
    RunFollowsRequests(Opened(sale, sold), requests);
  }

  /** As long as the partial returns add up to no more than the sale at list price, each of them costs
      at most half a tenge, or half a point, whatever was rounded. */
  lemma HalfATengeAReturn(sale: Sale, sold: seq<SoldLine>, requests: seq<seq<RequestedLine>>)
    requires Distinct(sold, ItemId) && forall l :: l in sold ==> l.alreadyReturned == 0.0 && l.quantity >= 0.0
    requires NonNegative(Wholes(Opened(sale, sold)))
    requires SumOf(Grosses(sold, requests)) <= Subtotal(sold)
    ensures
      var h := Run(Opened(sale, sold), requests);
      && 2 * h.given.amount <= 2 * Wholes(h).amount + h.partials
      && 2 * h.given.pointsRestored <= 2 * Wholes(h).pointsRestored + h.partials
      && 2 * h.given.pointsRevoked <= 2 * Wholes(h).pointsRevoked + h.partials
  {
    hide Part, Wholes, Run, Distinct, Subtotal, Grosses, SumOf, SharesOf;
    var h := Run(Opened(sale, sold), requests);
    OpenedIsSound(sale, sold);
    RunKeepsMoney(Opened(sale, sold), requests);
    RunKeepsSubtotal(Opened(sale, sold), requests);
    GrossesAddUp(sale, sold, requests);
    RunKeepsSubtotal(Opened(sale, sold), requests);
    var s := Subtotal(sold);
    NoneRounded(Wholes(h).amount, h.given.amount, h.fromPartials.amount, h.partialGross, s, h.partials);
    NoneRounded(Wholes(h).pointsRestored, h.given.pointsRestored, h.fromPartials.pointsRestored, h.partialGross, s,
      h.partials);
    NoneRounded(Wholes(h).pointsRevoked, h.given.pointsRevoked, h.fromPartials.pointsRevoked, h.partialGross, s,
      h.partials);
  }

  lemma NoneRounded(whole: int, given: int, fromPartials: int, gross: int, subtotal: int, partials: nat)
    requires whole >= 0 && gross <= subtotal
    requires given == fromPartials || given == Larger(whole, fromPartials)
    requires if subtotal <= 0 then fromPartials == 0
             else fromPartials as real <= Part(whole, gross, subtotal) + partials as real / 2.0
    ensures 2 * given <= 2 * whole + partials
  {
    hide Part;
    ColumnBound(whole, given, fromPartials, gross, subtotal, 0, partials);
    if subtotal > 0 {
      PartOfAll(whole, subtotal);
    }
  }

  // ------------------------------------------------------------ whole prices

  /** Every line asked for comes to whole tenge: pieces, or weights that happen to. */
  predicate WholePrices(sold: seq<SoldLine>, requested: seq<RequestedLine>) {
    forall r :: r in requested ==> IsWhole(Worth(PriceFor(sold, r.documentItemId), r.quantity))
  }

  lemma {:induction false} CastProduct(p: int, n: int)
    ensures (p * n) as real == p as real * n as real
    decreases if n < 0 then -n else n
  {
    if n > 0 {
      CastProduct(p, n - 1);
      assert p * n == p * (n - 1) + p;
      assert p as real * n as real == p as real * (n - 1) as real + p as real;
    } else if n < 0 {
      CastProduct(p, n + 1);
      assert p * n == p * (n + 1) - p;
      assert p as real * n as real == p as real * (n + 1) as real - p as real;
    }
  }

  lemma WholeWorth(price: int, q: real)
    requires IsWhole(q)
    ensures IsWhole(Worth(price, q))
  {
    CastProduct(price, q.Floor);
    assert Worth(price, q) == (price * q.Floor) as real;
  }

  lemma SumIsWhole(a: real, b: real)
    requires IsWhole(a) && IsWhole(b)
    ensures IsWhole(a + b)
  {
    assert a + b == (a.Floor + b.Floor) as real;
  }

  /** How many lines of a request do not come to whole tenge. */
  function InexactAsked(sold: seq<SoldLine>, requested: seq<RequestedLine>): nat {
    if requested == [] then 0
    else
      var line := requested[|requested| - 1];
      InexactAsked(sold, requested[..|requested| - 1])
      + if IsWhole(Worth(PriceFor(sold, line.documentItemId), line.quantity)) then 0 else 1
  }

  function InexactEntries(sold: seq<SoldLine>, m: seq<(string, real)>): nat {
    if m == [] then 0
    else (if IsWhole(Worth(PriceFor(sold, m[0].0), m[0].1)) then 0 else 1) + InexactEntries(sold, m[1..])
  }

  lemma {:induction false} SetInexact(sold: seq<SoldLine>, m: seq<(string, real)>, id: string, more: real)
    ensures InexactEntries(sold, Set(m, id, AmountFor(m, id) + more))
      <= InexactEntries(sold, m) + if IsWhole(Worth(PriceFor(sold, id), more)) then 0 else 1
  {
    hide IsWhole, Worth, PriceFor;
    if m == [] {
      var one := [(id, 0.0 + more)];
      assert Set(m, id, AmountFor(m, id) + more) == one && one[1..] == [];
    } else if m[0].0 == id {
      WorthAdds(PriceFor(sold, id), m[0].1, more);
      if IsWhole(Worth(PriceFor(sold, id), m[0].1)) && IsWhole(Worth(PriceFor(sold, id), more)) {
        SumIsWhole(Worth(PriceFor(sold, id), m[0].1), Worth(PriceFor(sold, id), more));
      }
    } else {
      SetInexact(sold, m[1..], id, more);
    }
  }

  lemma {:induction false} EntriesWithinAsked(sold: seq<SoldLine>, requested: seq<RequestedLine>)
    requires Collected(sold, requested).Ok?
    ensures InexactEntries(sold, Collected(sold, requested).value) <= InexactAsked(sold, requested)
  {
    hide IsWhole, Worth, PriceFor, Set, SoldLineFor;
    if requested != [] {
      var before, line := requested[..|requested| - 1], requested[|requested| - 1];
      EntriesWithinAsked(sold, before);
      SetInexact(sold, Collected(sold, before).value, line.documentItemId, line.quantity);
    }
  }

  lemma {:induction false} InexactResolved(sold: seq<SoldLine>, m: seq<(string, real)>)
    requires forall e :: e in m ==> SoldLineFor(sold, e.0).Some?
    ensures Inexact(Resolved(sold, m)) == InexactEntries(sold, m)
  {
    if m != [] {
      assert m[0] in m && forall e :: e in m[1..] ==> e in m;
      InexactResolved(sold, m[1..]);
      assert Resolved(sold, m)[1..] == Resolved(sold, m[1..]);
    }
  }

  lemma {:induction false} SamePricesAsked(sold: seq<SoldLine>, after: seq<SoldLine>, requested: seq<RequestedLine>)
    requires forall id :: PriceFor(after, id) == PriceFor(sold, id)
    ensures InexactAsked(after, requested) == InexactAsked(sold, requested)
  {
    hide PriceFor, IsWhole, Worth;
    if requested != [] {
      SamePricesAsked(sold, after, requested[..|requested| - 1]);
    }
  }

  lemma StepRounds(h: History, requested: seq<RequestedLine>)
    ensures Step(h, requested).inexact - h.inexact
      <= InexactAsked(h.sold, requested) * (Step(h, requested).partials - h.partials)
    ensures h.partials <= Step(h, requested).partials <= h.partials + 1
    ensures forall id :: PriceFor(Step(h, requested).sold, id) == PriceFor(h.sold, id)
  {
    hide PriceFor, Collected, Resolved, IsFull, Gross, Inexact, TakenBack, Resolve, InexactAsked, InexactEntries;
    if Resolve(h.sold, requested, TotalsOf(h)).Accepted? {
      var m, gross, full := AcceptedStep(h, requested);
      EntriesWithinAsked(h.sold, requested);
      InexactResolved(h.sold, m);
      TakenBackKeepsPrices(h.sold, m);
    }
  }

  /** With at most `k` such lines in a request, at most `k` a partial return are rounded. */
  lemma {:induction false} RunRounds(h: History, requests: seq<seq<RequestedLine>>, k: nat)
    requires forall r :: r in requests ==> InexactAsked(h.sold, r) <= k
    ensures h.partials <= Run(h, requests).partials
    ensures Run(h, requests).inexact - h.inexact <= k * (Run(h, requests).partials - h.partials)
    decreases |requests|
  {
    hide Step, InexactAsked;
    if requests != [] {
      assert requests[0] in requests && forall r :: r in requests[1..] ==> r in requests;
      var next := Step(h, requests[0]);
      StepRounds(h, requests[0]);
      forall r | r in requests[1..]
        ensures InexactAsked(next.sold, r) <= k
      {
        SamePricesAsked(h.sold, next.sold, r);
      }
      RunRounds(next, requests[1..], k);
      AtMostTimes(InexactAsked(h.sold, requests[0]), k, next.partials - h.partials,
                  Run(next, requests[1..]).partials - next.partials);
    }
  }

  lemma AtMostTimes(a: nat, k: nat, n: nat, rest: nat)
    requires a <= k
    ensures a * n + k * rest <= k * (n + rest)
  {
    assert a * n <= k * n;
    assert k * (n + rest) == k * n + k * rest;
  }

  lemma {:induction false} WholeAsked(sold: seq<SoldLine>, requested: seq<RequestedLine>)
    requires WholePrices(sold, requested)
    ensures InexactAsked(sold, requested) == 0
  {
    if requested != [] {
      assert requested[|requested| - 1] in requested;
      assert forall r :: r in requested[..|requested| - 1] ==> r in requested;
      WholeAsked(sold, requested[..|requested| - 1]);
    }
  }

  lemma {:induction false} NoneInexact(sold: seq<SoldLine>)
    requires forall l :: l in sold ==> IsWhole(Worth(l.price, l.quantity))
    ensures InexactSold(sold) == 0
  {
    if sold != [] {
      assert sold[0] in sold && forall l :: l in sold[1..] ==> l in sold;
      NoneInexact(sold[1..]);
    }
  }

  /** Where every line comes to whole tenge rounding costs the shop at most half a tenge for each return
      that did not close the sale. */
  lemma WholePricesCostHalfATenge(sale: Sale, sold: seq<SoldLine>, requests: seq<seq<RequestedLine>>)
    requires Distinct(sold, ItemId) && Priced(sold)
    requires forall l ::
      l in sold ==> l.alreadyReturned == 0.0 && l.quantity >= 0.0 && IsWhole(Worth(l.price, l.quantity))
    requires forall r :: r in requests ==> WholePrices(sold, r)
    requires NonNegative(Wholes(Opened(sale, sold)))
    ensures
      var h := Run(Opened(sale, sold), requests);
      && 2 * h.given.amount <= 2 * Wholes(h).amount + h.partials
      && 2 * h.given.pointsRestored <= 2 * Wholes(h).pointsRestored + h.partials
      && 2 * h.given.pointsRevoked <= 2 * Wholes(h).pointsRevoked + h.partials
  {
    hide Run, Wholes, Distinct, Subtotal, Part, WholePrices, InexactSold, IsWhole, Worth;
    NoneInexact(sold);
    forall r | r in requests
      ensures InexactAsked(sold, r) == 0
    {
      WholeAsked(sold, r);
    }
    RunRounds(Opened(sale, sold), requests, 0);
    RoundingIsBounded(sale, sold, requests);
    if Subtotal(sold) > 0 {
      PartOfAll(Wholes(Run(Opened(sale, sold), requests)).amount, Subtotal(sold));
      PartOfAll(Wholes(Run(Opened(sale, sold), requests)).pointsRestored, Subtotal(sold));
      PartOfAll(Wholes(Run(Opened(sale, sold), requests)).pointsRevoked, Subtotal(sold));
    }
  }

  /** Goods sold by the piece come to whole tenge. */
  lemma PiecesAreWhole(sold: seq<SoldLine>, requested: seq<RequestedLine>)
    requires forall r :: r in requested ==> IsWhole(r.quantity)
    ensures WholePrices(sold, requested)
  {
    forall r | r in requested
      ensures IsWhole(Worth(PriceFor(sold, r.documentItemId), r.quantity))
    {
      WholeWorth(PriceFor(sold, r.documentItemId), r.quantity);
    }
  }

  /** So it is for goods sold by the piece, at any prices. */
  lemma PiecesCostHalfATenge(sale: Sale, sold: seq<SoldLine>, requests: seq<seq<RequestedLine>>)
    requires Distinct(sold, ItemId) && Priced(sold)
    requires forall l :: l in sold ==> l.alreadyReturned == 0.0 && l.quantity >= 0.0 && IsWhole(l.quantity)
    requires forall request, r :: request in requests && r in request ==> IsWhole(r.quantity)
    requires NonNegative(Wholes(Opened(sale, sold)))
    ensures
      var h := Run(Opened(sale, sold), requests);
      && 2 * h.given.amount <= 2 * Wholes(h).amount + h.partials
      && 2 * h.given.pointsRestored <= 2 * Wholes(h).pointsRestored + h.partials
      && 2 * h.given.pointsRevoked <= 2 * Wholes(h).pointsRevoked + h.partials
  {
    hide Run, Wholes, Distinct, Subtotal, WholePrices, IsWhole, Worth;
    forall l | l in sold
      ensures IsWhole(Worth(l.price, l.quantity))
    {
      WholeWorth(l.price, l.quantity);
    }
    forall request | request in requests
      ensures WholePrices(sold, request)
    {
      PiecesAreWhole(sold, request);
    }
    WholePricesCostHalfATenge(sale, sold, requests);
  }

  // ----------------------------------------------------- without a discount

  /** With nothing taken off the price, a partial return gives its list price back. */
  ghost predicate GivesListPrice(h: History) {
    && h.sale.discountAmount == 0 && h.sale.pointsRedeemed == 0
    && (if Subtotal(h.sold) <= 0 then h.partialGross == 0 && h.fromPartials.amount == 0
        else h.fromPartials.amount == h.partialGross)
  }

  lemma ListPriceBack(gross: int, totals: SaleTotals)
    requires totals.discountAmount == 0 && totals.pointsRedeemed == 0
    ensures BuildRefund(gross, totals, false).amount == if totals.subtotal <= 0 then 0 else gross
  {
    if totals.subtotal > 0 {
      var s, g := totals.subtotal as real, gross as real;
      assert s * (g / s) == g;
      RoundOfWhole(gross);
    }
  }

  lemma {:induction false} FreeLines(sold: seq<SoldLine>)
    requires Priced(sold) && (forall l :: l in sold ==> l.quantity >= 0.0)
    ensures Subtotal(sold) >= 0
    ensures Subtotal(sold) == 0 ==> forall l :: l in sold ==> Round(Worth(l.price, l.quantity)) == 0
  {
    if sold != [] {
      assert sold[0] in sold && forall l :: l in sold[1..] ==> l in sold;
      FreeLines(sold[1..]);
      WorthGrows(sold[0].price, 0.0, sold[0].quantity);
    }
  }

  /** Nothing that was free costs anything to take back. */
  lemma {:induction false} FreeGross(sold: seq<SoldLine>, m: seq<(string, real)>)
    requires Priced(sold) && forall l :: l in sold ==> Round(Worth(l.price, l.quantity)) == 0
    requires forall e :: e in m ==>
      SoldLineFor(sold, e.0).Some? && 0.0 < e.1 <= SoldLineFor(sold, e.0).value.quantity
    ensures Gross(Resolved(sold, m)) == 0
  {
    if m != [] {
      assert m[0] in m && forall e :: e in m[1..] ==> e in m;
      FreeGross(sold, m[1..]);
      assert Resolved(sold, m)[1..] == Resolved(sold, m[1..]);
      SoldLineMember(sold, m[0].0);
      var l := SoldLineFor(sold, m[0].0).value;
      WorthGrows(l.price, m[0].1, l.quantity);
      WorthGrows(l.price, 0.0, m[0].1);
    }
  }

  lemma AcceptedGivesListPrice(h: History, requested: seq<RequestedLine>)
    requires Lines(h.sold) && Priced(h.sold) && GivesListPrice(h)
    requires Resolve(h.sold, requested, TotalsOf(h)).Accepted?
    ensures GivesListPrice(Step(h, requested)) && Priced(Step(h, requested).sold)
  {
    hide Collected, Resolved, IsFull, Gross, Inexact, TakenBack, Resolve, Worth, Subtotal, Priced, SoldLineFor, Round,
      Distinct;
    var m, gross, full := AcceptedStep(h, requested);
    TakenBackAt(h.sold, m);
    TakenBackKeepsPrices(h.sold, m);
    ListPriceBack(gross, TotalsOf(h));
    FreeLines(h.sold);
    if Subtotal(h.sold) <= 0 {
      CollectedFacts(h.sold, requested);
      forall e | e in m
        ensures SoldLineFor(h.sold, e.0).Some? && 0.0 < e.1 <= SoldLineFor(h.sold, e.0).value.quantity
      {
        SoldLineMember(h.sold, e.0);
      }
      FreeGross(h.sold, m);
    }
  }

  lemma {:induction false} RunGivesListPrice(h: History, requests: seq<seq<RequestedLine>>)
    requires Lines(h.sold) && Priced(h.sold) && GivesListPrice(h)
    ensures GivesListPrice(Run(h, requests))
    decreases |requests|
  {
    hide Lines, Priced, GivesListPrice, Resolve, Collected;
    if requests != [] {
      StepKeepsLines(h, requests[0]);
      if Resolve(h.sold, requests[0], TotalsOf(h)).Accepted? {
        AcceptedGivesListPrice(h, requests[0]);
      }
      RunGivesListPrice(Step(h, requests[0]), requests[1..]);
    }
  }

  /** On a sale without discounts that is the list price of the partial returns, line by line. */
  lemma UndiscountedIff(earned: int, sold: seq<SoldLine>, requests: seq<seq<RequestedLine>>)
    requires Distinct(sold, ItemId) && Priced(sold)
    requires forall l :: l in sold ==> l.alreadyReturned == 0.0 && l.quantity >= 0.0
    ensures
      var h, grosses := Run(Opened(Sale(0, 0, earned), sold), requests), Grosses(sold, requests);
      && Wholes(h).amount == Subtotal(sold) && h.partials == |grosses|
      && (2 * h.given.amount <= 2 * Subtotal(sold) + |grosses|
        <==> 2 * SumOf(grosses) <= 2 * Subtotal(sold) + |grosses|)
  {
    hide Run, Distinct, Subtotal, Part, WithinShares, Grosses, SumOf;
    var start := Opened(Sale(0, 0, earned), sold);
    OpenedIsSound(Sale(0, 0, earned), sold);
    FreeLines(sold);
    RunKeepsMoney(start, requests);
    RunKeepsSubtotal(start, requests);
    RunGivesListPrice(start, requests);
    GrossesAddUp(Sale(0, 0, earned), sold, requests);
  }

  /** Weighed goods stay within it when the sale's own lines come to whole tenge and no request asks for
      more than one line that does not. */
  lemma OneRoundedLineAReturn(earned: int, sold: seq<SoldLine>, requests: seq<seq<RequestedLine>>)
    requires Distinct(sold, ItemId) && Priced(sold)
    requires forall l ::
      l in sold ==> l.alreadyReturned == 0.0 && l.quantity >= 0.0 && IsWhole(Worth(l.price, l.quantity))
    requires forall r :: r in requests ==> InexactAsked(sold, r) <= 1
    ensures
      var h := Run(Opened(Sale(0, 0, earned), sold), requests);
      2 * h.given.amount <= 2 * Wholes(h).amount + h.partials
  {
    hide Run, Distinct, Subtotal, InexactAsked, InexactSold, IsWhole, Worth, Grosses, SumOf, ReturnedWorth;
    var start := Opened(Sale(0, 0, earned), sold);
    OpenedIsSound(Sale(0, 0, earned), sold);
    NoneInexact(sold);
    NothingReturned(sold);
    RunRounds(start, requests, 1);
    RunKeepsGross(start, requests);
    RunKeepsSubtotal(start, requests);
    GrossesAddUp(Sale(0, 0, earned), sold, requests);
    UndiscountedIff(earned, sold, requests);
  }

  /** Weighed goods can cost more: two lines of two units at one tenge, returned half a unit of
      each at a time, have given back six tenge of a four-tenge sale after three returns, two
      over what the sale took and not the tenge and a half that halves would allow. */
  lemma WeighedReturnsOverpay()
    ensures
      var sold := [SoldLine("a", "p", None, 2.0, 1, 0.0), SoldLine("b", "q", None, 2.0, 1, 0.0)];
      var half := [RequestedLine("a", 0.5), RequestedLine("b", 0.5)];
      var h := Run(Opened(Sale(0, 0, 0), sold), [half, half, half]);
      h.given.amount == 6 && Wholes(h).amount == 4 && h.partials == 3 && !h.closed
  {
    hide Step;
    HalfReturned(0);
    HalfReturned(1);
    HalfReturned(2);
    var half := [HALF_A, HALF_B];
    HalfSubtotal(3);
    assert [half, half, half][1..] == [half, half] && [half, half][1..] == [half] && [half][1..] == [];
    assert Run(Halves(2), [half]) == Halves(3);
    assert Run(Halves(1), [half, half]) == Halves(3);
    assert Run(Halves(0), [half, half, half]) == Halves(3);
  }

  /** The state after `n` such half returns, and the next one. */
  function Halves(n: nat): History {
    var back := n as real / 2.0;
    History(Sale(0, 0, 0),
            [SoldLine("a", "p", None, 2.0, 1, back), SoldLine("b", "q", None, 2.0, 1, back)],
            Refund(2 * n, 0, 0), 2 * n, n, 2 * n, Refund(2 * n, 0, 0), false)
  }

  const HALF_A := RequestedLine("a", 0.5)
  const HALF_B := RequestedLine("b", 0.5)

  lemma HalfCollected(n: nat)
    requires n < 3
    ensures Collected(Halves(n).sold, [HALF_A, HALF_B]) == Ok([("a", 0.5), ("b", 0.5)])
  {
    var sold := Halves(n).sold;
    var one := [HALF_A];
    HalfSoldLines(n);
    assert [HALF_A, HALF_B][..1] == one && one[..0] == [];
    assert Collected(sold, one[..0]) == Ok([]);
    assert Collected(sold, one) == Ok([("a", 0.5)]);
    var m := [("a", 0.5)];
    assert m[1..] == [] && AmountFor(m, "b") == 0.0;
    assert Set(m, "b", 0.5) == [("a", 0.5), ("b", 0.5)];
  }

  lemma HalfSoldLines(n: nat)
    ensures SoldLineFor(Halves(n).sold, "a") == Some(Halves(n).sold[0])
    ensures SoldLineFor(Halves(n).sold, "b") == Some(Halves(n).sold[1])
  {
    var sold := Halves(n).sold;
    assert sold[..1] == [sold[0]];
    assert SoldLineFor([sold[0]], "a") == Some(sold[0]);
  }

  /** One more half of each line: two tenge of list price, neither line complete. */
  lemma HalfResolved(n: nat)
    requires n < 3
    ensures
      var sold, m := Halves(n).sold, [("a", 0.5), ("b", 0.5)];
      && SoldLineFor(sold, "a").Some? && SoldLineFor(sold, "b").Some?
      && Gross(Resolved(sold, m)) == 2 && Inexact(Resolved(sold, m)) == 2
      && !IsFull(sold, m) && TakenBack(sold, m) == Halves(n + 1).sold
  {
    var sold, m := Halves(n).sold, [("a", 0.5), ("b", 0.5)];
    HalfSoldLines(n);
    var last := m[1..];
    assert last == [("b", 0.5)] && last[1..] == [];
    assert AmountFor(m, "a") == 0.5;
    assert Get(last, "b") == Some(0.5) && AmountFor(m, "b") == 0.5;
    var lines := Resolved(sold, m);
    assert Resolved(sold, last) == [ResolvedLine("b", "q", None, 0.5, 1)];
    assert lines[1..] == Resolved(sold, last) && lines[1..][1..] == [];
    assert Round(Worth(1, 0.5)) == 1 && !IsWhole(Worth(1, 0.5));
    assert Gross(lines[1..]) == 1 && Inexact(lines[1..]) == 1;
    assert sold[0] in sold;
    assert sold[1..] == [sold[1]] && sold[1..][1..] == [];
    assert TakenBack(sold[1..], m) == [Halves(n + 1).sold[1]];
  }

  lemma HalfSubtotal(n: nat)
    ensures Subtotal(Halves(n).sold) == 4
  {
    var sold := Halves(n).sold;
    assert sold[1..] == [sold[1]] && sold[1..][1..] == [];
    assert Round(Worth(1, 2.0)) == 2;
    assert Subtotal(sold[1..]) == 2;
  }

  lemma HalfReturned(n: nat)
    requires n < 3
    ensures Step(Halves(n), [HALF_A, HALF_B]) == Halves(n + 1)
  {
    hide Collected, Resolved, Gross, Inexact, IsFull, TakenBack, Subtotal;
    HalfCollected(n);
    HalfResolved(n);
    HalfSubtotal(n);
    assert Part(4, 2, 4) == 2.0 && Part(0, 2, 4) == 0.0;
  }
}
