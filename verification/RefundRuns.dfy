/** The returns of one sale and the ways its money goes back, together: every return that gives money
    splits it by the ways the sale was paid (apps/api/src/routes/pos.ts:1540-1604). */
module RefundRuns {
  import opened Lists
  import opened JsMap
  import opened Returns
  import Payments

  /** The money the returns give, one after another: a return that gives none splits nothing. */
  function Refunds(h: History, requests: seq<seq<RequestedLine>>): seq<int>
    decreases |requests|
  {
    if requests == [] then []
    else
      var given := Step(h, requests[0]).given.amount - h.given.amount;
      (if given > 0 then [given] else []) + Refunds(Step(h, requests[0]), requests[1..])
  }

  lemma {:induction false} RefundsArePositive(h: History, requests: seq<seq<RequestedLine>>)
    ensures forall r :: r in Refunds(h, requests) ==> r > 0
    decreases |requests|
  {
    hide Step;
    if requests != [] {
      RefundsArePositive(Step(h, requests[0]), requests[1..]);
    }
  }

  // ------------------------------------------------ a sale returned unit by unit

  const UNIT := RequestedLine("a", 1.0)

  /** Units at one tenge each, `back` of them returned. */
  function Line(units: nat, back: nat): SoldLine {
    SoldLine("a", "p", None, units as real, 1, back as real)
  }

  /** The sale after so many returns of a unit, none of them the last. */
  function UnitsBack(units: nat, back: nat): History {
    History(Sale(0, 0, 0), [Line(units, back)], Refund(back, 0, 0), back, back, 0, Refund(back, 0, 0), false)
  }

  lemma UnitCollected(units: nat, back: nat)
    requires back < units
    ensures Collected([Line(units, back)], [UNIT]) == Ok([("a", 1.0)])
    ensures SoldLineFor([Line(units, back)], "a") == Some(Line(units, back))
  {
    var sold := [Line(units, back)];
    assert [UNIT][..0] == [] && Collected(sold, []) == Ok([]);
    assert AmountFor([], "a") + 1.0 == 1.0;
  }

  lemma UnitResolved(units: nat, back: nat)
    requires back < units
    ensures
      var sold, m := [Line(units, back)], [("a", 1.0)];
      && SoldLineFor(sold, "a").Some? && Gross(Resolved(sold, m)) == 1 && Inexact(Resolved(sold, m)) == 0
      && (IsFull(sold, m) <==> back + 1 == units) && TakenBack(sold, m) == [Line(units, back + 1)]
  {
    var sold, m := [Line(units, back)], [("a", 1.0)];
    UnitCollected(units, back);
    assert m[1..] == [] && sold[1..] == [];
    var lines := Resolved(sold, m);
    assert Resolved(sold, m[1..]) == [];
    assert lines == [ResolvedLine("a", "p", None, 1.0, 1)] && lines[1..] == [];
    assert Worth(1, 1.0) == 1.0 && Round(1.0) == 1;
    assert AmountFor(m, "a") == 1.0 && sold[0] in sold;
  }

  lemma UnitsSubtotal(units: nat, back: nat)
    ensures Subtotal([Line(units, back)]) == units
  {
    var sold := [Line(units, back)];
    assert sold[1..] == [];
    RoundOfWhole(units);
  }

  lemma UnitShare(units: nat)
    requires units > 0
    ensures Round(Part(units, 1, units)) == 1 && Round(Part(0, 1, units)) == 0
  {
    var u := units as real;
    assert u * (1.0 / u) == 1.0;
  }

  /** Each return of a unit gives a tenge, the last one too. */
  lemma UnitReturned(units: nat, back: nat)
    requires back < units
    ensures Step(UnitsBack(units, back), [UNIT]).given == Refund(back + 1, 0, 0)
    ensures back + 1 < units ==> Step(UnitsBack(units, back), [UNIT]) == UnitsBack(units, back + 1)
  {
    hide Collected, Resolved, Gross, Inexact, IsFull, TakenBack, Subtotal, Part, Round, SoldLineFor;
    UnitCollected(units, back);
    UnitResolved(units, back);
    UnitsSubtotal(units, back);
    UnitShare(units);
  }

  lemma {:induction false} TengeByTenge(units: nat, back: nat)
    requires back <= units
    ensures back < units ==>
      Refunds(UnitsBack(units, back), seq(units - back, _ => [UNIT])) == seq(units - back, _ => 1)
    decreases units - back
  {
    hide Step;
    if back < units {
      var h, requests := UnitsBack(units, back), seq(units - back, _ => [UNIT]);
      UnitReturned(units, back);
      assert requests[1..] == seq(units - back - 1, _ => [UNIT]);
      if back + 1 < units {
        TengeByTenge(units, back + 1);
      } else {
        assert requests[1..] == [];
      }
    }
  }

  // ------------------------------------------------------------- main result

  /** A sale of this much money with nothing returned on it yet. */
  ghost predicate SoldFor(sale: Sale, sold: seq<SoldLine>, total: int) {
    && Distinct(sold, ItemId) && Priced(sold)
    && (forall l :: l in sold ==> l.alreadyReturned == 0.0 && l.quantity >= 0.0)
    && Wholes(Opened(sale, sold)).amount == total
  }

  /** However a sale is returned, no way of paying gives back more than it took, as long as the returns
      give back no more than the sale. */
  ghost predicate ReturnsWithinPayments(payments: seq<Payments.PaymentLine>, total: int) {
    forall sale, sold, requests :: SoldFor(sale, sold, total) ==>
      Payments.NoWayOverdrawn(payments, Refunds(Opened(sale, sold), requests))
  }

  lemma UnitsSoldFor(units: nat)
    ensures SoldFor(Sale(0, 0, 0), [Line(units, 0)], units)
  {
    hide Subtotal;
    var sold := [Line(units, 0)];
    assert sold[1..] == [] && Distinct(sold[1..], ItemId);
    assert Distinct(sold, ItemId);
    UnitsSubtotal(units, 0);
    assert Wholes(Opened(Sale(0, 0, 0), sold)).amount == units;
  }

  /** That holds exactly for a sale paid one way. Any sale paid several ways fails when it is one of units
      at a tenge each, returned one by one: all its money goes back by one way. */
  lemma ReturnsWithinPaymentsIff(sent: seq<Payments.RawPayment>, paymentMethod: Payments.RawText, total: int)
    requires Payments.Resolve(sent, paymentMethod, total).Paid? && total > 0
    ensures
      var payments := Payments.Resolve(sent, paymentMethod, total).payments;
      ReturnsWithinPayments(payments, total) <==> |payments| == 1
  {
    hide Payments.Resolve, Payments.NoWayOverdrawn, Payments.Proper, Refunds, SoldFor, Payments.Total;
    var payments := Payments.Resolve(sent, paymentMethod, total).payments;
    Payments.AcceptedPayments(sent, paymentMethod, total);
    if |payments| == 1 {
      Payments.NoWayOverdrawnIff(sent, paymentMethod, total);
    } else {
      Payments.SeveralWaysOverdraw(payments);
      UnitsSoldFor(total);
      TengeByTenge(total, 0);
      assert Opened(Sale(0, 0, 0), [Line(total, 0)]) == UnitsBack(total, 0);
      var requests := seq(total, _ => [UNIT]);
      assert !Payments.NoWayOverdrawn(payments, Refunds(Opened(Sale(0, 0, 0), [Line(total, 0)]), requests));
    }
  }
}
