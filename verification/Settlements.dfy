/** Debts and the payments that close them, oldest first (apps/api/src/settlements.ts). */
module Settlements {
  import opened Lists
  import opened Greedy

  /** `at` is the moment of the document, in milliseconds. */
  datatype Charge = Charge(documentId: string, amount: real, settled: real, at: int)

  datatype BalanceSummary = BalanceSummary(charged: real, paid: real, balance: real, openCount: nat, unapplied: real)

  datatype AllocationResult = AllocationResult(allocations: seq<Part>, unapplied: real)

  datatype AgingBuckets = AgingBuckets(current: real, days8to30: real, days31to60: real, over60: real)

  const DocumentId: Charge -> string := (c: Charge) => c.documentId

  const Amount: Charge -> real := (c: Charge) => c.amount

  const Settled: Charge -> real := (c: Charge) => c.settled

  const Owed: Charge -> real := (c: Charge) => c.amount - c.settled

  const IsOpen: Charge -> bool := (c: Charge) => c.settled < c.amount

  const OldestFirst: (Charge, Charge) -> bool := (a: Charge, b: Charge) => a.at <= b.at

  // --------------------------------------------------------------- payments

  function Allocate(amount: real, charges: seq<Charge>): AllocationResult {
    if amount <= 0.0 then AllocationResult([], 0.0)
    else
      var parts := Draw(StableSort(Filter(charges, IsOpen), OldestFirst), DocumentId, Owed, amount);
      AllocationResult(parts, amount - SumBy(parts, Quantity))
  }

  method AllocatePayment(amount: real, charges: seq<Charge>) returns (result: AllocationResult)
    ensures result == Allocate(amount, charges)
  {
    if amount <= 0.0 {
      return AllocationResult([], 0.0);
    }
    var allocations, unapplied := CloseInOrder(amount, StableSort(Filter(charges, IsOpen), OldestFirst));
    result := AllocationResult(allocations, unapplied);
  }

  method CloseInOrder(amount: real, open: seq<Charge>) returns (allocations: seq<Part>, remaining: real)
    requires forall c :: c in open ==> IsOpen(c)
    ensures allocations == Draw(open, DocumentId, Owed, amount)
    ensures remaining == amount - SumBy(allocations, Quantity)
  {
    hide Draw, SumBy;
    allocations := [];
    remaining := amount;
    var i := 0;
    NothingYet(open, amount);
    while i < |open|
      invariant i <= |open|
      invariant allocations + Draw(open[i..], DocumentId, Owed, remaining) == Draw(open, DocumentId, Owed, amount)
      invariant remaining == amount - SumBy(allocations, Quantity)
    {
      DrawStops(allocations, open, i, DocumentId, Owed, remaining);
      if remaining <= 0.0 {
        break;
      }
      var charge := open[i];
      assert IsOpen(charge);
      var applied := Min(charge.amount - charge.settled, remaining);
      var part := Part(charge.documentId, applied);
      DrawNext(allocations, open, i, DocumentId, Owed, remaining);
      TotalNext(allocations, part);
      allocations := allocations + [part];
      remaining := remaining - applied;
      i := i + 1;
    }
    DrawStops(allocations, open, i, DocumentId, Owed, remaining);
  }

  lemma NothingYet(open: seq<Charge>, amount: real)
    ensures [] + Draw(open[0..], DocumentId, Owed, amount) == Draw(open, DocumentId, Owed, amount)
    ensures SumBy([], Quantity) == 0.0
  {
    assert open[0..] == open;
  }

  /** A charge with what the parts settle on it. */
  function Credited(parts: seq<Part>): Charge -> Charge {
    (c: Charge) => c.(settled := c.settled + Taken(parts, c.documentId))
  }

  /** The account after a payment. */
  function Pay(amount: real, charges: seq<Charge>): seq<Charge> {
    MapSeq(charges, Credited(Allocate(amount, charges).allocations))
  }

  lemma OldestFirstIsAnOrder()
    ensures TotalPreorder(OldestFirst)
  {
  }

  /** Leaving closed charges out changes nothing: the loop would pass over them. */
  lemma AllocateIsDraw(amount: real, charges: seq<Charge>)
    requires amount > 0.0
    ensures Allocate(amount, charges).allocations == Draw(StableSort(charges, OldestFirst), DocumentId, Owed, amount)
  {
    OldestFirstIsAnOrder();
    SortFilter(charges, OldestFirst, IsOpen);
    DrawSkips(StableSort(charges, OldestFirst), DocumentId, Owed, amount, IsOpen);
  }

  /** Every tenge of a payment is accounted for, nothing is paid beyond what is owed, and
      money stays over only when nothing is left to close. */
  lemma PaymentIsAccountedFor(amount: real, charges: seq<Charge>)
    requires Distinct(charges, DocumentId) && amount > 0.0
    ensures
      var r := Allocate(amount, charges);
      && SumBy(r.allocations, Quantity) + r.unapplied == amount && r.unapplied >= 0.0
      && (forall c :: c in charges ==> 0.0 <= Taken(r.allocations, c.documentId) <= Max(Owed(c), 0.0))
      && (r.unapplied > 0.0 ==> forall c :: c in charges ==> Taken(r.allocations, c.documentId) == Max(Owed(c), 0.0))
  {
    AllocateIsDraw(amount, charges);
    var s := StableSort(charges, OldestFirst);
    DistinctSort(charges, OldestFirst, DocumentId);
    DrawTotal(s, DocumentId, Owed, amount);
    SumByNonNegative(s, Room(Owed));
    forall c | c in charges
      ensures 0.0 <= Taken(Allocate(amount, charges).allocations, c.documentId) <= Max(Owed(c), 0.0)
    {
      TakenBounds(s, DocumentId, Owed, amount, c);
    }
    if Allocate(amount, charges).unapplied > 0.0 {
      PlanTotal(s, DocumentId, Owed, amount);
      AllFull(s, OnRow(DocumentId, AsPlan(Draw(s, DocumentId, Owed, amount))), Room(Owed));
    }
  }

  /** If parts reach their ceilings in sum, each reaches its own. */
  lemma {:induction false} AllFull(s: seq<Charge>, f: Charge -> real, ceiling: Charge -> real)
    requires forall c :: c in s ==> f(c) <= ceiling(c)
    requires SumBy(s, f) >= SumBy(s, ceiling)
    ensures forall c :: c in s ==> f(c) == ceiling(c)
  {
    if s != [] {
      assert s[0] in s;
      SumByAtMost(s[1..], f, ceiling);
      AllFull(s[1..], f, ceiling);
    }
  }

  /** Money reaches a charge only when every older one is closed. */
  lemma OlderDebtsCloseFirst(amount: real, charges: seq<Charge>, older: Charge, newer: Charge)
    requires Distinct(charges, DocumentId) && older in charges && newer in charges && older.at < newer.at
    requires Taken(Allocate(amount, charges).allocations, newer.documentId) > 0.0
    ensures Credited(Allocate(amount, charges).allocations)(older).settled >= older.amount
  {
    assert amount > 0.0;
    hide Allocate, Draw, Taken, Distinct, StableSort, SortedBy;
    AllocateIsDraw(amount, charges);
    OldestFirstIsAnOrder();
    StableSortSorts(charges, OldestFirst);
    DistinctSort(charges, OldestFirst, DocumentId);
    OlderIsFull(StableSort(charges, OldestFirst), amount, older, newer);
  }

  lemma OlderIsFull(s: seq<Charge>, amount: real, older: Charge, newer: Charge)
    requires Distinct(s, DocumentId) && SortedBy(s, OldestFirst)
    requires older in s && newer in s && older.at < newer.at
    requires Taken(Draw(s, DocumentId, Owed, amount), newer.documentId) > 0.0
    ensures Taken(Draw(s, DocumentId, Owed, amount), older.documentId) == Max(Owed(older), 0.0)
  {
    hide Draw, Taken, Distinct;
    var i :| 0 <= i < |s| && s[i] == older;
    var j :| 0 <= j < |s| && s[j] == newer;
    assert !OldestFirst(newer, older);
    DrawInOrder(s, DocumentId, Owed, amount, i, j);
  }

  /** The account after a payment, in settlement order, is the same account with less owed. */
  lemma PaidInOrder(a: real, charges: seq<Charge>)
    requires Distinct(charges, DocumentId) && a > 0.0
    ensures
      var s, t := StableSort(charges, OldestFirst), StableSort(Pay(a, charges), OldestFirst);
      LeftAfter(s, t, DocumentId, Owed, a) && Distinct(t, DocumentId) && Distinct(Pay(a, charges), DocumentId)
  {
    var parts := Allocate(a, charges).allocations;
    AllocateIsDraw(a, charges);
    SortMap(charges, OldestFirst, Credited(parts));
    MapSeqAt(StableSort(charges, OldestFirst), Credited(parts));
    DistinctMap(charges, Credited(parts), DocumentId);
    DistinctSort(Pay(a, charges), OldestFirst, DocumentId);
  }

  /** Paying in two instalments is paying at once: every charge ends settled the same, and the
      money left over is the same. */
  lemma TwoPaymentsAreOne(a: real, b: real, charges: seq<Charge>)
    requires Distinct(charges, DocumentId) && a > 0.0 && b > 0.0
    ensures Pay(b, Pay(a, charges)) == Pay(a + b, charges)
    ensures Allocate(a, charges).unapplied + Allocate(b, Pay(a, charges)).unapplied
      == Allocate(a + b, charges).unapplied
  {
    SameInTheEnd(a, b, charges);
    SameLeftOver(a, b, charges);
  }

  lemma SameLeftOver(a: real, b: real, charges: seq<Charge>)
    requires Distinct(charges, DocumentId) && a > 0.0 && b > 0.0
    requires Pay(b, Pay(a, charges)) == Pay(a + b, charges)
    ensures Allocate(a, charges).unapplied + Allocate(b, Pay(a, charges)).unapplied
      == Allocate(a + b, charges).unapplied
  {
    hide Allocate, Pay, LeftAfter;
    PaidInOrder(a, charges);
    SettledSum(a, charges);
    SettledSum(b, Pay(a, charges));
    SettledSum(a + b, charges);
  }

  lemma SameInTheEnd(a: real, b: real, charges: seq<Charge>)
    requires Distinct(charges, DocumentId) && a > 0.0 && b > 0.0
    ensures Pay(b, Pay(a, charges)) == Pay(a + b, charges)
  {
    hide Allocate, Taken, Distinct;
    var paid := Pay(a, charges);
    MapSeqAt(charges, Credited(Allocate(a, charges).allocations));
    MapSeqAt(paid, Credited(Allocate(b, paid).allocations));
    MapSeqAt(charges, Credited(Allocate(a + b, charges).allocations));
    forall i | 0 <= i < |charges|
      ensures Pay(b, paid)[i] == Pay(a + b, charges)[i]
    {
      PartsAddUp(a, b, charges, charges[i]);
    }
    assert Pay(b, paid) == Pay(a + b, charges);
  }

  lemma PartsAddUp(a: real, b: real, charges: seq<Charge>, c: Charge)
    requires Distinct(charges, DocumentId) && a > 0.0 && b > 0.0 && c in charges
    ensures Taken(Allocate(a + b, charges).allocations, c.documentId) ==
      Taken(Allocate(a, charges).allocations, c.documentId)
      + Taken(Allocate(b, Pay(a, charges)).allocations, c.documentId)
  {
    hide Allocate, Draw, Pay, Taken, Distinct, LeftAfter, StableSort;
    var s, t := StableSort(charges, OldestFirst), StableSort(Pay(a, charges), OldestFirst);
    AllocateIsDraw(a, charges);
    AllocateIsDraw(b, Pay(a, charges));
    AllocateIsDraw(a + b, charges);
    DistinctSort(charges, OldestFirst, DocumentId);
    PaidInOrder(a, charges);
    DrawTwiceOf(s, t, DocumentId, Owed, a, b, c);
  }

  /** What a payment adds to the settled side of the account. */
  lemma SettledSum(amount: real, charges: seq<Charge>)
    requires Distinct(charges, DocumentId) && amount > 0.0
    ensures SumBy(Pay(amount, charges), Settled)
      == SumBy(charges, Settled) + amount - Allocate(amount, charges).unapplied
    ensures SumBy(Pay(amount, charges), Amount) == SumBy(charges, Amount)
  {
    var parts := Allocate(amount, charges).allocations;
    var s := StableSort(charges, OldestFirst);
    AllocateIsDraw(amount, charges);
    DistinctSort(charges, OldestFirst, DocumentId);
    PlanTotal(s, DocumentId, Owed, amount);
    SumBySort(charges, OldestFirst, OnRow(DocumentId, AsPlan(parts)));
    CreditedSum(charges, parts);
    SumByMap(charges, Credited(parts), Amount, Amount);
  }

  lemma {:induction false} CreditedSum(charges: seq<Charge>, parts: seq<Part>)
    ensures SumBy(MapSeq(charges, Credited(parts)), Settled) ==
      SumBy(charges, Settled) + SumBy(charges, OnRow(DocumentId, AsPlan(parts)))
  {
    if charges != [] {
      CreditedSum(charges[1..], parts);
      assert MapSeq(charges, Credited(parts))[1..] == MapSeq(charges[1..], Credited(parts));
    }
  }

  // ------------------------------------------------------- balance and aging

  function ComputeBalance(charges: seq<Charge>, unapplied: real): BalanceSummary {
    var charged, settled := SumBy(charges, Amount), SumBy(charges, Settled);
    BalanceSummary(charged, settled + unapplied, charged - settled - unapplied, |Filter(charges, IsOpen)|, unapplied)
  }

  function AmountOf(charges: seq<Charge>): real {
    if charges == [] then 0.0 else charges[0].amount + AmountOf(charges[1..])
  }

  function SettledOf(charges: seq<Charge>): real {
    if charges == [] then 0.0 else charges[0].settled + SettledOf(charges[1..])
  }

  /** The summary: all that was charged, all that was paid with the money not yet applied, their
      difference, and how many documents are still open. */
  lemma {:induction false} BalanceMeans(charges: seq<Charge>, unapplied: real)
    ensures
      var b := ComputeBalance(charges, unapplied);
      && b.charged == AmountOf(charges) && b.paid == SettledOf(charges) + unapplied
      && b.balance == b.charged - b.paid && b.unapplied == unapplied
    ensures ComputeBalance(charges, unapplied).openCount ==
      |set i | 0 <= i < |charges| && charges[i].settled < charges[i].amount|
  {
    OpenPlaces(charges);
    SumsOf(charges);
  }

  lemma {:induction false} SumsOf(charges: seq<Charge>)
    ensures SumBy(charges, Amount) == AmountOf(charges) && SumBy(charges, Settled) == SettledOf(charges)
  {
    if charges != [] {
      SumsOf(charges[1..]);
    }
  }

  lemma {:induction false} OpenPlaces(charges: seq<Charge>)
    ensures |Filter(charges, IsOpen)| == |set i | 0 <= i < |charges| && charges[i].settled < charges[i].amount|
  {
    if charges != [] {
      OpenPlaces(charges[1..]);
      OpenInRest(charges);
    }
  }

  lemma OpenInRest(charges: seq<Charge>)
    requires charges != []
    ensures
      var rest := charges[1..];
      |set i | 0 <= i < |charges| && charges[i].settled < charges[i].amount| ==
        (if IsOpen(charges[0]) then 1 else 0) + |set i | 0 <= i < |rest| && rest[i].settled < rest[i].amount|
  {
    var rest := charges[1..];
    var later := set i | 0 <= i < |rest| && rest[i].settled < rest[i].amount;
    var places := set i | 0 <= i < |charges| && charges[i].settled < charges[i].amount;
    forall i
      ensures i in places - {0} <==> i - 1 in later
    {
      assert 0 < i < |charges| ==> charges[i] == rest[i - 1];
    }
    ShiftedSet(later, places - {0});
    assert 0 in places <==> IsOpen(charges[0]);
  }

  lemma {:induction false} ShiftedSet(a: set<int>, b: set<int>)
    requires forall i :: i in b <==> i - 1 in a
    ensures |a| == |b|
    decreases a
  {
    if forall i :: i !in a {
      assert a == {};
      forall i
        ensures i !in b
      {
        assert i in b <==> i - 1 in a;
      }
      assert b == {};
    } else {
      var i :| i in a;
      assert i + 1 in b;
      ShiftedSet(a - {i}, b - {i + 1});
    }
  }

  /** A payment is allocated to open documents only, a positive amount to each; without money nothing is
      allocated and nothing is left over. */
  lemma AllocationsAreReal(amount: real, charges: seq<Charge>)
    requires Distinct(charges, DocumentId)
    ensures forall p :: p in Allocate(amount, charges).allocations ==>
      p.quantity > 0.0 && exists c :: c in charges && c.documentId == p.id && c.settled < c.amount
    ensures amount <= 0.0 ==> Allocate(amount, charges).allocations == [] && Allocate(amount, charges).unapplied == 0.0
  {
    var open := StableSort(Filter(charges, IsOpen), OldestFirst);
    DistinctFilter(charges, DocumentId, IsOpen);
    DistinctSort(Filter(charges, IsOpen), OldestFirst, DocumentId);
    DrawParts(open, DocumentId, Owed, amount);
    forall p | p in Allocate(amount, charges).allocations
      ensures exists c :: c in charges && c.documentId == p.id && c.settled < c.amount
    {
      var c :| c in open && c.documentId == p.id;
      assert c in charges && IsOpen(c);
    }
  }

  const MS_PER_DAY := 24 * 60 * 60 * 1000

  function AddTo(buckets: AgingBuckets, days: int, owed: real): AgingBuckets {
    if days <= 7 then buckets.(current := buckets.current + owed)
    else if days <= 30 then buckets.(days8to30 := buckets.days8to30 + owed)
    else if days <= 60 then buckets.(days31to60 := buckets.days31to60 + owed)
    else buckets.(over60 := buckets.over60 + owed)
  }

  function Aging(charges: seq<Charge>, now: int): AgingBuckets {
    if charges == [] then AgingBuckets(0.0, 0.0, 0.0, 0.0)
    else
      var before := Aging(charges[..|charges| - 1], now);
      var last := charges[|charges| - 1];
      if Owed(last) <= 0.0 then before else AddTo(before, (now - last.at) / MS_PER_DAY, Owed(last))
  }

  method BuildAging(charges: seq<Charge>, now: int) returns (buckets: AgingBuckets)
    ensures buckets == Aging(charges, now)
  {
    buckets := AgingBuckets(0.0, 0.0, 0.0, 0.0);
    var i := 0;
    while i < |charges|
      invariant i <= |charges|
      invariant buckets == Aging(charges[..i], now)
    {
      assert charges[..i + 1][..i] == charges[..i];
      var owed := charges[i].amount - charges[i].settled;
      if owed > 0.0 {
        var days := (now - charges[i].at) / MS_PER_DAY;
        if days <= 7 {
          buckets := buckets.(current := buckets.current + owed);
        } else if days <= 30 {
          buckets := buckets.(days8to30 := buckets.days8to30 + owed);
        } else if days <= 60 {
          buckets := buckets.(days31to60 := buckets.days31to60 + owed);
        } else {
          buckets := buckets.(over60 := buckets.over60 + owed);
        }
      }
      i := i + 1;
    }
    assert charges[..i] == charges;
  }

  /** The open debt of a charge whose age lies in a range of days, the first included and the last not. */
  function OpenDebt(now: int, from: Option<int>, until: Option<int>): Charge -> real {
    (c: Charge) =>
      var age := now - c.at;
      if (from.Some? ==> from.value * 86_400_000 <= age) && (until.Some? ==> age < until.value * 86_400_000)
      then Max(Owed(c), 0.0) else 0.0
  }

  lemma WholeDays(age: int, n: int)
    ensures age / MS_PER_DAY <= n <==> age < (n + 1) * 86_400_000
  {
  }

  /** Each bucket is the sum of the open debts of its age: under eight days, from eight to thirty, from
      thirty-one to sixty, from sixty-one on; an over-settled charge counts nowhere. */
  lemma {:induction false} EachBucketIsItsAge(charges: seq<Charge>, now: int)
    ensures Aging(charges, now) ==
      AgingBuckets(SumBy(charges, OpenDebt(now, None, Some(8))), SumBy(charges, OpenDebt(now, Some(8), Some(31))),
                   SumBy(charges, OpenDebt(now, Some(31), Some(61))), SumBy(charges, OpenDebt(now, Some(61), None)))
  {
    if charges != [] {
      var before, last := charges[..|charges| - 1], charges[|charges| - 1];
      assert charges == before + [last] && [last][1..] == [];
      EachBucketIsItsAge(before, now);
      SumByConcat(before, [last], OpenDebt(now, None, Some(8)));
      SumByConcat(before, [last], OpenDebt(now, Some(8), Some(31)));
      SumByConcat(before, [last], OpenDebt(now, Some(31), Some(61)));
      SumByConcat(before, [last], OpenDebt(now, Some(61), None));
      WholeDays(now - last.at, 7);
      WholeDays(now - last.at, 30);
      WholeDays(now - last.at, 60);
    }
  }

  function Everything(b: AgingBuckets): real {
    b.current + b.days8to30 + b.days31to60 + b.over60
  }

  /** What has been settled beyond what was owed. */
  const Overpaid: Charge -> real := (c: Charge) => Max(c.settled - c.amount, 0.0)

  lemma {:induction false} AgingIsOpenDebt(charges: seq<Charge>, now: int)
    ensures Everything(Aging(charges, now))
      == SumBy(charges, Amount) - SumBy(charges, Settled) + SumBy(charges, Overpaid)
  {
    if charges != [] {
      var before, last := charges[..|charges| - 1], charges[|charges| - 1];
      assert charges == before + [last];
      AgingIsOpenDebt(before, now);
      SumByConcat(before, [last], Amount);
      SumByConcat(before, [last], Settled);
      SumByConcat(before, [last], Overpaid);
      assert [last][1..] == [];
    }
  }

  /** The two figures on the screen: the balance is what is aging less the money not yet
      applied, less anything settled beyond its charge; so they meet exactly when no charge
      is over-settled. */
  lemma BalanceMeetsAging(charges: seq<Charge>, unapplied: real, now: int)
    ensures
      var balance := ComputeBalance(charges, unapplied).balance;
      && balance == Everything(Aging(charges, now)) - unapplied - SumBy(charges, Overpaid)
      && (balance == Everything(Aging(charges, now)) - unapplied
        <==> forall c :: c in charges ==> c.settled <= c.amount)
  {
    AgingIsOpenDebt(charges, now);
    NoneOverpaid(charges);
  }

  lemma {:induction false} NoneOverpaid(charges: seq<Charge>)
    ensures SumBy(charges, Overpaid) >= 0.0
    ensures SumBy(charges, Overpaid) == 0.0 <==> forall c :: c in charges ==> c.settled <= c.amount
  {
    if charges != [] {
      NoneOverpaid(charges[1..]);
      assert forall c :: c in charges <==> c == charges[0] || c in charges[1..];
    }
  }

  /** A payment lowers the balance by its whole amount, applied or not, over-settles nothing,
      and leaves the balance meeting the aging report. */
  lemma PaymentKeepsTheBooks(amount: real, charges: seq<Charge>, unapplied: real, now: int)
    requires Distinct(charges, DocumentId) && amount > 0.0 && forall c :: c in charges ==> c.settled <= c.amount
    ensures
      var after := Pay(amount, charges);
      var held := unapplied + Allocate(amount, charges).unapplied;
      && ComputeBalance(after, held).balance == ComputeBalance(charges, unapplied).balance - amount
      && (forall c :: c in after ==> c.settled <= c.amount)
      && ComputeBalance(after, held).balance == Everything(Aging(after, now)) - held
  {
    hide Allocate, Pay, Aging;
    SettledSum(amount, charges);
    NeverOverSettled(amount, charges);
    BalanceMeetsAging(Pay(amount, charges), unapplied + Allocate(amount, charges).unapplied, now);
  }

  lemma NeverOverSettled(amount: real, charges: seq<Charge>)
    requires Distinct(charges, DocumentId) && amount > 0.0 && forall c :: c in charges ==> c.settled <= c.amount
    ensures forall c :: c in Pay(amount, charges) ==> c.settled <= c.amount
  {
    var after := Pay(amount, charges);
    PaymentIsAccountedFor(amount, charges);
    MapSeqAt(charges, Credited(Allocate(amount, charges).allocations));
    forall c | c in after
      ensures c.settled <= c.amount
    {
      var i :| 0 <= i < |after| && after[i] == c;
      assert charges[i] in charges;
    }
  }
}
