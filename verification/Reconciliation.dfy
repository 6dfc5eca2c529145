/** The checks that two books of the warehouse agree (apps/api/src/reconciliation.ts). */
module Reconciliation {
  import opened Lists
  import opened Greedy
  import opened Bins
  import opened CountHolds
  import opened Stock
  import opened JsMap

  // ----------------------------------------------------------- shelf keys

  /** The key a shelf's product is filed under. */
  function ShelfKey(productId: string, binLocation: string): string {
    binLocation + "::" + productId
  }

  /** Bin codes are letters, digits and dashes: no colon in them. */
  predicate CodeLike(binLocation: string) {
    ':' !in binLocation
  }

  /** Two shelves share a key only if they are the same shelf and product. */
  lemma {:induction false} ShelfKeyInjective(p1: string, b1: string, p2: string, b2: string)
    requires CodeLike(b1) && CodeLike(b2) && ShelfKey(p1, b1) == ShelfKey(p2, b2)
    ensures b1 == b2 && p1 == p2
  {
    var k := ShelfKey(p1, b1);
    assert k[|b1|] == ':' && k[|b2|] == ':';
    assert forall i :: 0 <= i < |b1| ==> k[i] == b1[i];
    assert forall i :: 0 <= i < |b2| ==> k[i] == b2[i];
    assert k[..|b1|] == b1 && k[..|b2|] == b2;
    assert k[|b1| + 2..] == p1 && k[|b2| + 2..] == p2;
  }

  // ------------------------------------------------- ledger against cache

  /** A figure for one product on one shelf: a ledger total, or a cached quantity. */
  datatype ShelfFigure = ShelfFigure(productId: string, binLocation: string, amount: real)

  datatype MismatchKind = Drift | MissingRow | OrphanRow

  datatype Mismatch = Mismatch(
    productId: string, binLocation: string, ledger: real, cached: real, difference: real, kind: MismatchKind)

  predicate CodeLikeBins(rows: seq<ShelfFigure>) {
    forall r :: r in rows ==> CodeLike(r.binLocation)
  }

  /** What a book says about a shelf: the last row for it, and zero when there is none. */
  function FigureFor(rows: seq<ShelfFigure>, productId: string, binLocation: string): real {
    if rows == [] then 0.0
    else
      var last := rows[|rows| - 1];
      if last.productId == productId && last.binLocation == binLocation then last.amount
      else FigureFor(rows[..|rows| - 1], productId, binLocation)
  }

  function Indexed(rows: seq<ShelfFigure>): seq<(string, ShelfFigure)> {
    if rows == [] then []
    else
      var last := rows[|rows| - 1];
      Set(Indexed(rows[..|rows| - 1]), ShelfKey(last.productId, last.binLocation), last)
  }

  /** The finding about a shelf that has a cached row. */
  function CachedFinding(row: ShelfFigure, total: Option<ShelfFigure>): seq<Mismatch> {
    match total
    case None =>
      if row.amount == 0.0 then []
      else [Mismatch(row.productId, row.binLocation, 0.0, row.amount, row.amount, OrphanRow)]
    case Some(t) =>
      if t.amount == row.amount then []
      else [Mismatch(row.productId, row.binLocation, t.amount, row.amount, row.amount - t.amount, Drift)]
  }

  function CachedFindings(cached: seq<(string, ShelfFigure)>, ledger: seq<(string, ShelfFigure)>): seq<Mismatch> {
    if cached == [] then []
    else CachedFinding(cached[0].1, Get(ledger, cached[0].0)) + CachedFindings(cached[1..], ledger)
  }

  /** The finding about a shelf with movements: only a missing row matters here. */
  function LedgerFinding(key: string, total: ShelfFigure, cached: seq<(string, ShelfFigure)>): seq<Mismatch> {
    if Has(cached, key) || total.amount == 0.0 then []
    else [Mismatch(total.productId, total.binLocation, total.amount, 0.0, -total.amount, MissingRow)]
  }

  function LedgerFindings(ledger: seq<(string, ShelfFigure)>, cached: seq<(string, ShelfFigure)>): seq<Mismatch> {
    if ledger == [] then []
    else LedgerFinding(ledger[0].0, ledger[0].1, cached) + LedgerFindings(ledger[1..], cached)
  }

  function Size(x: real): real {
    if x < 0.0 then -x else x
  }

  const BiggestFirst: (Mismatch, Mismatch) -> bool :=
    (a: Mismatch, b: Mismatch) => Size(a.difference) >= Size(b.difference)

  function Findings(ledgerTotals: seq<ShelfFigure>, cached: seq<ShelfFigure>): seq<Mismatch> {
    StableSort(
      CachedFindings(Indexed(cached), Indexed(ledgerTotals)) + LedgerFindings(Indexed(ledgerTotals), Indexed(cached)),
      BiggestFirst)
  }

  method IndexRows(rows: seq<ShelfFigure>) returns (index: seq<(string, ShelfFigure)>)
    ensures index == Indexed(rows)
  {
    index := [];
    var i := 0;
    while i < |rows|
      invariant i <= |rows|
      invariant index == Indexed(rows[..i])
    {
      assert rows[..i + 1][..i] == rows[..i];
      index := Set(index, ShelfKey(rows[i].productId, rows[i].binLocation), rows[i]);
      i := i + 1;
    }
    assert rows[..i] == rows;
  }

  /** The pass over the cached rows. */
  method CheckCached(cachedByKey: seq<(string, ShelfFigure)>, ledgerByKey: seq<(string, ShelfFigure)>)
    returns (found: seq<Mismatch>)
    ensures found == CachedFindings(cachedByKey, ledgerByKey)
  {
    found := [];
    var i := 0;
    assert cachedByKey[0..] == cachedByKey
      && found + CachedFindings(cachedByKey, ledgerByKey) == CachedFindings(cachedByKey, ledgerByKey);
    hide CachedFindings;
    while i < |cachedByKey|
      invariant i <= |cachedByKey|
      invariant found + CachedFindings(cachedByKey[i..], ledgerByKey) == CachedFindings(cachedByKey, ledgerByKey)
    {
      var (k, row) := cachedByKey[i];
      NextCached(found, cachedByKey, i, ledgerByKey);
      match Get(ledgerByKey, k) {
        case None =>
          if row.amount != 0.0 {
            found := found + [Mismatch(row.productId, row.binLocation, 0.0, row.amount, row.amount, OrphanRow)];
          }
        case Some(total) =>
          if total.amount != row.amount {
            found := found
              + [Mismatch(row.productId, row.binLocation, total.amount, row.amount, row.amount - total.amount, Drift)];
          }
      }
      i := i + 1;
    }
    NoMoreCached(found, ledgerByKey);
    assert cachedByKey[i..] == [];
  }

  lemma NextCached(found: seq<Mismatch>, cached: seq<(string, ShelfFigure)>, i: nat, ledger: seq<(string, ShelfFigure)>)
    requires i < |cached|
    ensures found + CachedFindings(cached[i..], ledger) ==
      found + CachedFinding(cached[i].1, Get(ledger, cached[i].0)) + CachedFindings(cached[i + 1..], ledger)
  {
    assert cached[i..][1..] == cached[i + 1..];
    var one, rest := CachedFinding(cached[i].1, Get(ledger, cached[i].0)), CachedFindings(cached[i + 1..], ledger);
    assert found + (one + rest) == found + one + rest;
  }

  lemma NoMoreCached(found: seq<Mismatch>, ledger: seq<(string, ShelfFigure)>)
    ensures found + CachedFindings([], ledger) == found && found + [] == found
  {
  }

  /** The pass over the ledger: shelves with movements and no row. */
  method CheckLedger(ledgerByKey: seq<(string, ShelfFigure)>, cachedByKey: seq<(string, ShelfFigure)>)
    returns (found: seq<Mismatch>)
    ensures found == LedgerFindings(ledgerByKey, cachedByKey)
  {
    found := [];
    var i := 0;
    assert ledgerByKey[0..] == ledgerByKey
      && found + LedgerFindings(ledgerByKey, cachedByKey) == LedgerFindings(ledgerByKey, cachedByKey);
    hide LedgerFindings;
    while i < |ledgerByKey|
      invariant i <= |ledgerByKey|
      invariant found + LedgerFindings(ledgerByKey[i..], cachedByKey) == LedgerFindings(ledgerByKey, cachedByKey)
    {
      var (k, total) := ledgerByKey[i];
      NextLedger(found, ledgerByKey, i, cachedByKey);
      if !Has(cachedByKey, k) && total.amount != 0.0 {
        found := found + [Mismatch(total.productId, total.binLocation, total.amount, 0.0, -total.amount, MissingRow)];
      }
      i := i + 1;
    }
    NoMoreLedger(found, cachedByKey);
    assert ledgerByKey[i..] == [];
  }

  lemma NextLedger(found: seq<Mismatch>, ledger: seq<(string, ShelfFigure)>, i: nat, cached: seq<(string, ShelfFigure)>)
    requires i < |ledger|
    ensures found + LedgerFindings(ledger[i..], cached) ==
      found + LedgerFinding(ledger[i].0, ledger[i].1, cached) + LedgerFindings(ledger[i + 1..], cached)
  {
    assert ledger[i..][1..] == ledger[i + 1..];
    var one, rest := LedgerFinding(ledger[i].0, ledger[i].1, cached), LedgerFindings(ledger[i + 1..], cached);
    assert found + (one + rest) == found + one + rest;
  }

  lemma NoMoreLedger(found: seq<Mismatch>, cached: seq<(string, ShelfFigure)>)
    ensures found + LedgerFindings([], cached) == found && found + [] == found
  {
  }

  method ReconcileBalances(ledgerTotals: seq<ShelfFigure>, cached: seq<ShelfFigure>) returns (mismatches: seq<Mismatch>)
    ensures mismatches == Findings(ledgerTotals, cached)
  {
    var ledgerByKey := IndexRows(ledgerTotals);
    var cachedByKey := IndexRows(cached);
    var first := CheckCached(cachedByKey, ledgerByKey);
    var second := CheckLedger(ledgerByKey, cachedByKey);
    mismatches := StableSort(first + second, BiggestFirst);
  }

  lemma {:induction false} IndexedFacts(rows: seq<ShelfFigure>)
    ensures Keyed(Indexed(rows))
    ensures forall e :: e in Indexed(rows) ==> e.0 == ShelfKey(e.1.productId, e.1.binLocation) && e.1 in rows
  {
    if rows != [] {
      var last := rows[|rows| - 1];
      IndexedFacts(rows[..|rows| - 1]);
      SetKeyed(Indexed(rows[..|rows| - 1]), ShelfKey(last.productId, last.binLocation), last);
    }
  }

  /** The book has a row for this product on this shelf. */
  predicate Listed(rows: seq<ShelfFigure>, productId: string, binLocation: string) {
    exists row :: row in rows && row.productId == productId && row.binLocation == binLocation
  }

  lemma ListedExtended(rows: seq<ShelfFigure>, productId: string, binLocation: string)
    requires rows != []
    ensures
      var last := rows[|rows| - 1];
      Listed(rows, productId, binLocation) <==>
        Listed(rows[..|rows| - 1], productId, binLocation)
        || (last.productId == productId && last.binLocation == binLocation)
  {
    var last := rows[|rows| - 1];
    assert forall row :: row in rows <==> row in rows[..|rows| - 1] || row == last;
  }

  /** Looking a shelf up in the index is reading the book. */
  lemma {:induction false} IndexedGet(rows: seq<ShelfFigure>, productId: string, binLocation: string)
    requires CodeLikeBins(rows) && CodeLike(binLocation)
    ensures
      match Get(Indexed(rows), ShelfKey(productId, binLocation))
      case None => FigureFor(rows, productId, binLocation) == 0.0 && !Listed(rows, productId, binLocation)
      case Some(row) =>
        Listed(rows, productId, binLocation) && row.productId == productId && row.binLocation == binLocation
          && row.amount == FigureFor(rows, productId, binLocation)
  {
    if rows != [] {
      var last := rows[|rows| - 1];
      var before := rows[..|rows| - 1];
      IndexedGet(before, productId, binLocation);
      ListedExtended(rows, productId, binLocation);
      GetSet(Indexed(before), ShelfKey(last.productId, last.binLocation), last, ShelfKey(productId, binLocation));
      if ShelfKey(last.productId, last.binLocation) == ShelfKey(productId, binLocation) {
        ShelfKeyInjective(last.productId, last.binLocation, productId, binLocation);
      }
    }
  }

  lemma {:induction false} CachedFindingsMember(cached: seq<(string, ShelfFigure)>, ledger: seq<(string, ShelfFigure)>)
    ensures forall m :: m in CachedFindings(cached, ledger) <==>
      exists e :: e in cached && m in CachedFinding(e.1, Get(ledger, e.0))
  {
    if cached != [] {
      CachedFindingsMember(cached[1..], ledger);
      forall m | exists e :: e in cached && m in CachedFinding(e.1, Get(ledger, e.0))
        ensures m in CachedFindings(cached, ledger)
      {
        var e :| e in cached && m in CachedFinding(e.1, Get(ledger, e.0));
        if e != cached[0] {
          assert e in cached[1..];
        }
      }
    }
  }

  lemma {:induction false} LedgerFindingsMember(ledger: seq<(string, ShelfFigure)>, cached: seq<(string, ShelfFigure)>)
    ensures forall m :: m in LedgerFindings(ledger, cached) <==>
      exists e :: e in ledger && m in LedgerFinding(e.0, e.1, cached)
  {
    if ledger != [] {
      LedgerFindingsMember(ledger[1..], cached);
      forall m | exists e :: e in ledger && m in LedgerFinding(e.0, e.1, cached)
        ensures m in LedgerFindings(ledger, cached)
      {
        var e :| e in ledger && m in LedgerFinding(e.0, e.1, cached);
        if e != ledger[0] {
          assert e in ledger[1..];
        }
      }
    }
  }

  /** Every finding is true of its shelf, to the unit. */
  lemma FindingsAreTrue(ledgerTotals: seq<ShelfFigure>, cached: seq<ShelfFigure>, m: Mismatch)
    requires CodeLikeBins(ledgerTotals) && CodeLikeBins(cached)
    requires m in Findings(ledgerTotals, cached)
    ensures m.ledger == FigureFor(ledgerTotals, m.productId, m.binLocation)
    ensures m.cached == FigureFor(cached, m.productId, m.binLocation)
    ensures m.difference == m.cached - m.ledger && m.difference != 0.0
    ensures m.kind ==
      if !Listed(ledgerTotals, m.productId, m.binLocation) then OrphanRow
      else if !Listed(cached, m.productId, m.binLocation) then MissingRow else Drift
  {
    hide Listed;
    var l, c := Indexed(ledgerTotals), Indexed(cached);
    IndexedFacts(ledgerTotals);
    IndexedFacts(cached);
    CachedFindingsMember(c, l);
    LedgerFindingsMember(l, c);
    if m in CachedFindings(c, l) {
      var e :| e in c && m in CachedFinding(e.1, Get(l, e.0));
      IndexedGet(ledgerTotals, e.1.productId, e.1.binLocation);
      IndexedGet(cached, e.1.productId, e.1.binLocation);
      GetEntry(c, e.0);
      assert (e.0, e.1) in c;
    } else {
      var e :| e in l && m in LedgerFinding(e.0, e.1, c);
      IndexedGet(ledgerTotals, e.1.productId, e.1.binLocation);
      IndexedGet(cached, e.1.productId, e.1.binLocation);
      GetEntry(l, e.0);
      assert (e.0, e.1) in l;
    }
  }

  /** The largest disagreement comes first. */
  lemma FindingsAreInOrder(ledgerTotals: seq<ShelfFigure>, cached: seq<ShelfFigure>, i: nat, j: nat)
    requires i < j < |Findings(ledgerTotals, cached)|
    ensures
      var a, b := Findings(ledgerTotals, cached)[i].difference, Findings(ledgerTotals, cached)[j].difference;
      (if a < 0.0 then -a else a) >= (if b < 0.0 then -b else b)
  {
    StableSortSorts(CachedFindings(Indexed(cached), Indexed(ledgerTotals))
                    + LedgerFindings(Indexed(ledgerTotals), Indexed(cached)), BiggestFirst);
  }

  /** Every disagreement is found. */
  lemma FindingsAreComplete(ledgerTotals: seq<ShelfFigure>, cached: seq<ShelfFigure>, productId: string,
      binLocation: string)
    requires CodeLikeBins(ledgerTotals) && CodeLikeBins(cached) && CodeLike(binLocation)
    requires FigureFor(ledgerTotals, productId, binLocation) != FigureFor(cached, productId, binLocation)
    ensures exists m :: m in Findings(ledgerTotals, cached) && m.productId == productId && m.binLocation == binLocation
  {
    var l, c := Indexed(ledgerTotals), Indexed(cached);
    var key := ShelfKey(productId, binLocation);
    IndexedFacts(ledgerTotals);
    IndexedFacts(cached);
    IndexedGet(ledgerTotals, productId, binLocation);
    IndexedGet(cached, productId, binLocation);
    GetEntry(l, key);
    GetEntry(c, key);
    CachedFindingsMember(c, l);
    LedgerFindingsMember(l, c);
    match Get(c, key)
    case Some(row) =>
      assert (key, row) in c;
      var m := CachedFinding(row, Get(l, key))[0];
      assert m in CachedFinding((key, row).1, Get(l, (key, row).0));
      assert m in Findings(ledgerTotals, cached);
    case None =>
      var total := Get(l, key).value;
      assert (key, total) in l;
      var m := LedgerFinding(key, total, c)[0];
      assert m in LedgerFinding((key, total).0, (key, total).1, c);
      assert m in Findings(ledgerTotals, cached);
  }

  /** The report is empty exactly when the two books agree on every shelf, an absent row read as zero. */
  lemma EmptyReportMeansAgreement(ledgerTotals: seq<ShelfFigure>, cached: seq<ShelfFigure>)
    requires CodeLikeBins(ledgerTotals) && CodeLikeBins(cached)
    ensures Findings(ledgerTotals, cached) == [] <==>
      forall p, b :: CodeLike(b) ==> FigureFor(ledgerTotals, p, b) == FigureFor(cached, p, b)
  {
    if Findings(ledgerTotals, cached) == [] {
      forall p, b | CodeLike(b)
        ensures FigureFor(ledgerTotals, p, b) == FigureFor(cached, p, b)
      {
        if FigureFor(ledgerTotals, p, b) != FigureFor(cached, p, b) {
          FindingsAreComplete(ledgerTotals, cached, p, b);
        }
      }
    } else {
      var m := Findings(ledgerTotals, cached)[0];
      FindingsAreTrue(ledgerTotals, cached, m);
      FindingBin(ledgerTotals, cached, m);
    }
  }

  lemma FindingBin(ledgerTotals: seq<ShelfFigure>, cached: seq<ShelfFigure>, m: Mismatch)
    requires CodeLikeBins(ledgerTotals) && CodeLikeBins(cached) && m in Findings(ledgerTotals, cached)
    ensures CodeLike(m.binLocation)
  {
    var l, c := Indexed(ledgerTotals), Indexed(cached);
    IndexedFacts(ledgerTotals);
    IndexedFacts(cached);
    CachedFindingsMember(c, l);
    LedgerFindingsMember(l, c);
  }

  // ---------------------------------------------------------- stuck holds

  datatype StuckHold = StuckHold(row: Row, excess: real)

  function Overhang(row: Row): real {
    row.reserved + row.blocked - row.quantity
  }

  function Overhangs(rows: seq<Row>): seq<StuckHold> {
    if rows == [] then [] else [StuckHold(rows[0], Overhang(rows[0]))] + Overhangs(rows[1..])
  }

  const Stuck: StuckHold -> bool := (h: StuckHold) => h.excess > 0.0

  const WorstFirst: (StuckHold, StuckHold) -> bool := (a: StuckHold, b: StuckHold) => a.excess >= b.excess

  /** Shelves that hold back more than lies on them. */
  function ReconcileHolds(rows: seq<Row>): seq<StuckHold> {
    StableSort(Filter(Overhangs(rows), Stuck), WorstFirst)
  }

  lemma {:induction false} OverhangsMember(rows: seq<Row>)
    ensures forall h :: h in Overhangs(rows) <==> h.row in rows && h.excess == Overhang(h.row)
  {
    if rows != [] {
      OverhangsMember(rows[1..]);
      forall h: StuckHold | h.row in rows && h.excess == Overhang(h.row)
        ensures h in Overhangs(rows)
      {
        if h.row != rows[0] {
          assert h.row in rows[1..];
        }
      }
    }
  }

  /** The report lists exactly the rows that hold back more than they have, with the excess. */
  lemma StuckHoldsAreExact(rows: seq<Row>)
    ensures forall h :: h in ReconcileHolds(rows) <==>
      h.row in rows && h.excess == h.row.reserved + h.row.blocked - h.row.quantity && h.excess > 0.0
    ensures forall i, j :: 0 <= i < j < |ReconcileHolds(rows)| ==>
      ReconcileHolds(rows)[i].excess >= ReconcileHolds(rows)[j].excess
  {
    OverhangsMember(rows);
    StableSortSorts(Filter(Overhangs(rows), Stuck), WorstFirst);
  }

  // -------------------------------------------------- holds after a count

  ghost predicate NonNegative(rows: seq<Row>) {
    forall r :: r in rows ==> r.quantity >= 0.0 && r.reserved >= 0.0 && r.blocked >= 0.0
  }

  lemma {:induction false} TrimAllMember(rows: seq<Row>, ids: set<string>)
    ensures |TrimAll(rows, ids)| == |rows|
    ensures forall i :: 0 <= i < |rows| ==>
      TrimAll(rows, ids)[i] == if rows[i].id in ids then TrimmedRow(rows[i]) else rows[i]
  {
    if rows != [] {
      TrimAllMember(rows[1..], ids);
    }
  }

  /** A trimmed row loses exactly its overhang; a promise is cut only once quarantine is
      gone; the goods themselves are untouched; trimming again changes nothing. */
  lemma TrimmedRowFacts(row: Row)
    requires row.quantity >= 0.0 && row.reserved >= 0.0 && row.blocked >= 0.0
    ensures
      var after := TrimmedRow(row);
      && after == row.(reserved := after.reserved, blocked := after.blocked)
      && 0.0 <= after.reserved <= row.reserved && 0.0 <= after.blocked <= row.blocked
      && (row.reserved + row.blocked) - (after.reserved + after.blocked) == Max(Overhang(row), 0.0)
      && (after.reserved < row.reserved ==> after.blocked == 0.0)
      && Overhang(after) <= 0.0
      && TrimmedRow(after) == after
  {
    TrimTakesTheOverhang(row.quantity, Holds(row.reserved, row.blocked));
  }

  lemma {:induction false} TrimAllTwice(rows: seq<Row>, ids: set<string>)
    requires NonNegative(rows)
    ensures TrimAll(TrimAll(rows, ids), ids) == TrimAll(rows, ids)
    ensures SumBy(TrimAll(rows, ids), OnHand) == SumBy(rows, OnHand)
  {
    if rows != [] {
      assert rows[0] in rows && forall r :: r in rows[1..] ==> r in rows;
      TrimmedRowFacts(rows[0]);
      TrimAllTwice(rows[1..], ids);
      assert TrimAll(rows, ids)[1..] == TrimAll(rows[1..], ids);
    }
  }

  /** After trimming, no trimmed row is stuck, whatever happened before. */
  lemma TrimClearsStuckHolds(rows: seq<Row>, ids: set<string>)
    requires NonNegative(rows) && forall r :: r in rows ==> r.id in ids
    ensures ReconcileHolds(TrimAll(rows, ids)) == []
    ensures NonNegative(TrimAll(rows, ids))
  {
    var after := TrimAll(rows, ids);
    TrimAllMember(rows, ids);
    forall r | r in after
      ensures Overhang(r) <= 0.0 && r.quantity >= 0.0 && r.reserved >= 0.0 && r.blocked >= 0.0
    {
      var i :| 0 <= i < |after| && after[i] == r;
      assert rows[i] in rows;
      TrimmedRowFacts(rows[i]);
    }
    StuckHoldsAreExact(after);
    Head(ReconcileHolds(after));
  }

  /** The total the till reads never exceeds what the shelves can hand out, and the two are
      equal exactly when no shelf holds back more than it has: one stuck hold eats into the
      other shelves of the same goods. */
  lemma {:induction false} TotalIsHonest(rows: seq<Row>)
    ensures TotalAvailable(rows) <= SumBy(BinsOf(rows, true), Room(Available))
    ensures TotalAvailable(rows) == SumBy(BinsOf(rows, true), Room(Available)) <==> ReconcileHolds(rows) == []
  {
    TotalIsHonestRows(rows);
    StuckHoldsAreExact(rows);
    Head(ReconcileHolds(rows));
    if r :| r in rows && Overhang(r) > 0.0 {
      assert StuckHold(r, Overhang(r)) in ReconcileHolds(rows);
    }
  }

  lemma {:induction false} TotalIsHonestRows(rows: seq<Row>)
    ensures TotalAvailable(rows) <= SumBy(BinsOf(rows, true), Room(Available))
    ensures TotalAvailable(rows) == SumBy(BinsOf(rows, true), Room(Available)) <==>
      forall r :: r in rows ==> Overhang(r) <= 0.0
  {
    if rows != [] {
      assert BinsOf(rows, true)[1..] == BinsOf(rows[1..], true);
      TotalIsHonestRows(rows[1..]);
      assert Available(BinsOf(rows, true)[0]) == AvailableQuantity(rows[0]) == -Overhang(rows[0]);
      assert forall r :: r in rows <==> r == rows[0] || r in rows[1..];
    }
  }

  /** A shortfall found by a count, taken across the bins with no regard for holds, then
      trimmed: the goods drop by exactly the shortfall, every row fits again, and what the
      till may sell is exactly what the allocator can hand out. */
  method TakeShortfall(table: StockTable, shortfall: real) returns (ok: bool, trimmed: seq<TrimReport>)
    requires table.Valid() && NonNegative(table.rows) && shortfall > 0.0
    modifies table
    ensures ok <==> shortfall <= SumBy(old(table.rows), OnHand)
    ensures ok ==>
      && NonNegative(table.rows)
      && SumBy(table.rows, OnHand) == SumBy(old(table.rows), OnHand) - shortfall
      && ReconcileHolds(table.rows) == []
      && (forall q :: Allocation(q, BinsOf(table.rows, true)).Allocated? <==> q <= TotalAvailable(table.rows))
  {
    trimmed := [];
    var ids := set r | r in table.rows :: r.id;
    ghost var rows, ledger := table.rows, table.ledger;
    ShortfallApplies(rows, shortfall);
    ok := table.DeductAcrossBins(table.rows, shortfall, Adjustment);
    if ok {
      DeductedInFull(rows, ledger, rows, Allocation(shortfall, BinsOf(rows, false)).allocations, Adjustment,
                     table.rows, table.ledger);
      ghost var taken := table.rows;
      trimmed := table.TrimHoldsToStock(ids);
      TrimmedFacts(taken, ids);
    }
  }

  lemma TrimmedFacts(rows: seq<Row>, ids: set<string>)
    requires Distinct(rows, RowId) && NonNegative(rows) && forall r :: r in rows ==> r.id in ids
    ensures
      var after := TrimAll(rows, ids);
      && NonNegative(after) && ReconcileHolds(after) == []
      && SumBy(after, OnHand) == SumBy(rows, OnHand)
      && forall q :: Allocation(q, BinsOf(after, true)).Allocated? <==> q <= TotalAvailable(after)
  {
    TrimAllTwice(rows, ids);
    TrimClearsStuckHolds(rows, ids);
    TotalIsHonest(TrimAll(rows, ids));
    TrimAllDistinct(rows, ids);
    AllocatedWithin(TrimAll(rows, ids));
  }

  lemma TrimAllDistinct(rows: seq<Row>, ids: set<string>)
    requires Distinct(rows, RowId)
    ensures Distinct(TrimAll(rows, ids), RowId)
  {
    hide Distinct, TrimAll;
    TrimAllMember(rows, ids);
    SameKeysDistinct(rows, TrimAll(rows, ids), RowId);
  }

  lemma AllocatedWithin(rows: seq<Row>)
    requires Distinct(rows, RowId)
    ensures forall q ::
      Allocation(q, BinsOf(rows, true)).Allocated? <==> q <= SumBy(BinsOf(rows, true), Room(Available))
  {
    BinsOfFacts(rows, true);
    forall q
      ensures Allocation(q, BinsOf(rows, true)).Allocated? <==> q <= SumBy(BinsOf(rows, true), Room(Available))
    {
      AllocationIsExact(q, BinsOf(rows, true));
    }
  }

  lemma {:induction false} RoomIsOnHand(rows: seq<Row>)
    requires NonNegative(rows)
    ensures SumBy(BinsOf(rows, false), Room(Available)) == SumBy(rows, OnHand)
  {
    if rows != [] {
      assert rows[0] in rows && forall r :: r in rows[1..] ==> r in rows;
      assert BinsOf(rows, false)[1..] == BinsOf(rows[1..], false);
      RoomIsOnHand(rows[1..]);
    }
  }

  /** On fresh rows a removal that ignores holds goes through exactly when the goods are there. */
  lemma ShortfallApplies(rows: seq<Row>, shortfall: real)
    requires Distinct(rows, RowId) && NonNegative(rows) && shortfall > 0.0
    ensures Allocation(shortfall, BinsOf(rows, false)).Allocated? <==> shortfall <= SumBy(rows, OnHand)
    ensures shortfall <= SumBy(rows, OnHand) ==>
      var after := ExecuteAll(rows, TakeAny, Allocation(shortfall, BinsOf(rows, false)).allocations);
      && after.Some? && Distinct(after.value, RowId) && NonNegative(after.value)
      && SumBy(after.value, OnHand) == SumBy(rows, OnHand) - shortfall
      && forall r :: r in after.value ==> exists r0 :: r0 in rows && r0.id == r.id
  {
    hide SumBy, ExecuteAll, Distinct, Lookup, Allocation, BinsOf;
    var bins := BinsOf(rows, false);
    BinsOfFacts(rows, false);
    RoomIsOnHand(rows);
    AllocationIsExact(shortfall, bins);
    if shortfall <= SumBy(rows, OnHand) {
      var parts := Allocation(shortfall, bins).allocations;
      forall p | p in parts
        ensures Lookup(rows, p.id).Some? && Lookup(rows, p.id).value in rows
        ensures 0.0 < p.quantity <= Lookup(rows, p.id).value.quantity
      {
        var b :| b in bins && b.stockId == p.id;
        TakenIsThePart(parts, p);
        LookupMember(rows, p.id);
      }
      AllPartsApply(rows, TakeAny, parts);
      ColumnMoves(rows, TakeAny, parts, OnHand, Negated);
      NegatedSum(parts);
      var after := ExecuteAll(rows, TakeAny, parts).value;
      forall r | r in after
        ensures r.quantity >= 0.0 && r.reserved >= 0.0 && r.blocked >= 0.0
        ensures exists r0 :: r0 in rows && r0.id == r.id
      {
        LookupOwn(after, r);
        if p :| p in parts && p.id == r.id {
        }
        LookupMember(rows, r.id);
      }
    }
  }
}
