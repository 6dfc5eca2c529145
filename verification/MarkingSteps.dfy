/** What each door of `MarkingRuns` does when it lets a document through, and when it does: goods and codes
    move together, or neither does. */
module MarkingSteps {
  import opened Lists
  import opened JsText
  import opened JsMap
  import opened Marking
  import opened MarkingService
  import opened MarkingPick
  import opened MarkingRuns
  import MarkingSale
  import MarkingEntry

  // --------------------------------------------------------------------- goods

  /** Goods have moved at one place, by these amounts, and nowhere else. */
  ghost predicate GoodsMoved(w: World, next: World, place: string, amounts: string -> real) {
    forall p, l :: OnHand(next, p, l) == OnHand(w, p, l) + if l == place then amounts(p) else 0.0
  }

  function Comes(amounts: seq<Amount>): string -> real {
    (p: string) => SumBy(amounts, Of(p))
  }

  function Goes(amounts: seq<Amount>): string -> real {
    (p: string) => -SumBy(amounts, Of(p))
  }

  lemma MovesMean(w: World, v: World, amounts: seq<Amount>, l: string, leaving: bool)
    requires w.ledger == v.ledger
    ensures GoodsMoved(w, WithMoves(v, amounts, l, leaving), l, if leaving then Goes(amounts) else Comes(amounts))
  {
    hide OnHand, WithMoves;
    forall p, l2
      ensures OnHand(WithMoves(v, amounts, l, leaving), p, l2) == OnHand(w, p, l2) +
        if l2 == l then (if leaving then Goes(amounts) else Comes(amounts))(p) else 0.0
    {
      SameGoods(w, v, p, l2);
      GoodsAfter(v, amounts, l, leaving, p, l2);
    }
  }

  /** What a document moves of each product. */
  function Brings(lines: seq<DocumentLine>): string -> real {
    (p: string) => SumBy(lines, Moves(p))
  }

  function Takes(lines: seq<DocumentLine>): string -> real {
    (p: string) => -SumBy(lines, Moves(p))
  }

  lemma DocumentMoves(w: World, v: World, lines: seq<DocumentLine>, l: string, leaving: bool)
    requires w.ledger == v.ledger
    ensures GoodsMoved(w, WithMoves(v, MapSeq(lines, LineAmount), l, leaving), l,
                       if leaving then Takes(lines) else Brings(lines))
  {
    hide OnHand, WithMoves;
    var amounts := MapSeq(lines, LineAmount);
    MovesMean(w, v, amounts, l, leaving);
    forall p
      ensures SumBy(amounts, Of(p)) == SumBy(lines, Moves(p))
    {
      DocumentSum(lines, p);
    }
  }

  ghost predicate EachMoves(lines: seq<DocumentLine>) {
    forall i :: 0 <= i < |lines| ==> lines[i].quantity > 0.0
  }

  /** What the guard of every deduction asks of the product of a document. */
  ghost predicate IsThere(w: World, lines: seq<DocumentLine>, l: string) {
    forall p :: Mentions(lines, p) ==> SumBy(lines, Moves(p)) <= OnHand(w, p, l)
  }

  lemma EachMovesIff(lines: seq<DocumentLine>)
    ensures Positive(MapSeq(lines, LineAmount)) <==> EachMoves(lines)
  {
    MapSeqAt(lines, LineAmount);
    if Positive(MapSeq(lines, LineAmount)) {
      forall i | 0 <= i < |lines|
        ensures lines[i].quantity > 0.0
      {
        assert MapSeq(lines, LineAmount)[i].quantity > 0.0;
      }
    }
  }

  lemma IsThereIff(w: World, lines: seq<DocumentLine>, l: string)
    ensures Enough(w, MapSeq(lines, LineAmount), l) <==> IsThere(w, lines, l)
  {
    hide OnHand;
    var amounts := MapSeq(lines, LineAmount);
    MapSeqAt(lines, LineAmount);
    forall p
      ensures SumBy(amounts, Of(p)) == SumBy(lines, Moves(p))
    {
      DocumentSum(lines, p);
    }
    if Enough(w, amounts, l) {
      forall p | Mentions(lines, p)
        ensures SumBy(lines, Moves(p)) <= OnHand(w, p, l)
      {
        EnoughFor(w, lines, l, p);
      }
    }
    if IsThere(w, lines, l) {
      forall i | 0 <= i < |amounts|
        ensures SumBy(amounts, Of(amounts[i].productId)) <= OnHand(w, amounts[i].productId, l)
      {
        assert Mentions(lines, lines[i].productId);
      }
    }
  }

  // --------------------------------------------------------------------- codes

  /** Of the rows, those that `ids` name are in a new state and all others as they were. */
  lemma MovedAt(codes: seq<CodeRow>, ids: set<string>, to: CodeState, document: Option<string>, i: nat)
    requires i < |codes|
    ensures |Moved(codes, ids, to, document)| == |codes|
    ensures Moved(codes, ids, to, document)[i] ==
      if codes[i].id in ids then codes[i].(state := to, saleDocumentId := document) else codes[i]
  {
    MapSeqAt(codes, MoveOne(ids, to, document));
  }

  lemma AsManyCodes(codes: seq<CodeRow>, ids: set<string>, to: CodeState, document: Option<string>)
    ensures |Moved(codes, ids, to, document)| == |codes|
  {
    MapSeqAt(codes, MoveOne(ids, to, document));
  }

  lemma ClaimedIds(codes: seq<CodeRow>, p: CodeRow -> bool, lines: seq<DocumentLine>, row: CodeRow)
    requires CodeTable(codes) && row in codes && PlanGroups(Groups(lines), Filter(codes, p)).Ok?
    ensures row.id in SetOf(PlanGroups(Groups(lines), Filter(codes, p)).value) <==> p(row) && Claims(lines, row)
  {
    hide CodeTable, PlanGroups, Groups, Claims;
    var outstanding := Filter(codes, p);
    Subtable(codes, p);
    PlanIsOfOutstanding(Groups(lines), outstanding);
    if row.id in SetOf(PlanGroups(Groups(lines), outstanding).value) {
      NamedRow(codes, outstanding, row);
    }
    if row in outstanding {
      GroupsTakeTheClaimed(outstanding, lines, row);
    }
  }

  // ------------------------------------------------------------------- returns

  /** The codes a document sold, and these lines ask back, lie on the shelf again; no other code has changed. */
  ghost predicate CodesReturned(w: World, next: World, d: string, lines: seq<DocumentLine>) {
    && |next.codes| == |w.codes|
    && forall i :: 0 <= i < |w.codes| ==>
         var row := w.codes[i];
         next.codes[i] ==
           if row.state == Sold && row.saleDocumentId == Some(d) && Claims(lines, row)
           then row.(state := InStock, saleDocumentId := None) else row
  }

  /** A return goes through exactly when the sale is known, every line moves something and what the sale has
      left of each product may be picked; then goods come back to the place of sale and the codes that were
      scanned, or all that are left, with them. */
  lemma ReturnMeans(marked: set<string>, w: World, d: string, lines: seq<DocumentLine>)
    requires CodeTable(w.codes)
    ensures
      var next := Step(marked, w, Return(d, lines));
      if && d in w.places && EachMoves(lines)
         && forall p :: Mentions(lines, p) ==> MayMove(Filter(w.codes, SoldBy(d)), lines, p)
      then
        next.places == w.places && CodesReturned(w, next, d, lines) && GoodsMoved(w, next, w.places[d], Brings(lines))
      else next == w
  {
    hide CodeTable, OnHand, WithMoves, PlanGroups, Groups, Moved, Positive, EachMoves, MayMove, Mentions, GoodsMoved,
      SetOf, Claims, Filter;
    var outstanding := Filter(w.codes, SoldBy(d));
    Subtable(w.codes, SoldBy(d));
    GroupsIff(outstanding, lines);
    EachMovesIff(lines);
    if d in w.places && EachMoves(lines) && PlanGroups(Groups(lines), outstanding).Ok? {
      var ids := SetOf(PlanGroups(Groups(lines), outstanding).value);
      var moved := w.(codes := Moved(w.codes, ids, InStock, None));
      var next := WithMoves(moved, MapSeq(lines, LineAmount), w.places[d], false);
      DocumentMoves(w, moved, lines, w.places[d], false);
      SameCodes(moved, MapSeq(lines, LineAmount), w.places[d], false);
      AsManyCodes(w.codes, ids, InStock, None);
      forall i | 0 <= i < |w.codes|
        ensures
          var row := w.codes[i];
          next.codes[i] ==
            if row.state == Sold && row.saleDocumentId == Some(d) && Claims(lines, row)
            then row.(state := InStock, saleDocumentId := None) else row
      {
        ClaimedIds(w.codes, SoldBy(d), lines, w.codes[i]);
        MovedAt(w.codes, ids, InStock, None, i);
      }
    }
  }

  // ------------------------------------------------------------------ removals

  ghost predicate CodesRemoved(w: World, next: World, d: string, l: string, lines: seq<DocumentLine>, to: CodeState) {
    && |next.codes| == |w.codes|
    && forall i :: 0 <= i < |w.codes| ==>
         var row := w.codes[i];
         next.codes[i] ==
           if row.state == InStock && row.locationId == l && Claims(lines, row)
           then row.(state := to, saleDocumentId := if to == Sold then Some(d) else None) else row
  }

  /** A removal goes through exactly when its goods are there and the codes that lie here may be picked; then
      they leave together. */
  lemma RemovalMeans(marked: set<string>, w: World, d: string, l: string, lines: seq<DocumentLine>, to: CodeState)
    requires CodeTable(w.codes) && to != InStock && d !in w.places
    ensures
      var next := Step(marked, w, Remove(d, l, lines, to));
      var outstanding := Filter(w.codes, LyingFor(l, lines));
      if && EachMoves(lines) && IsThere(w, lines, l)
         && (outstanding == [] || forall p :: Mentions(lines, p) ==> MayMove(outstanding, lines, p))
      then
        && next.places == w.places[d := l] && CodesRemoved(w, next, d, l, lines, to)
        && GoodsMoved(w, next, l, Takes(lines))
      else next == w
  {
    hide CodeTable, OnHand, WithMoves, PlanGroups, Groups, Moved, Positive, EachMoves, MayMove, GoodsMoved,
      SetOf, ScansOf, Filter, Enough, IsThere, Parse;
    var outstanding := Filter(w.codes, LyingFor(l, lines));
    Subtable(w.codes, LyingFor(l, lines));
    DocumentIff(outstanding, lines);
    EachMovesIff(lines);
    IsThereIff(w, lines, l);
    if EachMoves(lines) && IsThere(w, lines, l) && Plan(outstanding, lines).Ok? {
      var ids := SetOf(Plan(outstanding, lines).value);
      var document := if to == Sold then Some(d) else None;
      var moved := w.(codes := Moved(w.codes, ids, to, document), places := w.places[d := l]);
      var next := WithMoves(moved, MapSeq(lines, LineAmount), l, true);
      DocumentMoves(w, moved, lines, l, true);
      SameCodes(moved, MapSeq(lines, LineAmount), l, true);
      AsManyCodes(w.codes, ids, to, document);
      forall i | 0 <= i < |w.codes|
        ensures
          var row := w.codes[i];
          next.codes[i] ==
            if row.state == InStock && row.locationId == l && Claims(lines, row)
            then row.(state := to, saleDocumentId := if to == Sold then Some(d) else None) else row
      {
        RemovedIds(w.codes, l, lines, w.codes[i]);
        MovedAt(w.codes, ids, to, document, i);
      }
    }
  }

  lemma RemovedIds(codes: seq<CodeRow>, l: string, lines: seq<DocumentLine>, row: CodeRow)
    requires CodeTable(codes) && row in codes && Plan(Filter(codes, LyingFor(l, lines)), lines).Ok?
    ensures row.id in SetOf(Plan(Filter(codes, LyingFor(l, lines)), lines).value) <==>
      row.state == InStock && row.locationId == l && Claims(lines, row)
  {
    hide CodeTable, PlanGroups, Groups, ScansOf, Parse, Mentions;
    if Filter(codes, LyingFor(l, lines)) == [] {
      assert row !in Filter(codes, LyingFor(l, lines));
    } else {
      ClaimedIds(codes, LyingFor(l, lines), lines, row);
    }
  }

  // --------------------------------------------------------------------- sales

  ghost predicate CodesSold(w: World, next: World, d: string, scanned: seq<MarkingSale.ScannedLine>) {
    && |next.codes| == |w.codes|
    && forall i :: 0 <= i < |w.codes| ==>
         var row := w.codes[i];
         next.codes[i] ==
           if exists text :: text in MarkingSale.ScannedOf(scanned, row.productId) && Parse(text) == Ok(row.code)
           then row.(state := Sold, saleDocumentId := Some(d)) else row
  }

  /** A sale goes through exactly when its goods are there and its scans may be sold, and covers every product
      sold only by code; then the goods leave and the scanned codes are the document's. */
  lemma SaleMeans(
    marked: set<string>, w: World, d: string, l: string, items: seq<Amount>, scanned: seq<MarkingSale.ScannedLine>)
    requires CodeTable(w.codes) && d !in w.places
    ensures
      var next := Step(marked, w, Sell(d, l, items, scanned));
      if && Positive(items) && Enough(w, items, l)
         && (forall p :: MarkingSale.ScannedOf(scanned, p) != [] ==>
               MarkingSale.MaySell(w.codes, p, l, MarkingSale.ScannedOf(scanned, p), SumBy(items, Of(p))))
         && (forall p :: p in Among(marked, items) ==>
               |MarkingSale.ScannedOf(scanned, p)| as real == SumBy(items, Of(p)))
      then next.places == w.places[d := l] && CodesSold(w, next, d, scanned) && GoodsMoved(w, next, l, Goes(items))
      else next == w
  {
    hide OnHand, WithMoves, Moved, Positive, Enough, GoodsMoved, Among, Parse, MarkingSale.ResolveSale,
      MarkingSale.ScannedOf, MarkingSale.MaySell, Distinct;
    MarkingSale.SaleIff(w.codes, Among(marked, items), l, items, scanned);
    var sale := MarkingSale.ResolveSale(w.codes, Among(marked, items), l, items, scanned);
    if Positive(items) && Enough(w, items, l) && sale.Ok? {
      var ids := AllIds(sale.value);
      var moved := w.(codes := Moved(w.codes, ids, Sold, Some(d)), places := w.places[d := l]);
      var next := WithMoves(moved, items, l, true);
      MovesMean(w, moved, items, l, true);
      SameCodes(moved, items, l, true);
      AsManyCodes(w.codes, ids, Sold, Some(d));
      forall i | 0 <= i < |w.codes|
        ensures
          var row := w.codes[i];
          next.codes[i] ==
            if exists text :: text in MarkingSale.ScannedOf(scanned, row.productId) && Parse(text) == Ok(row.code)
            then row.(state := Sold, saleDocumentId := Some(d)) else row
      {
        SpentIds(w.codes, Among(marked, items), l, items, scanned, w.codes[i]);
        MovedAt(w.codes, ids, Sold, Some(d), i);
      }
    }
  }

  lemma SpentIds(codes: seq<CodeRow>, only: seq<string>, l: string, items: seq<Amount>,
                 scanned: seq<MarkingSale.ScannedLine>, row: CodeRow)
    requires CodeTable(codes) && row in codes && MarkingSale.ResolveSale(codes, only, l, items, scanned).Ok?
    ensures row.id in AllIds(MarkingSale.ResolveSale(codes, only, l, items, scanned).value) <==>
      exists text :: text in MarkingSale.ScannedOf(scanned, row.productId) && Parse(text) == Ok(row.code)
  {
    hide MarkingSale.ResolveSale, MarkingSale.ScannedOf, Parse;
    var rows := MarkingSale.ResolveSale(codes, only, l, items, scanned).value;
    forall x
      ensures x in rows <==>
        x in codes && exists text :: text in MarkingSale.ScannedOf(scanned, x.productId) && Parse(text) == Ok(x.code)
    {
      MarkingSale.SaleSpendsWhatWasScanned(codes, only, l, items, scanned, x);
    }
    if row.id in AllIds(rows) {
      NamedRow(codes, rows, row);
    }
  }

  // ---------------------------------------------------------------- deliveries

  lemma {:induction false} NewRowsAre(entries: seq<(string, MarkedCode)>, ids: seq<string>, l: string)
    requires |ids| == |entries|
    ensures |NewRows(entries, ids, l)| == |entries|
    ensures forall i :: 0 <= i < |entries| ==>
      NewRows(entries, ids, l)[i] == CodeRow(ids[i], entries[i].0, l, entries[i].1, InStock, None)
  {
    if entries != [] {
      NewRowsAre(entries[1..], ids[1..], l);
    }
  }

  lemma {:induction false} InTaggedIff(p: string, codes: seq<MarkedCode>, e: (string, MarkedCode))
    ensures e in Tagged(p, codes) <==> e.0 == p && e.1 in codes
  {
    if codes != [] {
      InTaggedIff(p, codes[1..], e);
      assert forall c :: c in codes <==> c == codes[0] || c in codes[1..];
    }
  }

  lemma {:induction false} InEntriesIff(m: MarkingEntry.Codes, e: (string, MarkedCode))
    ensures e in Entries(m) <==> exists x :: x in m && x.0 == e.0 && e.1 in x.1
  {
    if m != [] {
      InEntriesIff(m[1..], e);
      InTaggedIff(m[0].0, m[0].1, e);
      assert forall x :: x in m <==> x == m[0] || x in m[1..];
    }
  }

  lemma EntriesAreScanned(lines: seq<MarkingEntry.IncomingLine>, e: (string, MarkedCode))
    requires MarkingEntry.Read(lines).Ok?
    ensures e in Entries(MarkingEntry.Read(lines).value) <==>
      exists line :: line in lines && line.productId == e.0 && MarkingEntry.Carries(line, e.1)
  {
    hide MarkingEntry.Read, MarkingEntry.Carries, Keyed;
    var m := MarkingEntry.Read(lines).value;
    MarkingEntry.ReadKeyed(lines);
    MarkingEntry.ReadWhatWasScanned(lines, e.0, e.1);
    InEntriesIff(m, e);
    GetEntry(m, e.0);
    if x :| x in m && x.0 == e.0 && e.1 in x.1 {
      assert (e.0, x.1) in m;
    }
    if e.1 in GetOr(m, e.0, []) {
      assert (e.0, Get(m, e.0).value) in m;
    }
  }

  /** The rows a document adds: one in stock here for every code it carries, in place of no other row. */
  ghost predicate RowsAdded(w: World, next: World, l: string, codes: set<(string, MarkedCode)>) {
    && |w.codes| <= |next.codes| && next.codes[..|w.codes|] == w.codes
    && (forall i :: |w.codes| <= i < |next.codes| ==>
          var row := next.codes[i];
          (row.productId, row.code) in codes && row == CodeRow(row.id, row.productId, l, row.code, InStock, None))
    && forall e :: e in codes ==>
         exists i :: |w.codes| <= i < |next.codes| && (next.codes[i].productId, next.codes[i].code) == e
  }

  lemma AddedMeans(w: World, next: World, entries: seq<(string, MarkedCode)>, ids: seq<string>, l: string)
    requires |ids| == |entries| && next.codes == w.codes + NewRows(entries, ids, l)
    ensures RowsAdded(w, next, l, set e | e in entries)
  {
    NewRowsAre(entries, ids, l);
    hide NewRows;
    forall e | e in entries
      ensures exists i :: |w.codes| <= i < |next.codes| && (next.codes[i].productId, next.codes[i].code) == e
    {
      var k :| 0 <= k < |entries| && entries[k] == e;
      assert next.codes[|w.codes| + k] == NewRows(entries, ids, l)[k];
    }
    forall i | |w.codes| <= i < |next.codes|
      ensures
        var row := next.codes[i];
        (row.productId, row.code) in entries && row == CodeRow(row.id, row.productId, l, row.code, InStock, None)
    {
      assert next.codes[i] == NewRows(entries, ids, l)[i - |w.codes|];
    }
  }

  /** What the lines of a delivery carry, under the products they name. */
  ghost function Carried(lines: seq<MarkingEntry.IncomingLine>): set<(string, MarkedCode)>
    requires MarkingEntry.Read(lines).Ok?
  {
    set e | e in Entries(MarkingEntry.Read(lines).value)
  }

  /** A delivery goes through exactly when its codes are accepted, every line brings something and the new rows
      repeat no id and no code on record; then the goods come, with a row for every code scanned. */
  lemma ReceiveMeans(
    marked: set<string>, w: World, l: string, lines: seq<MarkingEntry.IncomingLine>, ids: seq<string>)
    ensures
      var next := Step(marked, w, Receive(l, lines, ids));
      var amounts := MarkingEntry.Amounts(lines);
      if && MarkingEntry.ResolveIncoming(lines, Among(marked, amounts)).Ok? && Positive(amounts)
         && |ids| == |Entries(MarkingEntry.Read(lines).value)|
         && UniqueRows(w.codes + NewRows(Entries(MarkingEntry.Read(lines).value), ids, l))
      then
        && next.places == w.places && RowsAdded(w, next, l, Carried(lines))
        && GoodsMoved(w, next, l, Delivered(lines))
      else next == w
  {
    hide OnHand, WithMoves, Positive, GoodsMoved, Among, MarkingEntry.Read, UniqueRows, Entries, NewRows, RowsAdded;
    var amounts := MarkingEntry.Amounts(lines);
    if && MarkingEntry.ResolveIncoming(lines, Among(marked, amounts)).Ok? && Positive(amounts)
       && |ids| == |Entries(MarkingEntry.Read(lines).value)|
       && UniqueRows(w.codes + NewRows(Entries(MarkingEntry.Read(lines).value), ids, l)) {
      var entries := Entries(MarkingEntry.Read(lines).value);
      var more := w.(codes := w.codes + NewRows(entries, ids, l));
      var next := WithMoves(more, amounts, l, false);
      MovesMean(w, more, amounts, l, false);
      SameCodes(more, amounts, l, false);
      AddedMeans(w, next, entries, ids, l);
      DeliveredIs(w, next, l, lines);
    }
  }

  function Delivered(lines: seq<MarkingEntry.IncomingLine>): string -> real {
    (p: string) => MarkingEntry.UnitsOf(lines, p)
  }

  lemma DeliveredIs(w: World, next: World, l: string, lines: seq<MarkingEntry.IncomingLine>)
    requires GoodsMoved(w, next, l, Comes(MarkingEntry.Amounts(lines)))
    ensures GoodsMoved(w, next, l, Delivered(lines))
  {
    hide OnHand;
    forall p
      ensures Comes(MarkingEntry.Amounts(lines))(p) == Delivered(lines)(p)
    {
      MarkingEntry.SumOfUnits(lines, p);
    }
  }

  /** Goods on the shelf are marked exactly when the scans are different codes, none on record, and there are
      uncoded units here for all of them; then each code gets a row and no goods move. */
  lemma MarkingMeans(
    marked: set<string>, w: World, l: string, p: string, scans: seq<Text>, ids: seq<string>, read: seq<MarkedCode>)
    requires AllParse(scans, read) && |ids| == |scans|
    ensures
      var next := Step(marked, w, MarkShelf(l, p, scans, ids));
      if && scans != [] && MarkingEntry.RepeatsNothing(scans)
         && (forall r, s :: r in w.codes && s in scans ==> Parse(s) != Ok(r.code))
         && Coded(w, p, l) as real + |scans| as real <= OnHand(w, p, l)
         && UniqueRows(w.codes + NewRowsOf(p, read, ids, l))
      then
        && next.places == w.places && next.ledger == w.ledger
        && RowsAdded(w, next, l, set c | c in read :: (p, c))
      else next == w
  {
    hide OnHand, Parse, Known, LyingIds, MarkingEntry.ResolveStock, MarkingEntry.RepeatsNothing, NoKeyTwice, UniqueRows,
      RowsAdded, NewRows, Tagged;
    KnownIff(w.codes, scans);
    MarkingEntry.RepeatsIff(scans, read);
    TaggedSize(p, read);
    var known := Known(w.codes, scans);
    MarkingEntry.StockCodesIff(scans, OnHand(w, p, l), Coded(w, p, l) as real, known, read);
    var verdict := MarkingEntry.ResolveStock(scans, OnHand(w, p, l), Coded(w, p, l) as real, known);
    if verdict.Ok? {
      MarkingEntry.StockCodesIff(scans, OnHand(w, p, l), Coded(w, p, l) as real, known, verdict.value);
      SameRead(scans, read, verdict.value);
      if UniqueRows(w.codes + NewRowsOf(p, read, ids, l)) {
        AddedMeans(w, w.(codes := w.codes + NewRowsOf(p, read, ids, l)), Tagged(p, read), ids, l);
        forall e
          ensures e in Tagged(p, read) <==> e.0 == p && e.1 in read
        {
          InTaggedIff(p, read, e);
        }
        assert (set e | e in Tagged(p, read)) == set c | c in read :: (p, c);
      }
    }
  }

  /** The rows that would be written for these codes of one product. */
  function NewRowsOf(p: string, read: seq<MarkedCode>, ids: seq<string>, l: string): seq<CodeRow>
    requires |ids| == |read|
  {
    TaggedSize(p, read);
    NewRows(Tagged(p, read), ids, l)
  }

  lemma SameRead(scans: seq<Text>, a: seq<MarkedCode>, b: seq<MarkedCode>)
    requires AllParse(scans, a) && AllParse(scans, b)
    ensures a == b
  {
    hide Parse;
    forall i | 0 <= i < |scans|
      ensures a[i] == b[i]
    {
      assert Parse(scans[i]) == Ok(a[i]) && Parse(scans[i]) == Ok(b[i]);
    }
  }
}
