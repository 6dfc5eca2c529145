/** Codes and goods over whole runs: every door of apps/api/src/routes/pos.ts that receives, marks,
    sells, takes back or removes coded goods, one committed transaction after another. */
module MarkingRuns {
  import opened Lists
  import opened JsText
  import opened JsMap
  import opened Marking
  import opened MarkingService
  import opened MarkingPick
  import MarkingSale
  import MarkingEntry

  datatype Move = Move(productId: string, locationId: string, quantity: real)

  /** The table of codes, the movement ledger and where each selling document was made. */
  datatype World = World(codes: seq<CodeRow>, ledger: seq<Move>, places: map<string, string>)

  datatype Op =
    | Receive(locationId: string, delivery: seq<MarkingEntry.IncomingLine>, ids: seq<string>)
    | MarkShelf(locationId: string, productId: string, scans: seq<Text>, ids: seq<string>)
    | Sell(document: string, locationId: string, items: seq<Amount>, scanned: seq<MarkingSale.ScannedLine>)
    | Return(document: string, lines: seq<DocumentLine>)
    | Remove(document: string, locationId: string, lines: seq<DocumentLine>, to: CodeState)

  // ------------------------------------------------------------------ goods

  function At(productId: string, locationId: string): Move -> real {
    (m: Move) => if m.productId == productId && m.locationId == locationId then m.quantity else 0.0
  }

  function OnHand(w: World, productId: string, locationId: string): real {
    SumBy(w.ledger, At(productId, locationId))
  }

  function ToMove(locationId: string, leaving: bool): Amount -> Move {
    (a: Amount) => Move(a.productId, locationId, if leaving then -a.quantity else a.quantity)
  }

  const LineAmount: DocumentLine -> Amount := (l: DocumentLine) => Amount(l.productId, l.quantity)

  const ProductOf: Amount -> string := (a: Amount) => a.productId

  /** The world with these goods gone from, or come to, a location. */
  function WithMoves(w: World, amounts: seq<Amount>, locationId: string, leaving: bool): World {
    w.(ledger := w.ledger + MapSeq(amounts, ToMove(locationId, leaving)))
  }

  predicate Positive(amounts: seq<Amount>) {
    forall i :: 0 <= i < |amounts| ==> amounts[i].quantity > 0.0
  }

  /** The guard of every deduction: what leaves is there. */
  predicate Enough(w: World, amounts: seq<Amount>, locationId: string) {
    forall i :: 0 <= i < |amounts| ==>
      SumBy(amounts, Of(amounts[i].productId)) <= OnHand(w, amounts[i].productId, locationId)
  }

  // ------------------------------------------------------------------ codes

  function Lying(locationId: string): CodeRow -> bool {
    (r: CodeRow) => r.state == InStock && r.locationId == locationId
  }

  function SoldBy(document: string): CodeRow -> bool {
    (r: CodeRow) => r.state == Sold && r.saleDocumentId == Some(document)
  }

  ghost function LyingIds(codes: seq<CodeRow>, productId: string, locationId: string): set<string> {
    IdsOf(Filter(codes, Lying(locationId)), productId)
  }

  ghost function Coded(w: World, productId: string, locationId: string): nat {
    |LyingIds(w.codes, productId, locationId)|
  }

  /** The codes of these ids in a new state. */
  function Moved(codes: seq<CodeRow>, ids: set<string>, to: CodeState, document: Option<string>): seq<CodeRow> {
    MapSeq(codes, MoveOne(ids, to, document))
  }

  function MoveOne(ids: set<string>, to: CodeState, document: Option<string>): CodeRow -> CodeRow {
    (r: CodeRow) => if r.id in ids then r.(state := to, saleDocumentId := document) else r
  }

  /** The unique indexes of the table. */
  ghost predicate UniqueRows(rows: seq<CodeRow>) {
    Distinct(rows, CodeId) && Distinct(rows, CodeOf)
  }

  function Entries(m: MarkingEntry.Codes): seq<(string, MarkedCode)> {
    if m == [] then [] else Tagged(m[0].0, m[0].1) + Entries(m[1..])
  }

  function Tagged(productId: string, codes: seq<MarkedCode>): seq<(string, MarkedCode)> {
    if codes == [] then [] else [(productId, codes[0])] + Tagged(productId, codes[1..])
  }

  function NewRows(entries: seq<(string, MarkedCode)>, ids: seq<string>, locationId: string): seq<CodeRow>
    requires |ids| == |entries|
  {
    if entries == [] then []
    else [CodeRow(ids[0], entries[0].0, locationId, entries[0].1, InStock, None)]
         + NewRows(entries[1..], ids[1..], locationId)
  }

  // ------------------------------------------------------------------- steps

  ghost function Step(marked: set<string>, w: World, op: Op): World {
    match op
    case Receive(l, lines, ids) => AfterReceive(marked, w, l, lines, ids)
    case MarkShelf(l, p, scans, ids) => AfterMarking(w, l, p, scans, ids)
    case Sell(d, l, items, scans) => AfterSale(marked, w, d, l, items, scans)
    case Return(d, lines) => AfterReturn(w, d, lines)
    case Remove(d, l, lines, to) => AfterRemoval(w, d, l, lines, to)
  }

  /** Goods and codes of a delivery are written together, or neither is. */
  ghost function AfterReceive(
    marked: set<string>, w: World, l: string, lines: seq<MarkingEntry.IncomingLine>, ids: seq<string>): World
  {
    var amounts := MarkingEntry.Amounts(lines);
    match MarkingEntry.ResolveIncoming(lines, Among(marked, amounts))
    case Err(_) => w
    case Ok(m) =>
      if !Positive(amounts) || |ids| != |Entries(m)| then w
      else
        var codes := w.codes + NewRows(Entries(m), ids, l);
        if UniqueRows(codes) then WithMoves(w.(codes := codes), amounts, l, false) else w
  }

  ghost function AfterMarking(w: World, l: string, p: string, scans: seq<Text>, ids: seq<string>): World {
    match MarkingEntry.ResolveStock(scans, OnHand(w, p, l), Coded(w, p, l) as real, Known(w.codes, scans))
    case Err(_) => w
    case Ok(read) =>
      if |ids| != |read| then w
      else
        TaggedSize(p, read);
        var codes := w.codes + NewRows(Tagged(p, read), ids, l);
        if UniqueRows(codes) then w.(codes := codes) else w
  }

  ghost function AfterSale(
    marked: set<string>, w: World, d: string, l: string, items: seq<Amount>, scans: seq<MarkingSale.ScannedLine>): World
  {
    match MarkingSale.ResolveSale(w.codes, Among(marked, items), l, items, scans)
    case Err(_) => w
    case Ok(rows) =>
      if !Positive(items) || !Enough(w, items, l) || d in w.places then w
      else
        WithMoves(w.(codes := Moved(w.codes, AllIds(rows), Sold, Some(d)), places := w.places[d := l]), items, l, true)
  }

  /** Goods come back to the place they were sold at, and their codes with them. */
  ghost function AfterReturn(w: World, d: string, lines: seq<DocumentLine>): World {
    var amounts := MapSeq(lines, LineAmount);
    match PlanGroups(Groups(lines), Filter(w.codes, SoldBy(d)))
    case Err(_) => w
    case Ok(ids) =>
      if !Positive(amounts) || d !in w.places then w
      else WithMoves(w.(codes := Moved(w.codes, SetOf(ids), InStock, None)), amounts, w.places[d], false)
  }

  /** A write-off, a return to the supplier, a transfer out or an order handed over. */
  ghost function AfterRemoval(w: World, d: string, l: string, lines: seq<DocumentLine>, to: CodeState): World {
    var amounts := MapSeq(lines, LineAmount);
    match Plan(Filter(w.codes, LyingFor(l, lines)), lines)
    case Err(_) => w
    case Ok(ids) =>
      if !Positive(amounts) || !Enough(w, amounts, l) || d in w.places || to == InStock then w
      else
        var moved := Moved(w.codes, SetOf(ids), to, if to == Sold then Some(d) else None);
        WithMoves(w.(codes := moved, places := w.places[d := l]), amounts, l, true)
  }

  /** The products of a document that are sold only by code. */
  function Among(marked: set<string>, amounts: seq<Amount>): seq<string> {
    Filter(MapSeq(amounts, ProductOf), p => p in marked)
  }

  function LyingFor(locationId: string, lines: seq<DocumentLine>): CodeRow -> bool {
    (r: CodeRow) => r.state == InStock && r.locationId == locationId && Mentions(lines, r.productId)
  }

  /** The serials of these scans that are on record, wherever and in whatever state. */
  function Known(codes: seq<CodeRow>, scans: seq<Text>): seq<Text> {
    if codes == [] then []
    else (if exists i :: 0 <= i < |scans| && Parse(scans[i]) == Ok(codes[0].code) then [codes[0].code.serial] else [])
         + Known(codes[1..], scans)
  }

  /** A serial is known exactly when a code on record is among the scans, and nothing is known exactly
      when none is. */
  lemma {:induction false} KnownIff(codes: seq<CodeRow>, scans: seq<Text>)
    ensures Known(codes, scans) == [] <==>
      forall r, s :: r in codes && s in scans ==> Parse(s) != Ok(r.code)
    ensures forall serial :: serial in Known(codes, scans) <==>
      exists r, s :: r in codes && s in scans && Parse(s) == Ok(r.code) && serial == r.code.serial
  {
    hide Parse;
    if codes != [] {
      KnownIff(codes[1..], scans);
      assert codes == [codes[0]] + codes[1..];
    }
  }

  lemma {:induction false} TaggedSize(productId: string, codes: seq<MarkedCode>)
    ensures |Tagged(productId, codes)| == |codes|
  {
    if codes != [] {
      TaggedSize(productId, codes[1..]);
    }
  }

  // --------------------------------------------------------------- invariant

  /** A sold code knows its document, and the document was made where the code lay. */
  ghost predicate SoldWhere(w: World) {
    forall r :: r in w.codes && r.state == Sold ==>
      r.saleDocumentId.Some? && r.saleDocumentId.value in w.places && w.places[r.saleDocumentId.value] == r.locationId
  }

  ghost predicate Covered(w: World, productId: string, locationId: string) {
    Coded(w, productId, locationId) as real <= OnHand(w, productId, locationId)
  }

  ghost predicate Inv(marked: set<string>, w: World) {
    && CodeTable(w.codes) && SoldWhere(w)
    && forall p, l :: p in marked ==> Covered(w, p, l)
  }

  // ------------------------------------------------------------ goods that move

  lemma {:induction false} MovesAt(amounts: seq<Amount>, l: string, leaving: bool, p: string, l2: string)
    ensures SumBy(MapSeq(amounts, ToMove(l, leaving)), At(p, l2)) ==
      if l2 != l then 0.0 else if leaving then -SumBy(amounts, Of(p)) else SumBy(amounts, Of(p))
  {
    if amounts != [] {
      MovesAt(amounts[1..], l, leaving, p, l2);
      assert MapSeq(amounts, ToMove(l, leaving))[1..] == MapSeq(amounts[1..], ToMove(l, leaving));
    }
  }

  lemma GoodsAfter(w: World, amounts: seq<Amount>, l: string, leaving: bool, p: string, l2: string)
    ensures OnHand(WithMoves(w, amounts, l, leaving), p, l2) == OnHand(w, p, l2) +
      if l2 != l then 0.0 else if leaving then -SumBy(amounts, Of(p)) else SumBy(amounts, Of(p))
  {
    SumByConcat(w.ledger, MapSeq(amounts, ToMove(l, leaving)), At(p, l2));
    MovesAt(amounts, l, leaving, p, l2);
  }

  lemma PositiveSum(amounts: seq<Amount>, p: string)
    requires Positive(amounts)
    ensures SumBy(amounts, Of(p)) >= 0.0
  {
    SumByNonNegative(amounts, Of(p));
  }

  lemma {:induction false} Unmentioned(amounts: seq<Amount>, p: string)
    requires forall a :: a in amounts ==> a.productId != p
    ensures SumBy(amounts, Of(p)) == 0.0
  {
    if amounts != [] {
      Unmentioned(amounts[1..], p);
    }
  }

  lemma DocumentSum(lines: seq<DocumentLine>, p: string)
    ensures SumBy(MapSeq(lines, LineAmount), Of(p)) == SumBy(lines, Moves(p))
  {
    SumByMap(lines, LineAmount, Of(p), Moves(p));
  }

  // ------------------------------------------------------------ codes that move

  lemma InMapped(codes: seq<CodeRow>, f: CodeRow -> CodeRow, r: CodeRow)
    ensures r in MapSeq(codes, f) <==> exists was :: was in codes && f(was) == r
  {
    MapSeqAt(codes, f);
    if r in MapSeq(codes, f) {
      var i :| 0 <= i < |codes| && MapSeq(codes, f)[i] == r;
      assert codes[i] in codes;
    }
    if exists was :: was in codes && f(was) == r {
      var was :| was in codes && f(was) == r;
      var i :| 0 <= i < |codes| && codes[i] == was;
      assert MapSeq(codes, f)[i] == r;
    }
  }

  lemma InLying(codes: seq<CodeRow>, p: string, l: string, id: string)
    ensures id in LyingIds(codes, p, l) <==>
      exists r :: r in codes && r.id == id && r.productId == p && r.state == InStock && r.locationId == l
  {
    if exists r :: r in codes && r.id == id && r.productId == p && r.state == InStock && r.locationId == l {
      var r :| r in codes && r.id == id && r.productId == p && r.state == InStock && r.locationId == l;
      assert Lying(l)(r);
      assert r in Filter(codes, Lying(l));
    }
    if id in LyingIds(codes, p, l) {
      var r :| r in Filter(codes, Lying(l)) && r.productId == p && r.id == id;
      assert Lying(l)(r);
    }
  }

  lemma MovedIsTable(codes: seq<CodeRow>, ids: set<string>, to: CodeState, document: Option<string>)
    requires CodeTable(codes)
    ensures CodeTable(Moved(codes, ids, to, document))
  {
    var f := MoveOne(ids, to, document);
    DistinctMap(codes, f, CodeId);
    DistinctMap(codes, f, CodeOf);
    forall r | r in Moved(codes, ids, to, document)
      ensures |r.code.gtin| == 14
    {
      InMapped(codes, f, r);
    }
  }

  /** Codes that leave the shelf are gone from it and no other is. */
  lemma LyingAfterLeaving(codes: seq<CodeRow>, ids: set<string>, to: CodeState, document: Option<string>, p: string,
      l: string)
    requires to != InStock
    ensures LyingIds(Moved(codes, ids, to, document), p, l) == LyingIds(codes, p, l) - ids
  {
    var f := MoveOne(ids, to, document);
    var moved := Moved(codes, ids, to, document);
    forall id
      ensures id in LyingIds(moved, p, l) <==> id in LyingIds(codes, p, l) - ids
    {
      InLying(codes, p, l, id);
      InLying(moved, p, l, id);
      if id in LyingIds(moved, p, l) {
        var r :| r in moved && r.id == id && r.productId == p && r.state == InStock && r.locationId == l;
        InMapped(codes, f, r);
      }
      if id in LyingIds(codes, p, l) - ids {
        var r :| r in codes && r.id == id && r.productId == p && r.state == InStock && r.locationId == l;
        InMapped(codes, f, f(r));
        assert f(r) == r;
      }
    }
  }

  /** Codes that come back to the shelf are those that were named. */
  lemma LyingAfterReturn(codes: seq<CodeRow>, ids: set<string>, own: set<string>, p: string, l: string)
    requires forall r :: r in codes && r.id in ids && r.productId == p && r.locationId == l ==> r.id in own
    ensures LyingIds(Moved(codes, ids, InStock, None), p, l) <= LyingIds(codes, p, l) + ids * own
  {
    var f := MoveOne(ids, InStock, None);
    var moved := Moved(codes, ids, InStock, None);
    forall id | id in LyingIds(moved, p, l)
      ensures id in LyingIds(codes, p, l) + ids * own
    {
      InLying(codes, p, l, id);
      InLying(moved, p, l, id);
      var r :| r in moved && r.id == id && r.productId == p && r.state == InStock && r.locationId == l;
      InMapped(codes, f, r);
      var was :| was in codes && f(was) == r;
    }
  }

  lemma SizeOfUnion(a: set<string>, b: set<string>, c: set<string>)
    requires a <= b + c
    ensures |a| <= |b| + |c|
  {
    SizeOfSubset(a, b + c);
    assert |b + c| == |b| + |c - b| by { assert b + c == b + (c - b); }
    SizeOfSubset(c - b, c);
  }

  lemma {:induction false} SizeOfSubset(a: set<string>, b: set<string>)
    requires a <= b
    ensures |a| <= |b|
    decreases |a|
  {
    if a != {} {
      var x :| x in a;
      SizeOfSubset(a - {x}, b - {x});
    }
  }

  lemma SizeOfRest(a: set<string>, b: set<string>)
    ensures |a - b| == |a| - |b * a|
  {
    assert a == (a - b) + (b * a);
    assert |(a - b) + (b * a)| == |a - b| + |b * a|;
  }

  // ------------------------------------------------------------------ removals

  lemma Subtable(codes: seq<CodeRow>, p: CodeRow -> bool)
    requires CodeTable(codes)
    ensures CodeTable(Filter(codes, p))
  {
    DistinctFilter(codes, CodeId, p);
    DistinctFilter(codes, CodeOf, p);
  }

  lemma MentionedIds(codes: seq<CodeRow>, lines: seq<DocumentLine>, p: string, l: string)
    requires Mentions(lines, p)
    ensures IdsOf(Filter(codes, LyingFor(l, lines)), p) == LyingIds(codes, p, l)
  {
    assert forall r :: r in codes && r.productId == p ==> (Lying(l)(r) <==> LyingFor(l, lines)(r));
    assert forall r: CodeRow ::
      r.productId == p ==> (r in Filter(codes, LyingFor(l, lines)) <==> r in Filter(codes, Lying(l)));
  }

  lemma NotMentioned(lines: seq<DocumentLine>, p: string)
    requires !Mentions(lines, p)
    ensures SumBy(MapSeq(lines, LineAmount), Of(p)) == 0.0
  {
    var amounts := MapSeq(lines, LineAmount);
    MapSeqAt(lines, LineAmount);
    forall a | a in amounts
      ensures a.productId != p
    {
      var i :| 0 <= i < |amounts| && amounts[i] == a;
      assert a == LineAmount(lines[i]);
    }
    Unmentioned(amounts, p);
  }

  lemma EnoughFor(w: World, lines: seq<DocumentLine>, l: string, p: string)
    requires Enough(w, MapSeq(lines, LineAmount), l) && Mentions(lines, p)
    ensures SumBy(MapSeq(lines, LineAmount), Of(p)) <= OnHand(w, p, l)
  {
    MapSeqAt(lines, LineAmount);
    var i :| 0 <= i < |lines| && lines[i].productId == p;
    assert MapSeq(lines, LineAmount)[i].productId == p;
  }

  lemma RemovalCovers(marked: set<string>, w: World, d: string, l: string, lines: seq<DocumentLine>, to: CodeState,
      p: string, l2: string)
    requires Inv(marked, w) && p in marked
    ensures Covered(AfterRemoval(w, d, l, lines, to), p, l2)
  {
    hide CodeTable, SoldWhere, OnHand, LyingIds, Moved, WithMoves, PlanGroups, Groups, Plan;
    var next := AfterRemoval(w, d, l, lines, to);
    assert Covered(w, p, l2);
    if next != w {
      var outstanding := Filter(w.codes, LyingFor(l, lines));
      var amounts, ids := MapSeq(lines, LineAmount), SetOf(Plan(outstanding, lines).value);
      var document := if to == Sold then Some(d) else None;
      var moved := w.(codes := Moved(w.codes, ids, to, document), places := w.places[d := l]);
      Subtable(w.codes, LyingFor(l, lines));
      DocumentTakesWhatItMoves(outstanding, lines, p);
      DocumentSum(lines, p);
      GoodsAfter(moved, amounts, l, true, p, l2);
      SameGoods(w, moved, p, l2);
      LyingAfterLeaving(w.codes, ids, to, document, p, l2);
      SizeOfRest(LyingIds(w.codes, p, l2), ids);
      SameCodes(moved, amounts, l, true);
      if l2 == l {
        if Mentions(lines, p) {
          MentionedIds(w.codes, lines, p, l);
          EnoughFor(w, lines, l, p);
        } else {
          NotMentioned(lines, p);
        }
      }
    }
  }

  lemma SameGoods(w: World, v: World, p: string, l: string)
    requires w.ledger == v.ledger
    ensures OnHand(w, p, l) == OnHand(v, p, l)
  {
  }

  lemma SameCodes(w: World, amounts: seq<Amount>, l: string, leaving: bool)
    ensures WithMoves(w, amounts, l, leaving).codes == w.codes && WithMoves(w, amounts, l, leaving).places == w.places
  {
  }

  lemma RemovalKeepsInv(marked: set<string>, w: World, d: string, l: string, lines: seq<DocumentLine>, to: CodeState)
    requires Inv(marked, w)
    ensures Inv(marked, AfterRemoval(w, d, l, lines, to))
  {
    hide Covered, CodeTable, Moved;
    var next := AfterRemoval(w, d, l, lines, to);
    if next != w {
      var outstanding := Filter(w.codes, LyingFor(l, lines));
      var plan := Plan(outstanding, lines).value;
      var document := if to == Sold then Some(d) else None;
      MovedIsTable(w.codes, SetOf(plan), to, document);
      Subtable(w.codes, LyingFor(l, lines));
      PlanIds(outstanding, lines);
      SoldWhereAfter(w, SetOf(plan), to, d, l, outstanding);
      assert next.codes == Moved(w.codes, SetOf(plan), to, document);
    }
    forall p, l2 | p in marked
      ensures Covered(next, p, l2)
    {
      RemovalCovers(marked, w, d, l, lines, to, p, l2);
    }
  }

  lemma PlanIds(outstanding: seq<CodeRow>, lines: seq<DocumentLine>)
    requires CodeTable(outstanding) && Plan(outstanding, lines).Ok?
    ensures SetOf(Plan(outstanding, lines).value) <= AllIds(outstanding)
  {
    hide CodeTable;
    if outstanding != [] {
      PlanIsOfOutstanding(Groups(lines), outstanding);
    }
  }

  /** Rows named by ids of other rows of the table are those rows. */
  lemma NamedRow(codes: seq<CodeRow>, rows: seq<CodeRow>, r: CodeRow)
    requires CodeTable(codes) && r in codes && r.id in AllIds(rows) && forall x :: x in rows ==> x in codes
    ensures r in rows
  {
    var x :| x in rows && x.id == r.id;
    SameKeySameElement(codes, CodeId, r, x);
  }

  /** Codes that leave with a document made at `l` all lay at `l`. */
  lemma SoldWhereAfter(w: World, ids: set<string>, to: CodeState, d: string, l: string, rows: seq<CodeRow>)
    requires CodeTable(w.codes) && SoldWhere(w) && d !in w.places
    requires ids <= AllIds(rows) && forall x :: x in rows ==> x in w.codes && x.locationId == l
    ensures SoldWhere(w.(codes := Moved(w.codes, ids, to, if to == Sold then Some(d) else None),
                         places := w.places[d := l]))
  {
    hide CodeTable;
    var document := if to == Sold then Some(d) else None;
    var moved := Moved(w.codes, ids, to, document);
    forall r | r in moved && r.state == Sold
      ensures r.saleDocumentId.Some? && r.saleDocumentId.value in w.places[d := l]
      ensures w.places[d := l][r.saleDocumentId.value] == r.locationId
    {
      InMapped(w.codes, MoveOne(ids, to, document), r);
      var was :| was in w.codes && MoveOne(ids, to, document)(was) == r;
      if was.id in ids {
        NamedRow(w.codes, rows, was);
      }
    }
  }

  // ------------------------------------------------------------------- sales

  lemma SameIdSameRow(table: seq<CodeRow>, a: CodeRow, b: CodeRow)
    requires CodeTable(table) && a in table && b in table
    ensures a.id == b.id ==> a == b
  {
    if a.id == b.id {
      SameKeySameElement(table, CodeId, a, b);
    }
  }

  lemma {:induction false} CountIds(rows: seq<CodeRow>, table: seq<CodeRow>, p: string)
    requires CodeTable(table) && forall i :: 0 <= i < |rows| ==> rows[i] in table
    requires forall i, j :: 0 <= i < j < |rows| ==> rows[i] != rows[j]
    ensures |IdsOf(rows, p)| == MarkingSale.CountFor(rows, p)
  {
    hide CodeTable;
    if rows != [] {
      var front, last := rows[..|rows| - 1], rows[|rows| - 1];
      CountIds(front, table, p);
      if last.productId == p {
        forall x | x in front
          ensures x.id != last.id
        {
          var i :| 0 <= i < |front| && front[i] == x;
          assert rows[i] == x && rows[|rows| - 1] == last;
          SameIdSameRow(table, x, last);
        }
        assert IdsOf(rows, p) == IdsOf(front, p) + {last.id};
      } else {
        assert IdsOf(rows, p) == IdsOf(front, p);
      }
    }
  }

  lemma AmongHas(marked: set<string>, amounts: seq<Amount>, p: string)
    requires p in marked && p !in Among(marked, amounts)
    ensures SumBy(amounts, Of(p)) == 0.0
  {
    MapSeqAt(amounts, ProductOf);
    forall a | a in amounts
      ensures a.productId != p
    {
      var i :| 0 <= i < |amounts| && amounts[i] == a;
      assert MapSeq(amounts, ProductOf)[i] == a.productId;
      assert a.productId in MapSeq(amounts, ProductOf);
    }
    Unmentioned(amounts, p);
  }

  lemma SoldIds(codes: seq<CodeRow>, rows: seq<CodeRow>, p: string, l: string)
    requires MarkingSale.Sellable(rows, codes, l)
    ensures IdsOf(rows, p) <= LyingIds(codes, p, l) * AllIds(rows)
  {
    forall id | id in IdsOf(rows, p)
      ensures id in LyingIds(codes, p, l)
    {
      var r :| r in rows && r.productId == p && r.id == id;
      var i :| 0 <= i < |rows| && rows[i] == r;
      InLying(codes, p, l, id);
    }
  }

  lemma SaleCovers(
    marked: set<string>, w: World, d: string, l: string, items: seq<Amount>, scans: seq<MarkingSale.ScannedLine>,
    p: string, l2: string)
    requires Inv(marked, w) && p in marked
    ensures Covered(AfterSale(marked, w, d, l, items, scans), p, l2)
  {
    hide CodeTable, SoldWhere, OnHand, LyingIds, Moved, WithMoves, MarkingSale.ResolveSale, Among;
    var next := AfterSale(marked, w, d, l, items, scans);
    assert Covered(w, p, l2);
    if next != w {
      var rows := MarkingSale.ResolveSale(w.codes, Among(marked, items), l, items, scans).value;
      var ids := AllIds(rows);
      var moved := w.(codes := Moved(w.codes, ids, Sold, Some(d)), places := w.places[d := l]);
      MarkingSale.SaleMeans(w.codes, Among(marked, items), l, items, scans);
      GoodsAfter(moved, items, l, true, p, l2);
      SameGoods(w, moved, p, l2);
      SameCodes(moved, items, l, true);
      LyingAfterLeaving(w.codes, ids, Sold, Some(d), p, l2);
      SizeOfRest(LyingIds(w.codes, p, l2), ids);
      if l2 == l {
        SoldIds(w.codes, rows, p, l);
        CountIds(rows, w.codes, p);
        SizeOfSubset(IdsOf(rows, p), ids * LyingIds(w.codes, p, l)) by {
          assert LyingIds(w.codes, p, l) * ids == ids * LyingIds(w.codes, p, l);
        }
        if p !in Among(marked, items) {
          AmongHas(marked, items, p);
        }
      }
    }
  }

  lemma SaleKeepsInv(
    marked: set<string>, w: World, d: string, l: string, items: seq<Amount>, scans: seq<MarkingSale.ScannedLine>)
    requires Inv(marked, w)
    ensures Inv(marked, AfterSale(marked, w, d, l, items, scans))
  {
    hide Covered, CodeTable, Moved, MarkingSale.ResolveSale, Among;
    var next := AfterSale(marked, w, d, l, items, scans);
    if next != w {
      var rows := MarkingSale.ResolveSale(w.codes, Among(marked, items), l, items, scans).value;
      MarkingSale.SaleMeans(w.codes, Among(marked, items), l, items, scans);
      MovedIsTable(w.codes, AllIds(rows), Sold, Some(d));
      forall x | x in rows
        ensures x in w.codes && x.locationId == l
      {
        var i :| 0 <= i < |rows| && rows[i] == x;
      }
      SoldWhereAfter(w, AllIds(rows), Sold, d, l, rows);
      assert next.codes == Moved(w.codes, AllIds(rows), Sold, Some(d));
    }
    forall p, l2 | p in marked
      ensures Covered(next, p, l2)
    {
      SaleCovers(marked, w, d, l, items, scans, p, l2);
    }
  }

  // ------------------------------------------------------------------ returns

  lemma ReturnedIds(codes: seq<CodeRow>, d: string, p: string, ids: set<string>)
    requires CodeTable(codes) && ids <= AllIds(Filter(codes, SoldBy(d)))
    ensures forall r :: r in codes && r.id in ids && r.productId == p ==> r.id in IdsOf(Filter(codes, SoldBy(d)), p)
  {
    forall r | r in codes && r.id in ids && r.productId == p
      ensures r.id in IdsOf(Filter(codes, SoldBy(d)), p)
    {
      NamedRow(codes, Filter(codes, SoldBy(d)), r);
    }
  }

  /** What a return brings back of one product is no more than the goods that come back. */
  lemma ReturnPlan(codes: seq<CodeRow>, d: string, lines: seq<DocumentLine>, p: string)
    requires CodeTable(codes) && Positive(MapSeq(lines, LineAmount))
    requires PlanGroups(Groups(lines), Filter(codes, SoldBy(d))).Ok?
    ensures
      var ids := SetOf(PlanGroups(Groups(lines), Filter(codes, SoldBy(d))).value);
      && ids <= AllIds(Filter(codes, SoldBy(d)))
      && |ids * IdsOf(Filter(codes, SoldBy(d)), p)| as real <= SumBy(MapSeq(lines, LineAmount), Of(p))
  {
    hide CodeTable, PlanGroups, IdsOf;
    var outstanding := Filter(codes, SoldBy(d));
    Subtable(codes, SoldBy(d));
    GroupsKeyed(lines);
    GroupsQuantity(lines, p);
    DocumentSum(lines, p);
    PositiveSum(MapSeq(lines, LineAmount), p);
    PlanGroupsMeans(Groups(lines), outstanding, p);
    PlanIsOfOutstanding(Groups(lines), outstanding);
    var ids := SetOf(PlanGroups(Groups(lines), outstanding).value);
    if IdsOf(outstanding, p) == {} {
      assert ids * IdsOf(outstanding, p) == {};
    }
  }

  lemma ReturnCovers(marked: set<string>, w: World, d: string, lines: seq<DocumentLine>, p: string, l2: string)
    requires Inv(marked, w) && p in marked
    ensures Covered(AfterReturn(w, d, lines), p, l2)
  {
    hide CodeTable, OnHand, LyingIds, Moved, WithMoves, PlanGroups, Groups, Positive;
    var next := AfterReturn(w, d, lines);
    assert Covered(w, p, l2);
    if next != w {
      var outstanding, amounts, l := Filter(w.codes, SoldBy(d)), MapSeq(lines, LineAmount), w.places[d];
      var ids := SetOf(PlanGroups(Groups(lines), outstanding).value);
      var own := if l2 == l then IdsOf(outstanding, p) else {};
      var moved := w.(codes := Moved(w.codes, ids, InStock, None));
      ReturnPlan(w.codes, d, lines, p);
      ReturnedIds(w.codes, d, p, ids);
      GoodsAfter(moved, amounts, l, false, p, l2);
      SameGoods(w, moved, p, l2);
      SameCodes(moved, amounts, l, false);
      PlacesOf(w, d, ids, p, l2, own);
      LyingAfterReturn(w.codes, ids, own, p, l2);
      SizeOfUnion(LyingIds(moved.codes, p, l2), LyingIds(w.codes, p, l2), ids * own);
    }
  }

  /** The codes a document sold lie where it was made. */
  lemma PlacesOf(w: World, d: string, ids: set<string>, p: string, l2: string, own: set<string>)
    requires CodeTable(w.codes) && SoldWhere(w) && d in w.places && ids <= AllIds(Filter(w.codes, SoldBy(d)))
    requires own == if l2 == w.places[d] then IdsOf(Filter(w.codes, SoldBy(d)), p) else {}
    ensures forall r :: r in w.codes && r.id in ids && r.productId == p && r.locationId == l2 ==> r.id in own
  {
    hide CodeTable;
    forall r | r in w.codes && r.id in ids && r.productId == p && r.locationId == l2
      ensures r.id in own
    {
      NamedRow(w.codes, Filter(w.codes, SoldBy(d)), r);
      assert SoldBy(d)(r);
    }
  }

  lemma ReturnKeepsInv(marked: set<string>, w: World, d: string, lines: seq<DocumentLine>)
    requires Inv(marked, w)
    ensures Inv(marked, AfterReturn(w, d, lines))
  {
    hide Covered, CodeTable, Moved;
    var next := AfterReturn(w, d, lines);
    if next != w {
      var ids := SetOf(PlanGroups(Groups(lines), Filter(w.codes, SoldBy(d))).value);
      MovedIsTable(w.codes, ids, InStock, None);
      SoldWhereBack(w, ids);
      assert next.codes == Moved(w.codes, ids, InStock, None);
    }
    forall p, l2 | p in marked
      ensures Covered(next, p, l2)
    {
      ReturnCovers(marked, w, d, lines, p, l2);
    }
  }

  lemma SoldWhereBack(w: World, ids: set<string>)
    requires SoldWhere(w)
    ensures SoldWhere(w.(codes := Moved(w.codes, ids, InStock, None)))
  {
    var f := MoveOne(ids, InStock, None);
    forall r | r in Moved(w.codes, ids, InStock, None) && r.state == Sold
      ensures r in w.codes
    {
      InMapped(w.codes, f, r);
      var was :| was in w.codes && f(was) == r;
    }
  }

  // ----------------------------------------------------------------- new codes

  function CountTagged(entries: seq<(string, MarkedCode)>, p: string): nat {
    if entries == [] then 0 else (if entries[0].0 == p then 1 else 0) + CountTagged(entries[1..], p)
  }

  lemma {:induction false} CountTaggedConcat(a: seq<(string, MarkedCode)>, b: seq<(string, MarkedCode)>, p: string)
    ensures CountTagged(a + b, p) == CountTagged(a, p) + CountTagged(b, p)
  {
    if a == [] {
      assert a + b == b;
    } else {
      assert (a + b)[1..] == a[1..] + b;
      CountTaggedConcat(a[1..], b, p);
    }
  }

  lemma {:induction false} CountOneProduct(q: string, codes: seq<MarkedCode>, p: string)
    ensures CountTagged(Tagged(q, codes), p) == if q == p then |codes| else 0
  {
    if codes != [] {
      CountOneProduct(q, codes[1..], p);
      assert Tagged(q, codes)[1..] == Tagged(q, codes[1..]);
    }
  }

  lemma {:induction false} CountEntries(m: MarkingEntry.Codes, p: string)
    requires Keyed(m)
    ensures CountTagged(Entries(m), p) == |GetOr(m, p, [])|
  {
    if m != [] {
      CountEntries(m[1..], p);
      CountOneProduct(m[0].0, m[0].1, p);
      CountTaggedConcat(Tagged(m[0].0, m[0].1), Entries(m[1..]), p);
      if m[0].0 == p {
        GetAbsent(m[1..], p);
      }
    }
  }

  lemma {:induction false} NewRowsFacts(entries: seq<(string, MarkedCode)>, ids: seq<string>, l: string, p: string)
    requires |ids| == |entries|
    ensures |IdsOf(NewRows(entries, ids, l), p)| <= CountTagged(entries, p)
    ensures forall r :: r in NewRows(entries, ids, l) ==>
      r.state == InStock && r.locationId == l && (r.productId, r.code) in entries
  {
    if entries != [] {
      NewRowsFacts(entries[1..], ids[1..], l, p);
      var rows, rest := NewRows(entries, ids, l), NewRows(entries[1..], ids[1..], l);
      assert rows == [rows[0]] + rest;
      assert IdsOf(rows, p) == (if entries[0].0 == p then {ids[0]} else {}) + IdsOf(rest, p);
    }
  }

  /** New rows at a location add their own ids to the codes lying there. */
  lemma LyingWithNew(codes: seq<CodeRow>, rows: seq<CodeRow>, l: string, p: string, l2: string)
    requires forall r :: r in rows ==> r.state == InStock && r.locationId == l
    ensures LyingIds(codes + rows, p, l2) <= LyingIds(codes, p, l2) + if l2 == l then IdsOf(rows, p) else {}
  {
    forall id | id in LyingIds(codes + rows, p, l2)
      ensures id in LyingIds(codes, p, l2) + if l2 == l then IdsOf(rows, p) else {}
    {
      InLying(codes + rows, p, l2, id);
      InLying(codes, p, l2, id);
      var r :| r in codes + rows && r.id == id && r.productId == p && r.state == InStock && r.locationId == l2;
    }
  }

  lemma NewCodesCount(codes: seq<CodeRow>, entries: seq<(string, MarkedCode)>, ids: seq<string>, l: string, p: string,
      l2: string)
    requires |ids| == |entries|
    ensures |LyingIds(codes + NewRows(entries, ids, l), p, l2)| <=
      |LyingIds(codes, p, l2)| + if l2 == l then CountTagged(entries, p) else 0
  {
    hide LyingIds;
    var rows := NewRows(entries, ids, l);
    NewRowsFacts(entries, ids, l, p);
    LyingWithNew(codes, rows, l, p, l2);
    SizeOfUnion(LyingIds(codes + rows, p, l2), LyingIds(codes, p, l2), if l2 == l then IdsOf(rows, p) else {});
  }

  lemma TableWithNew(codes: seq<CodeRow>, entries: seq<(string, MarkedCode)>, ids: seq<string>, l: string)
    requires |ids| == |entries| && CodeTable(codes) && UniqueRows(codes + NewRows(entries, ids, l))
    requires forall e :: e in entries ==> |e.1.gtin| == 14
    ensures CodeTable(codes + NewRows(entries, ids, l))
  {
    NewRowsFacts(entries, ids, l, "");
  }

  lemma SoldWhereWithNew(w: World, entries: seq<(string, MarkedCode)>, ids: seq<string>, l: string)
    requires |ids| == |entries| && SoldWhere(w)
    ensures SoldWhere(w.(codes := w.codes + NewRows(entries, ids, l)))
  {
    NewRowsFacts(entries, ids, l, "");
  }

  lemma {:induction false} InTagged(p: string, codes: seq<MarkedCode>, e: (string, MarkedCode))
    requires e in Tagged(p, codes)
    ensures e.0 == p && e.1 in codes
  {
    if e != (p, codes[0]) {
      InTagged(p, codes[1..], e);
    }
  }

  lemma {:induction false} InEntries(m: MarkingEntry.Codes, e: (string, MarkedCode))
    requires e in Entries(m)
    ensures exists x :: x in m && e.1 in x.1
  {
    if e in Tagged(m[0].0, m[0].1) {
      InTagged(m[0].0, m[0].1, e);
      assert m[0] in m;
    } else {
      InEntries(m[1..], e);
      var x :| x in m[1..] && e.1 in x.1;
      assert x in m;
    }
  }

  lemma {:induction false} PositiveLines(lines: seq<MarkingEntry.IncomingLine>)
    requires Positive(MarkingEntry.Amounts(lines))
    ensures forall x :: x in lines ==> x.quantity >= 0.0
  {
    if lines != [] {
      var front, last := lines[..|lines| - 1], lines[|lines| - 1];
      var amounts := MarkingEntry.Amounts(lines);
      assert amounts == MarkingEntry.Amounts(front) + [MarkingEntry.AmountOf(last)];
      assert amounts[|amounts| - 1].quantity > 0.0;
      forall i | 0 <= i < |MarkingEntry.Amounts(front)|
        ensures MarkingEntry.Amounts(front)[i].quantity > 0.0
      {
        assert amounts[i] == MarkingEntry.Amounts(front)[i];
      }
      PositiveLines(front);
    }
  }

  lemma ReceiveKeepsInv(marked: set<string>, w: World, l: string, lines: seq<MarkingEntry.IncomingLine>,
      ids: seq<string>)
    requires Inv(marked, w)
    ensures Inv(marked, AfterReceive(marked, w, l, lines, ids))
  {
    hide Covered, CodeTable, NewRows, Among, MarkingEntry.ResolveIncoming;
    var next := AfterReceive(marked, w, l, lines, ids);
    if next != w {
      var m := MarkingEntry.ResolveIncoming(lines, Among(marked, MarkingEntry.Amounts(lines))).value;
      var entries := Entries(m);
      DeliveredCodes(lines, Among(marked, MarkingEntry.Amounts(lines)));
      TableWithNew(w.codes, entries, ids, l);
      SoldWhereWithNew(w, entries, ids, l);
      assert next.codes == w.codes + NewRows(entries, ids, l);
    }
    forall p, l2 | p in marked
      ensures Covered(next, p, l2)
    {
      ReceiveCovers(marked, w, l, lines, ids, p, l2);
    }
  }

  lemma DeliveredCodes(lines: seq<MarkingEntry.IncomingLine>, marked: seq<string>)
    requires MarkingEntry.ResolveIncoming(lines, marked).Ok?
    ensures Keyed(MarkingEntry.ResolveIncoming(lines, marked).value)
    ensures forall e :: e in Entries(MarkingEntry.ResolveIncoming(lines, marked).value) ==> |e.1.gtin| == 14
  {
    hide MarkingEntry.Read;
    var m := MarkingEntry.ResolveIncoming(lines, marked).value;
    MarkingEntry.ReadKeyed(lines);
    forall e | e in Entries(m)
      ensures |e.1.gtin| == 14
    {
      InEntries(m, e);
    }
  }

  lemma ReceiveCovers(
    marked: set<string>, w: World, l: string, lines: seq<MarkingEntry.IncomingLine>, ids: seq<string>, p: string,
      l2: string)
    requires Inv(marked, w) && p in marked
    ensures Covered(AfterReceive(marked, w, l, lines, ids), p, l2)
  {
    hide CodeTable, SoldWhere, OnHand, LyingIds, NewRows, WithMoves, Among, MarkingEntry.ResolveIncoming, UniqueRows;
    var next := AfterReceive(marked, w, l, lines, ids);
    assert Covered(w, p, l2);
    if next != w {
      var amounts := MarkingEntry.Amounts(lines);
      var m := MarkingEntry.ResolveIncoming(lines, Among(marked, amounts)).value;
      var entries := Entries(m);
      var more := w.(codes := w.codes + NewRows(entries, ids, l));
      DeliveredCodes(lines, Among(marked, amounts));
      PositiveLines(lines);
      MarkingEntry.IncomingMeans(lines, Among(marked, amounts), p);
      CountEntries(m, p);
      NewCodesCount(w.codes, entries, ids, l, p, l2);
      GoodsAfter(more, amounts, l, false, p, l2);
      SameGoods(w, more, p, l2);
      SameCodes(more, amounts, l, false);
    }
  }

  lemma MarkingKeepsInv(marked: set<string>, w: World, l: string, q: string, scans: seq<Text>, ids: seq<string>)
    requires Inv(marked, w)
    ensures Inv(marked, AfterMarking(w, l, q, scans, ids))
  {
    hide CodeTable, OnHand, LyingIds, NewRows, Known, MarkingEntry.ResolveStock, Parse;
    var next := AfterMarking(w, l, q, scans, ids);
    if next != w {
      var read := MarkingEntry.ResolveStock(scans, OnHand(w, q, l), Coded(w, q, l) as real,
        Known(w.codes, scans)).value;
      MarkingEntry.StockCodesIff(scans, OnHand(w, q, l), Coded(w, q, l) as real, Known(w.codes, scans), read);
      TaggedSize(q, read);
      var entries := Tagged(q, read);
      ParsedGtins(scans, q, read);
      TableWithNew(w.codes, entries, ids, l);
      SoldWhereWithNew(w, entries, ids, l);
      forall p, l2 | p in marked
        ensures Covered(next, p, l2)
      {
        assert Covered(w, p, l2);
        NewCodesCount(w.codes, entries, ids, l, p, l2);
        CountOneProduct(q, read, p);
        SameGoods(w, next, p, l2);
      }
    }
  }

  lemma ParsedGtins(scans: seq<Text>, q: string, read: seq<MarkedCode>)
    requires AllParse(scans, read)
    ensures forall e :: e in Tagged(q, read) ==> |e.1.gtin| == 14
  {
    hide Parse;
    forall e | e in Tagged(q, read)
      ensures |e.1.gtin| == 14
    {
      InTagged(q, read, e);
      var i :| 0 <= i < |read| && read[i] == e.1;
      ParsesIff(scans[i], read[i]);
    }
  }

  // --------------------------------------------------------------------- runs

  lemma StepKeepsInv(marked: set<string>, w: World, op: Op)
    requires Inv(marked, w)
    ensures Inv(marked, Step(marked, w, op))
  {
    match op
    case Receive(l, lines, ids) => ReceiveKeepsInv(marked, w, l, lines, ids);
    case MarkShelf(l, p, scans, ids) => MarkingKeepsInv(marked, w, l, p, scans, ids);
    case Sell(d, l, items, scans) => SaleKeepsInv(marked, w, d, l, items, scans);
    case Return(d, lines) => ReturnKeepsInv(marked, w, d, lines);
    case Remove(d, l, lines, to) => RemovalKeepsInv(marked, w, d, l, lines, to);
  }

  ghost function Run(marked: set<string>, w: World, ops: seq<Op>): World {
    if ops == [] then w else Step(marked, Run(marked, w, ops[..|ops| - 1]), ops[|ops| - 1])
  }

  /** A run is its steps, one after another. */
  lemma {:induction false} RunIsItsSteps(marked: set<string>, w: World, op: Op, ops: seq<Op>)
    ensures Run(marked, w, []) == w && Run(marked, w, [op] + ops) == Run(marked, Step(marked, w, op), ops)
  {
    hide Step;
    if ops == [] {
      assert [op] + [] == [op] && [op][..0] == [];
    } else {
      var all := [op] + ops;
      assert all[..|all| - 1] == [op] + ops[..|ops| - 1];
      RunIsItsSteps(marked, w, op, ops[..|ops| - 1]);
    }
  }

  lemma {:induction false} RunKeepsInv(marked: set<string>, w: World, ops: seq<Op>)
    requires Inv(marked, w)
    ensures Inv(marked, Run(marked, w, ops))
  {
    hide Inv, Step;
    if ops != [] {
      RunKeepsInv(marked, w, ops[..|ops| - 1]);
      StepKeepsInv(marked, Run(marked, w, ops[..|ops| - 1]), ops[|ops| - 1]);
    }
  }

  const Nothing := World([], [], map[])

  lemma NothingIsSound(marked: set<string>)
    ensures Inv(marked, Nothing)
  {
    forall q, k | q in marked
      ensures Covered(Nothing, q, k)
    {
    }
  }

  /** Goods sold only by code: from an empty shop, after any operations in any order, at every
      location there are no more codes in stock than units on hand, and no pack has two rows. */
  lemma CodesNeverExceedGoods(marked: set<string>, ops: seq<Op>, p: string, l: string)
    requires p in marked
    ensures
      var w := Run(marked, Nothing, ops);
      Coded(w, p, l) as real <= OnHand(w, p, l) && UniqueRows(w.codes)
  {
    NothingIsSound(marked);
    RunKeepsInv(marked, Nothing, ops);
    assert Covered(Run(marked, Nothing, ops), p, l);
  }

  // ------------------------------------------------ goods sold without a code

  /** One coded unit of goods that may be sold without a code. */
  function OneUnit(code: MarkedCode, p: string): World {
    World([CodeRow("id", p, "l", code, InStock, None)], [Move(p, "l", 1.0)], map[])
  }

  lemma NotAmong(marked: set<string>, p: string)
    requires p !in marked
    ensures Among(marked, [Amount(p, 1.0)]) == []
  {
    var amounts := [Amount(p, 1.0)];
    MapSeqAt(amounts, ProductOf);
    Head(Among(marked, amounts));
  }

  lemma OneUnitReceived(marked: set<string>, raw: Text, code: MarkedCode, p: string)
    requires Parse(raw) == Ok(code) && p !in marked
    ensures AfterReceive(marked, Nothing, "l", [MarkingEntry.IncomingLine(p, 1.0, [raw])], ["id"]) == OneUnit(code, p)
  {
    hide Parse, MarkingEntry.ResolveIncoming, MarkingEntry.Amounts, Entries, NewRows, UniqueRows, Among, MapSeq;
    OneUnitResolved(raw, code, p);
    NotAmong(marked, p);
    OneUnitRows(code, p);
    var noRows: seq<CodeRow> := [];
    var noMoves: seq<Move> := [];
    assert noRows + OneUnit(code, p).codes == OneUnit(code, p).codes;
    assert noMoves + OneUnit(code, p).ledger == OneUnit(code, p).ledger;
  }

  lemma OneUnitResolved(raw: Text, code: MarkedCode, p: string)
    requires Parse(raw) == Ok(code)
    ensures
      var lines := [MarkingEntry.IncomingLine(p, 1.0, [raw])];
      && MarkingEntry.ResolveIncoming(lines, []) == Ok([(p, [code])])
      && MarkingEntry.Amounts(lines) == [Amount(p, 1.0)]
  {
    hide Parse, MarkedCodeKey, ReadLine;
    var lines := [MarkingEntry.IncomingLine(p, 1.0, [raw])];
    var none: seq<MarkedCode> := [];
    ReadLineIff([raw], 1.0, [code]);
    assert none + [code] == [code] && lines[..0] == [];
    assert MarkingEntry.Read(lines) == Ok([(p, [code])]);
  }

  lemma OneUnitRows(code: MarkedCode, p: string)
    ensures Entries([(p, [code])]) == [(p, code)]
    ensures NewRows([(p, code)], ["id"], "l") == OneUnit(code, p).codes
    ensures UniqueRows(OneUnit(code, p).codes)
    ensures MapSeq([Amount(p, 1.0)], ToMove("l", false)) == OneUnit(code, p).ledger
  {
    var m: MarkingEntry.Codes := [(p, [code])];
    var one, ids, entries, amounts := [code], ["id"], [(p, code)], [Amount(p, 1.0)];
    assert one[1..] == [] && Tagged(p, one) == [(p, code)];
    assert m[1..] == [] && Entries(m) == [(p, code)];
    assert ids[1..] == [] && entries[1..] == [] && amounts[1..] == [];
    OneRowIsUnique(OneUnit(code, p).codes[0]);
  }

  lemma OneRowIsUnique(r: CodeRow)
    ensures UniqueRows([r])
  {
    var none: seq<CodeRow> := [];
    assert [r][1..] == none && Distinct(none, CodeId) && Distinct(none, CodeOf);
  }

  /** A delivery of one coded unit and its sale at the shelf, without a scan. */
  function ReceivedAndSold(raw: Text, p: string): seq<Op> {
    [Receive("l", [MarkingEntry.IncomingLine(p, 1.0, [raw])], ["id"]), Sell("d", "l", [Amount(p, 1.0)], [])]
  }

  /** A coded unit of goods that are not sold only by code is sold without a scan, and its code
      stays on a shelf that is empty. */
  lemma OtherGoodsOutliveTheirStock(marked: set<string>, raw: Text, code: MarkedCode, p: string)
    requires Parse(raw) == Ok(code) && p !in marked
    ensures
      var w := Run(marked, Nothing, ReceivedAndSold(raw, p));
      Coded(w, p, "l") == 1 && OnHand(w, p, "l") == 0.0
  {
    hide Parse, AfterReceive, MarkedCodeKey;
    var items := [Amount(p, 1.0)];
    var receive := Receive("l", [MarkingEntry.IncomingLine(p, 1.0, [raw])], ["id"]);
    var sell := Sell("d", "l", items, []);
    var w := OneUnit(code, p);
    OneUnitReceived(marked, raw, code, p);
    assert [receive, sell][..1] == [receive] && [receive][..0] == [];
    assert Run(marked, Nothing, [receive]) == w;
    SoldUnscanned(marked, code, p);
    assert Run(marked, Nothing, [receive, sell]) == AfterSale(marked, w, "d", "l", items, []);
  }

  lemma SoldUnscanned(marked: set<string>, code: MarkedCode, p: string)
    requires p !in marked
    ensures
      var w := AfterSale(marked, OneUnit(code, p), "d", "l", [Amount(p, 1.0)], []);
      Coded(w, p, "l") == 1 && OnHand(w, p, "l") == 0.0
  {
    var w, items := OneUnit(code, p), [Amount(p, 1.0)];
    NotAmong(marked, p);
    assert MarkingSale.ResolveSale(w.codes, [], "l", items, []) == Ok([]);
    assert items[1..] == [] && SumBy(items, Of(p)) == 1.0;
    assert w.ledger[1..] == [] && At(p, "l")(w.ledger[0]) == 1.0;
    assert SumBy(w.ledger, At(p, "l")) == 1.0 + SumBy(w.ledger[1..], At(p, "l"));
    assert OnHand(w, p, "l") == 1.0;
    var next := AfterSale(marked, w, "d", "l", items, []);
    var moved := w.(codes := Moved(w.codes, {}, Sold, Some("d")), places := w.places["d" := "l"]);
    var none: seq<CodeRow> := [];
    assert AllIds(none) == {};
    GoodsAfter(moved, items, "l", true, p, "l");
    MapSeqAt(w.codes, MoveOne({}, Sold, Some("d")));
    assert Moved(w.codes, {}, Sold, Some("d")) == w.codes;
    assert next.codes == w.codes;
    OnlyOneLies(w.codes[0], p);
  }

  lemma OnlyOneLies(r: CodeRow, p: string)
    requires r.id == "id" && r.productId == p && r.state == InStock && r.locationId == "l"
    ensures LyingIds([r], p, "l") == {"id"}
  {
    assert r in [r];
    InLying([r], p, "l", "id");
    forall id | id in LyingIds([r], p, "l")
      ensures id == "id"
    {
      InLying([r], p, "l", id);
    }
  }

  /** At this location, after these operations, no more codes than units. */
  ghost predicate Bounded(marked: set<string>, ops: seq<Op>, p: string, l: string) {
    Covered(Run(marked, Nothing, ops), p, l)
  }

  /** The bound holds for all runs and locations exactly for the goods that are sold only by code,
      given that there is any readable code at all. */
  lemma BoundedIffSoldOnlyByCode(marked: set<string>, p: string, raw: Text, code: MarkedCode)
    requires Parse(raw) == Ok(code)
    ensures (forall ops, l :: Bounded(marked, ops, p, l)) <==> p in marked
  {
    hide Run, Parse;
    if p in marked {
      forall ops, l
        ensures Bounded(marked, ops, p, l)
      {
        CodesNeverExceedGoods(marked, ops, p, l);
      }
    } else {
      OtherGoodsOutliveTheirStock(marked, raw, code, p);
      assert !Bounded(marked, ReceivedAndSold(raw, p), p, "l");
    }
  }

  // ------------------------------------------- the flag changes during a run

  /** What happens in the shop: an operation under the flags as they are, or a product card saved. */
  datatype Event = Happens(op: Op) | SaveFlag(productId: string, soldOnlyByCode: bool)

  datatype Shop = Shop(marked: set<string>, world: World)

  /** The flag is written as the card says, whatever lies on the shelves. */
  ghost function ShopStep(s: Shop, e: Event): Shop {
    match e
    case Happens(op) => s.(world := Step(s.marked, s.world, op))
    case SaveFlag(p, true) => s.(marked := s.marked + {p})
    case SaveFlag(p, false) => s.(marked := s.marked - {p})
  }

  ghost function ShopRun(s: Shop, events: seq<Event>): Shop {
    if events == [] then s else ShopStep(ShopRun(s, events[..|events| - 1]), events[|events| - 1])
  }

  /** A run is its steps, one after another. */
  lemma {:induction false} ShopRunIsItsSteps(s: Shop, event: Event, events: seq<Event>)
    ensures ShopRun(s, []) == s && ShopRun(s, [event] + events) == ShopRun(ShopStep(s, event), events)
  {
    hide ShopStep;
    if events == [] {
      assert [event] + [] == [event] && [event][..0] == [];
    } else {
      var all := [event] + events;
      assert all[..|all| - 1] == [event] + events[..|events| - 1];
      ShopRunIsItsSteps(s, event, events[..|events| - 1]);
    }
  }

  ghost predicate CoveredEverywhere(w: World, p: string) {
    forall l :: Covered(w, p, l)
  }

  /** No goods sold only by code have more codes than units anywhere. */
  ghost predicate CodesWithinGoods(s: Shop) {
    forall p :: p in s.marked ==> CoveredEverywhere(s.world, p)
  }

  /** Each flag switched on finds the product with no more codes than units anywhere. */
  ghost predicate SwitchedOnCovered(s: Shop, events: seq<Event>) {
    forall k :: 0 <= k < |events| && events[k].SaveFlag? && events[k].soldOnlyByCode ==>
      CoveredEverywhere(ShopRun(s, events[..k]).world, events[k].productId)
  }

  lemma ShopStepKeepsInv(s: Shop, e: Event)
    requires Inv(s.marked, s.world)
    requires e.SaveFlag? && e.soldOnlyByCode ==> CoveredEverywhere(s.world, e.productId)
    ensures Inv(ShopStep(s, e).marked, ShopStep(s, e).world)
  {
    hide Step, Covered, CodeTable, SoldWhere;
    if e.Happens? {
      hide Inv;
      StepKeepsInv(s.marked, s.world, e.op);
    }
  }

  lemma SwitchedOnBefore(s: Shop, events: seq<Event>, k: nat)
    requires SwitchedOnCovered(s, events) && k <= |events|
    ensures SwitchedOnCovered(s, events[..k])
  {
    hide ShopRun, CoveredEverywhere;
    forall j | 0 <= j < k
      ensures events[..k][j] == events[j] && events[..k][..j] == events[..j]
    {
    }
  }

  lemma {:induction false} ShopRunKeepsInv(s: Shop, events: seq<Event>)
    requires Inv(s.marked, s.world) && SwitchedOnCovered(s, events)
    ensures Inv(ShopRun(s, events).marked, ShopRun(s, events).world)
  {
    hide Inv, ShopStep, CoveredEverywhere;
    if events != [] {
      var k := |events| - 1;
      SwitchedOnBefore(s, events, k);
      ShopRunKeepsInv(s, events[..k]);
      assert events[k].SaveFlag? && events[k].soldOnlyByCode ==>
          CoveredEverywhere(ShopRun(s, events[..k]).world, events[k].productId);
      ShopStepKeepsInv(ShopRun(s, events[..k]), events[k]);
    }
  }

  lemma SwitchedOnIsMarked(s: Shop, events: seq<Event>, k: nat)
    requires k < |events| && events[k].SaveFlag? && events[k].soldOnlyByCode
    ensures events[k].productId in ShopRun(s, events[..k + 1]).marked
    ensures ShopRun(s, events[..k + 1]).world == ShopRun(s, events[..k]).world
  {
    assert events[..k + 1][..k] == events[..k];
  }

  /** While flags come and go: goods sold only by code never have more codes than units, from an empty shop
      and at every moment, exactly when each switch to "only by code" finds the product within its goods. */
  lemma FlagsKeepCodesWithinGoodsIff(marked: set<string>, events: seq<Event>)
    ensures
      var start := Shop(marked, Nothing);
      (forall k :: 0 <= k <= |events| ==> CodesWithinGoods(ShopRun(start, events[..k])))
        <==> SwitchedOnCovered(start, events)
  {
    hide Step, Covered, ShopRun, CoveredEverywhere;
    var start := Shop(marked, Nothing);
    if SwitchedOnCovered(start, events) {
      forall k | 0 <= k <= |events|
        ensures CodesWithinGoods(ShopRun(start, events[..k]))
      {
        NothingIsSound(marked);
        SwitchedOnBefore(start, events, k);
        ShopRunKeepsInv(start, events[..k]);
        WithinGoods(ShopRun(start, events[..k]));
      }
    }
    if forall k :: 0 <= k <= |events| ==> CodesWithinGoods(ShopRun(start, events[..k])) {
      forall k | 0 <= k < |events| && events[k].SaveFlag? && events[k].soldOnlyByCode
        ensures CoveredEverywhere(ShopRun(start, events[..k]).world, events[k].productId)
      {
        SwitchedOnIsMarked(start, events, k);
        assert CodesWithinGoods(ShopRun(start, events[..k + 1]));
      }
    }
  }

  lemma WithinGoods(s: Shop)
    requires Inv(s.marked, s.world)
    ensures CodesWithinGoods(s)
  {
    hide Covered, CodeTable, SoldWhere;
  }

  /** A flag may come too late: a coded unit is sold without a scan, and then its product is switched. */
  function SwitchedTooLate(raw: Text, p: string): seq<Event> {
    var ops := ReceivedAndSold(raw, p);
    [Happens(ops[0]), Happens(ops[1]), SaveFlag(p, true)]
  }

  lemma FlagMayComeTooLate(marked: set<string>, raw: Text, code: MarkedCode, p: string)
    requires Parse(raw) == Ok(code) && p !in marked
    ensures
      var s := ShopRun(Shop(marked, Nothing), SwitchedTooLate(raw, p));
      p in s.marked && Coded(s.world, p, "l") == 1 && OnHand(s.world, p, "l") == 0.0
  {
    hide Step, Parse, Coded, OnHand;
    var start, ops, events := Shop(marked, Nothing), ReceivedAndSold(raw, p), SwitchedTooLate(raw, p);
    assert ops[..1][..0] == [] && ops[..2] == ops && ops[..2][..1] == ops[..1];
    assert events[..2][..1] == events[..1] && events[..1][..0] == [];
    assert ShopRun(start, events[..0]) == start && Run(marked, Nothing, ops[..0]) == Nothing;
    assert ShopRun(start, events[..1]) == Shop(marked, Run(marked, Nothing, ops[..1]));
    assert ShopRun(start, events[..2]) == Shop(marked, Run(marked, Nothing, ops));
    OtherGoodsOutliveTheirStock(marked, raw, code, p);
  }
}
