/** Which codes a sale spends, and whether it may happen at all (apps/api/src/marking-sale.ts). */
module MarkingSale {
  import opened Lists
  import opened JsText
  import opened JsMap
  import opened Marking
  import opened MarkingService

  datatype ScannedLine = ScannedLine(productId: string, codes: seq<Text>)

  datatype SaleRefusal = Refuse(status: int, refusal: Refusal) | SameCodeTwice | OnlyByCode(productId: string)

  /** `findCode`: the row of this GTIN and serial; the unique index leaves at most one. */
  function FindCode(table: seq<CodeRow>, code: MarkedCode): (r: Option<CodeRow>)
    ensures r.Some? ==> r.value in table && r.value.code == code
    ensures r.None? ==> forall row :: row in table ==> row.code != code
  {
    if table == [] then None else if table[0].code == code then Some(table[0]) else FindCode(table[1..], code)
  }

  /** The scans of every product, in the order products first appear; lines without scans are skipped. */
  function Scans(scanned: seq<ScannedLine>): seq<(string, seq<Text>)> {
    if scanned == [] then []
    else
      var m, line := Scans(scanned[..|scanned| - 1]), scanned[|scanned| - 1];
      if line.codes == [] then m else Set(m, line.productId, GetOr(m, line.productId, []) + line.codes)
  }

  /** What stands in the way of selling this row as this product here. */
  function Objection(row: CodeRow, productId: string, locationId: string): Option<Refusal> {
    if row.state == Sold then Some(AlreadySold(row.code))
    else if row.state == InTransit then Some(OnItsWay(row.code))
    else if row.state == ReturnedToSupplier then Some(WithSupplier(row.code))
    else if row.state == Quarantined then Some(SetAside(row.code))
    else if row.state != InStock then Some(Gone(row.code))
    else if row.productId != productId then Some(WrongProduct(row.code))
    else if row.locationId != locationId then Some(Elsewhere(row.code))
    else None
  }

  function TakeCodes(table: seq<CodeRow>, productId: string, locationId: string, codes: seq<MarkedCode>)
    : Result<seq<CodeRow>, SaleRefusal>
  {
    if codes == [] then Ok([])
    else
      match FindCode(table, codes[0])
      case None => Err(Refuse(409, Unknown(codes[0])))
      case Some(row) =>
        match Objection(row, productId, locationId)
        case Some(refusal) => Err(Refuse(409, refusal))
        case None => Ahead([row], TakeCodes(table, productId, locationId, codes[1..]))
  }

  function Ahead(rows: seq<CodeRow>, rest: Result<seq<CodeRow>, SaleRefusal>): Result<seq<CodeRow>, SaleRefusal> {
    match rest
    case Err(refusal) => Err(refusal)
    case Ok(more) => Ok(rows + more)
  }

  function TakeProduct(table: seq<CodeRow>, locationId: string, wanted: seq<(string, real)>, productId: string,
      raw: seq<Text>)
    : Result<seq<CodeRow>, SaleRefusal>
  {
    match ReadLine(raw, GetOr(wanted, productId, 0.0))
    case Err(refusal) => Err(Refuse(400, refusal))
    case Ok(read) => if !NoKeyTwice(read) then Err(SameCodeTwice) else TakeCodes(table, productId, locationId, read)
  }

  function TakeAll(table: seq<CodeRow>, locationId: string, wanted: seq<(string, real)>,
      groups: seq<(string, seq<Text>)>)
    : Result<seq<CodeRow>, SaleRefusal>
  {
    if groups == [] then Ok([])
    else
      match TakeProduct(table, locationId, wanted, groups[0].0, groups[0].1)
      case Err(refusal) => Err(refusal)
      case Ok(rows) => Ahead(rows, TakeAll(table, locationId, wanted, groups[1..]))
  }

  function CountFor(rows: seq<CodeRow>, productId: string): nat {
    if rows == [] then 0
    else CountFor(rows[..|rows| - 1], productId) + if rows[|rows| - 1].productId == productId then 1 else 0
  }

  function RowsPer(rows: seq<CodeRow>): string -> nat {
    (p: string) => CountFor(rows, p)
  }

  /** `marked` is what the query for products sold only by code answered. */
  function ResolveSale(
    table: seq<CodeRow>, marked: seq<string>, locationId: string, items: seq<Amount>, scanned: seq<ScannedLine>)
    : Result<seq<CodeRow>, SaleRefusal>
  {
    match TakeAll(table, locationId, Totals(items), Scans(scanned))
    case Err(refusal) => Err(refusal)
    case Ok(rows) =>
      match Uncovered(marked, RowsPer(rows), Totals(items))
      case Some(productId) => Err(OnlyByCode(productId))
      case None => Ok(rows)
  }

  // ------------------------------------------------------------- the loops

  method ResolveSaleCodes(
    table: seq<CodeRow>, marked: seq<string>, locationId: string, items: seq<Amount>, scanned: seq<ScannedLine>)
    returns (result: Result<seq<CodeRow>, SaleRefusal>)
    ensures result == ResolveSale(table, marked, locationId, items, scanned)
  {
    hide TakeAll;
    var wanted := TotalByProduct(items);
    var byProduct := GroupScans(scanned);
    var taken := TakeEveryProduct(table, locationId, wanted, byProduct);
    if taken.Err? {
      return taken;
    }
    var countByProduct := CountByProduct(taken.value);
    var i := 0;
    while i < |marked|
      invariant i <= |marked|
      invariant Uncovered(marked, RowsPer(taken.value), wanted) == Uncovered(marked[i..], RowsPer(taken.value), wanted)
    {
      assert marked[i..][1..] == marked[i + 1..];
      if GetOr(countByProduct, marked[i], 0) as real != GetOr(wanted, marked[i], 0.0) {
        return Err(OnlyByCode(marked[i]));
      }
      i := i + 1;
    }
    result := taken;
  }

  method GroupScans(scanned: seq<ScannedLine>) returns (byProduct: seq<(string, seq<Text>)>)
    ensures byProduct == Scans(scanned)
  {
    byProduct := [];
    var i := 0;
    while i < |scanned|
      invariant i <= |scanned|
      invariant byProduct == Scans(scanned[..i])
    {
      assert scanned[..i + 1][..i] == scanned[..i];
      var line := scanned[i];
      i := i + 1;
      if line.codes == [] {
        continue;
      }
      byProduct := Set(byProduct, line.productId, GetOr(byProduct, line.productId, []) + line.codes);
    }
    assert scanned[..i] == scanned;
  }

  method TakeEveryProduct(
    table: seq<CodeRow>, locationId: string, wanted: seq<(string, real)>, byProduct: seq<(string, seq<Text>)>)
    returns (result: Result<seq<CodeRow>, SaleRefusal>)
    ensures result == TakeAll(table, locationId, wanted, byProduct)
  {
    hide ReadLine, TakeCodes, NoKeyTwice;
    var codes: seq<CodeRow> := [];
    var i := 0;
    assert byProduct[0..] == byProduct;
    AheadNothing(TakeAll(table, locationId, wanted, byProduct));
    while i < |byProduct|
      invariant i <= |byProduct|
      invariant TakeAll(table, locationId, wanted, byProduct)
        == Ahead(codes, TakeAll(table, locationId, wanted, byProduct[i..]))
    {
      assert byProduct[i..][1..] == byProduct[i + 1..];
      var (productId, raw) := byProduct[i];
      var read := ReadLineCodes(raw, GetOr(wanted, productId, 0.0));
      if read.Err? {
        return Err(Refuse(400, read.error));
      }
      var duplicate := FindDuplicate(read.value);
      if duplicate.Some? {
        return Err(SameCodeTwice);
      }
      var taken := TakeEveryCode(table, productId, locationId, read.value);
      if taken.Err? {
        return taken;
      }
      AheadTwice(codes, taken.value, TakeAll(table, locationId, wanted, byProduct[i + 1..]));
      codes := codes + taken.value;
      i := i + 1;
    }
    assert codes + [] == codes;
    result := Ok(codes);
  }

  method TakeEveryCode(table: seq<CodeRow>, productId: string, locationId: string, read: seq<MarkedCode>)
    returns (result: Result<seq<CodeRow>, SaleRefusal>)
    ensures result == TakeCodes(table, productId, locationId, read)
  {
    hide Objection;
    var codes: seq<CodeRow> := [];
    var i := 0;
    assert read[0..] == read;
    AheadNothing(TakeCodes(table, productId, locationId, read));
    while i < |read|
      invariant i <= |read|
      invariant TakeCodes(table, productId, locationId, read)
        == Ahead(codes, TakeCodes(table, productId, locationId, read[i..]))
    {
      assert read[i..][1..] == read[i + 1..];
      var known := FindCode(table, read[i]);
      if known.None? {
        return Err(Refuse(409, Unknown(read[i])));
      }
      var objection := Objection(known.value, productId, locationId);
      if objection.Some? {
        return Err(Refuse(409, objection.value));
      }
      AheadTwice(codes, [known.value], TakeCodes(table, productId, locationId, read[i + 1..]));
      codes := codes + [known.value];
      i := i + 1;
    }
    assert codes + [] == codes;
    result := Ok(codes);
  }

  lemma AheadNothing(rest: Result<seq<CodeRow>, SaleRefusal>)
    ensures Ahead([], rest) == rest
  {
    if rest.Ok? {
      assert [] + rest.value == rest.value;
    }
  }

  lemma AheadTwice(rows: seq<CodeRow>, more: seq<CodeRow>, rest: Result<seq<CodeRow>, SaleRefusal>)
    ensures Ahead(rows, Ahead(more, rest)) == Ahead(rows + more, rest)
  {
    if rest.Ok? {
      assert rows + (more + rest.value) == rows + more + rest.value;
    }
  }

  method CountByProduct(codes: seq<CodeRow>) returns (m: seq<(string, nat)>)
    ensures forall p :: GetOr(m, p, 0) == CountFor(codes, p)
  {
    m := [];
    var i := 0;
    while i < |codes|
      invariant i <= |codes|
      invariant forall p :: GetOr(m, p, 0) == CountFor(codes[..i], p)
    {
      assert codes[..i + 1][..i] == codes[..i];
      var productId, before := codes[i].productId, m;
      m := Set(m, productId, GetOr(m, productId, 0) + 1);
      forall p
        ensures GetOr(m, p, 0) == CountFor(codes[..i + 1], p)
      {
        GetSet(before, productId, GetOr(before, productId, 0) + 1, p);
      }
      i := i + 1;
    }
    assert codes[..i] == codes;
  }

  // ------------------------------------------------------- what a sale means

  /** Codes of this product lying here, all different. */
  ghost predicate Sellable(rows: seq<CodeRow>, table: seq<CodeRow>, locationId: string) {
    && (forall i ::
      0 <= i < |rows| ==> rows[i] in table && rows[i].state == InStock && rows[i].locationId == locationId)
    && (forall i, j :: 0 <= i < j < |rows| ==> rows[i] != rows[j])
  }

  lemma {:induction false} TakeCodesMeans(table: seq<CodeRow>, productId: string, locationId: string,
      codes: seq<MarkedCode>)
    requires TakeCodes(table, productId, locationId, codes).Ok?
    ensures
      var rows := TakeCodes(table, productId, locationId, codes).value;
      && |rows| == |codes|
      && forall i :: 0 <= i < |rows| ==>
           && rows[i] in table && rows[i].code == codes[i] && rows[i].state == InStock
           && rows[i].productId == productId && rows[i].locationId == locationId
  {
    if codes != [] {
      TakeCodesMeans(table, productId, locationId, codes[1..]);
    }
  }

  lemma TakeProductMeans(
    table: seq<CodeRow>, locationId: string, wanted: seq<(string, real)>, productId: string, raw: seq<Text>)
    requires TakeProduct(table, locationId, wanted, productId, raw).Ok?
    ensures
      var rows := TakeProduct(table, locationId, wanted, productId, raw).value;
      && Sellable(rows, table, locationId) && (forall r :: r in rows ==> r.productId == productId)
      && |rows| as real == GetOr(wanted, productId, 0.0)
  {
    hide ReadLine, TakeCodes, MarkedCodeKey;
    var read := ReadLine(raw, GetOr(wanted, productId, 0.0)).value;
    ReadLineIff(raw, GetOr(wanted, productId, 0.0), read);
    NoKeyTwiceIsNoCodeTwice(raw, read);
    TakeCodesMeans(table, productId, locationId, read);
  }

  /** A sale that passed spends different codes, each lying here under its own product. */
  lemma {:induction false} TakeAllMeans(
    table: seq<CodeRow>, locationId: string, wanted: seq<(string, real)>, groups: seq<(string, seq<Text>)>)
    requires Keyed(groups) && TakeAll(table, locationId, wanted, groups).Ok?
    ensures
      var rows := TakeAll(table, locationId, wanted, groups).value;
      && Sellable(rows, table, locationId) && (forall r :: r in rows ==> Has(groups, r.productId))
  {
    hide TakeProduct;
    if groups != [] {
      var (g, raw) := groups[0];
      var first := TakeProduct(table, locationId, wanted, g, raw).value;
      var rest := TakeAll(table, locationId, wanted, groups[1..]).value;
      TakeProductMeans(table, locationId, wanted, g, raw);
      TakeAllMeans(table, locationId, wanted, groups[1..]);
      GetAbsent(groups[1..], g);
      var rows := first + rest;
      forall i, j | 0 <= i < j < |rows|
        ensures rows[i] != rows[j]
      {
        if i < |first| <= j {
          assert rows[i] in first && rows[j] in rest;
        }
      }
    }
  }

  lemma {:induction false} ScansKeyed(scanned: seq<ScannedLine>)
    ensures Keyed(Scans(scanned))
  {
    if scanned != [] {
      var front, line := scanned[..|scanned| - 1], scanned[|scanned| - 1];
      ScansKeyed(front);
      SetKeyed(Scans(front), line.productId, GetOr(Scans(front), line.productId, []) + line.codes);
    }
  }

  /** An accepted sale spends no code twice, spends only codes that lie here under the product they
      are sold as, and gives every product sold only by code exactly one code a unit. */
  lemma SaleMeans(
    table: seq<CodeRow>, marked: seq<string>, locationId: string, items: seq<Amount>, scanned: seq<ScannedLine>)
    requires ResolveSale(table, marked, locationId, items, scanned).Ok?
    ensures
      var rows := ResolveSale(table, marked, locationId, items, scanned).value;
      && Sellable(rows, table, locationId)
      && forall p :: p in marked ==> CountFor(rows, p) as real == SumBy(items, Of(p))
  {
    hide TakeAll, Scans, Uncovered;
    ScansKeyed(scanned);
    TakeAllMeans(table, locationId, Totals(items), Scans(scanned));
    var rows := ResolveSale(table, marked, locationId, items, scanned).value;
    UncoveredNone(marked, RowsPer(rows), Totals(items));
    forall p | p in marked
      ensures CountFor(rows, p) as real == SumBy(items, Of(p))
    {
      TotalsAreSums(items, p);
    }
  }

  // --------------------------------------------------- when a sale is accepted

  /** All texts scanned for a product, in the order of the lines. */
  function ScannedOf(scanned: seq<ScannedLine>, productId: string): seq<Text> {
    if scanned == [] then []
    else
      var last := scanned[|scanned| - 1];
      ScannedOf(scanned[..|scanned| - 1], productId) + if last.productId == productId then last.codes else []
  }

  lemma {:induction false} ScansAreGathered(scanned: seq<ScannedLine>, productId: string)
    ensures GetOr(Scans(scanned), productId, []) == ScannedOf(scanned, productId)
    ensures Has(Scans(scanned), productId) <==> ScannedOf(scanned, productId) != []
  {
    hide Set, Get;
    if scanned != [] {
      var front, line := scanned[..|scanned| - 1], scanned[|scanned| - 1];
      ScansAreGathered(front, productId);
      GetSet(Scans(front), line.productId, GetOr(Scans(front), line.productId, []) + line.codes, productId);
    } else {
      NothingScannedYet(productId);
    }
  }

  lemma NothingScannedYet(productId: string)
    ensures Get<seq<Text>>([], productId) == None
  {
  }

  /** The pack with this code lies here as this product. */
  ghost predicate LiesHere(table: seq<CodeRow>, productId: string, locationId: string, code: MarkedCode) {
    exists row :: row in table && row.code == code
      && row.state == InStock && row.productId == productId && row.locationId == locationId
  }

  /** The scans of one product are different codes of packs that lie here, as many as are sold. */
  ghost predicate MaySell(table: seq<CodeRow>, productId: string, locationId: string, texts: seq<Text>, sold: real) {
    && |texts| as real == sold
    && exists read :: AllParse(texts, read)
         && (forall i, j :: 0 <= i < j < |read| ==> read[i] != read[j])
         && forall c :: c in read ==> LiesHere(table, productId, locationId, c)
  }

  lemma FoundIsTheRow(table: seq<CodeRow>, row: CodeRow)
    requires Distinct(table, CodeOf) && row in table
    ensures FindCode(table, row.code) == Some(row)
  {
    SameKeySameElement(table, CodeOf, row, FindCode(table, row.code).value);
  }

  lemma {:induction false} TakeCodesIff(table: seq<CodeRow>, productId: string, locationId: string,
      codes: seq<MarkedCode>)
    requires Distinct(table, CodeOf)
    ensures TakeCodes(table, productId, locationId, codes).Ok? <==>
      forall c :: c in codes ==> LiesHere(table, productId, locationId, c)
  {
    hide Distinct, LiesHere;
    if codes != [] {
      TakeCodesIff(table, productId, locationId, codes[1..]);
      FirstLiesHere(table, productId, locationId, codes[0]);
      assert forall c :: c in codes <==> c == codes[0] || c in codes[1..];
    }
  }

  lemma FirstLiesHere(table: seq<CodeRow>, productId: string, locationId: string, code: MarkedCode)
    requires Distinct(table, CodeOf)
    ensures LiesHere(table, productId, locationId, code) <==>
      FindCode(table, code).Some? && Objection(FindCode(table, code).value, productId, locationId).None?
  {
    hide Distinct;
    if LiesHere(table, productId, locationId, code) {
      var row :| row in table && row.code == code
        && row.state == InStock && row.productId == productId && row.locationId == locationId;
      FoundIsTheRow(table, row);
    }
  }

  lemma TakeProductIff(
    table: seq<CodeRow>, locationId: string, wanted: seq<(string, real)>, productId: string, raw: seq<Text>)
    requires Distinct(table, CodeOf)
    ensures TakeProduct(table, locationId, wanted, productId, raw).Ok? <==>
      MaySell(table, productId, locationId, raw, GetOr(wanted, productId, 0.0))
  {
    hide ReadLine, TakeCodes, Distinct, LiesHere, NoKeyTwice, AllParse;
    var sold := GetOr(wanted, productId, 0.0);
    if ReadLine(raw, sold).Ok? {
      var read := ReadLine(raw, sold).value;
      ReadLineIff(raw, sold, read);
      NoKeyTwiceIsNoCodeTwice(raw, read);
      TakeCodesIff(table, productId, locationId, read);
      if MaySell(table, productId, locationId, raw, sold) {
        var other :| AllParse(raw, other)
          && (forall i, j :: 0 <= i < j < |other| ==> other[i] != other[j])
          && forall c :: c in other ==> LiesHere(table, productId, locationId, c);
        ReadLineIff(raw, sold, other);
      }
    } else if MaySell(table, productId, locationId, raw, sold) {
      var read :| AllParse(raw, read)
        && (forall i, j :: 0 <= i < j < |read| ==> read[i] != read[j])
        && forall c :: c in read ==> LiesHere(table, productId, locationId, c);
      ReadLineIff(raw, sold, read);
    }
  }

  lemma {:induction false} TakeAllIff(
    table: seq<CodeRow>, locationId: string, wanted: seq<(string, real)>, groups: seq<(string, seq<Text>)>)
    ensures TakeAll(table, locationId, wanted, groups).Ok? <==>
      forall g :: g in groups ==> TakeProduct(table, locationId, wanted, g.0, g.1).Ok?
  {
    hide TakeProduct;
    if groups != [] {
      TakeAllIff(table, locationId, wanted, groups[1..]);
      assert forall g :: g in groups <==> g == groups[0] || g in groups[1..];
    }
  }

  lemma {:induction false} CountForConcat(a: seq<CodeRow>, b: seq<CodeRow>, productId: string)
    ensures CountFor(a + b, productId) == CountFor(a, productId) + CountFor(b, productId)
  {
    if b == [] {
      assert a + b == a;
    } else {
      assert (a + b)[..|a + b| - 1] == a + b[..|b| - 1];
      CountForConcat(a, b[..|b| - 1], productId);
    }
  }

  lemma {:induction false} CountOfOne(rows: seq<CodeRow>, owner: string, productId: string)
    requires forall r :: r in rows ==> r.productId == owner
    ensures CountFor(rows, productId) == if owner == productId then |rows| else 0
  {
    if rows != [] {
      CountOfOne(rows[..|rows| - 1], owner, productId);
    }
  }

  /** What one product takes: a row for each text, its own. */
  lemma TakenOfProduct(
    table: seq<CodeRow>, locationId: string, wanted: seq<(string, real)>, productId: string, raw: seq<Text>)
    requires TakeProduct(table, locationId, wanted, productId, raw).Ok?
    ensures
      var rows := TakeProduct(table, locationId, wanted, productId, raw).value;
      && |rows| == |raw| && (forall r :: r in rows ==> r.productId == productId)
      && forall i :: 0 <= i < |raw| ==> Parse(raw[i]) == Ok(rows[i].code)
  {
    hide ReadLine, TakeCodes, NoKeyTwice, Parse;
    var read := ReadLine(raw, GetOr(wanted, productId, 0.0)).value;
    ReadLineIff(raw, GetOr(wanted, productId, 0.0), read);
    TakeCodesMeans(table, productId, locationId, read);
  }

  lemma {:induction false} TakenOfAll(
    table: seq<CodeRow>, locationId: string, wanted: seq<(string, real)>, groups: seq<(string, seq<Text>)>,
    productId: string, row: CodeRow)
    requires Keyed(groups) && TakeAll(table, locationId, wanted, groups).Ok?
    ensures
      var rows := TakeAll(table, locationId, wanted, groups).value;
      && CountFor(rows, productId) == |GetOr(groups, productId, [])|
      && (row in rows ==> exists text :: text in GetOr(groups, row.productId, []) && Parse(text) == Ok(row.code))
      && (forall text, code :: text in GetOr(groups, productId, []) && Parse(text) == Ok(code) ==>
            exists r :: r in rows && r.code == code && r.productId == productId)
  {
    hide TakeProduct, Parse;
    if groups != [] {
      var (g, raw) := groups[0];
      var first := TakeProduct(table, locationId, wanted, g, raw).value;
      var rest := TakeAll(table, locationId, wanted, groups[1..]).value;
      TakenOfProduct(table, locationId, wanted, g, raw);
      TakenOfAll(table, locationId, wanted, groups[1..], productId, row);
      CountForConcat(first, rest, productId);
      CountOfOne(first, g, productId);
      assert forall e :: e in groups[1..] ==> Key<seq<Text>>()(e) != g;
      GetAbsent(groups[1..], g);
      if row in first {
        var i :| 0 <= i < |first| && first[i] == row;
        assert raw[i] in raw;
      }
      forall text, code | text in raw && Parse(text) == Ok(code)
        ensures exists r :: r in first && r.code == code && r.productId == g
      {
        var i :| 0 <= i < |raw| && raw[i] == text;
        assert first[i] in first;
      }
    }
  }

  lemma EveryProductMaySellIff(
    table: seq<CodeRow>, locationId: string, items: seq<Amount>, scanned: seq<ScannedLine>)
    requires Distinct(table, CodeOf)
    ensures TakeAll(table, locationId, Totals(items), Scans(scanned)).Ok? <==>
      forall p :: ScannedOf(scanned, p) != [] ==>
        MaySell(table, p, locationId, ScannedOf(scanned, p), SumBy(items, Of(p)))
  {
    hide TakeAll, TakeProduct, Scans, ScannedOf, Distinct, MaySell, SumBy, Totals, Get;
    var wanted, groups := Totals(items), Scans(scanned);
    ScansKeyed(scanned);
    TakeAllIff(table, locationId, wanted, groups);
    GroupsByProduct(groups);
    forall p
      ensures GetOr(groups, p, []) == ScannedOf(scanned, p) && (Has(groups, p) <==> ScannedOf(scanned, p) != [])
      ensures TakeProduct(table, locationId, wanted, p, ScannedOf(scanned, p)).Ok?
        <==> MaySell(table, p, locationId, ScannedOf(scanned, p), SumBy(items, Of(p)))
    {
      ScansAreGathered(scanned, p);
      TotalsAreSums(items, p);
      TakeProductIff(table, locationId, wanted, p, ScannedOf(scanned, p));
    }
    forall g | g in groups
      ensures g.1 == ScannedOf(scanned, g.0) && ScannedOf(scanned, g.0) != []
    {
    }
    forall p | ScannedOf(scanned, p) != []
      ensures (p, ScannedOf(scanned, p)) in groups
    {
      var g := (p, ScannedOf(scanned, p));
      assert Has(groups, g.0) && g.1 == GetOr(groups, g.0, []);
    }
  }

  lemma TakenCounts(
    table: seq<CodeRow>, locationId: string, items: seq<Amount>, scanned: seq<ScannedLine>, p: string)
    requires TakeAll(table, locationId, Totals(items), Scans(scanned)).Ok?
    ensures CountFor(TakeAll(table, locationId, Totals(items), Scans(scanned)).value, p) == |ScannedOf(scanned, p)|
    ensures GetOr(Totals(items), p, 0.0) == SumBy(items, Of(p))
  {
    hide TakeAll, Scans, ScannedOf, SumBy, Totals;
    ScansKeyed(scanned);
    ScansAreGathered(scanned, p);
    TotalsAreSums(items, p);
    TakenOfAll(table, locationId, Totals(items), Scans(scanned), p,
               CodeRow("", "", "", MarkedCode([], []), Sold, None));
  }

  /** A sale is accepted exactly when the scans of every scanned product are different codes of packs that lie
      here as that product, as many as are sold of it, and every product sold only by code is scanned in full. */
  lemma SaleIff(
    table: seq<CodeRow>, marked: seq<string>, locationId: string, items: seq<Amount>, scanned: seq<ScannedLine>)
    requires Distinct(table, CodeOf)
    ensures ResolveSale(table, marked, locationId, items, scanned).Ok? <==>
      && (forall p :: ScannedOf(scanned, p) != [] ==>
            MaySell(table, p, locationId, ScannedOf(scanned, p), SumBy(items, Of(p))))
      && (forall p :: p in marked ==> |ScannedOf(scanned, p)| as real == SumBy(items, Of(p)))
  {
    hide TakeAll, Scans, ScannedOf, Uncovered, Distinct, MaySell, SumBy, Totals;
    EveryProductMaySellIff(table, locationId, items, scanned);
    if TakeAll(table, locationId, Totals(items), Scans(scanned)).Ok? {
      var rows := TakeAll(table, locationId, Totals(items), Scans(scanned)).value;
      UncoveredNone(marked, RowsPer(rows), Totals(items));
      forall p
        ensures RowsPer(rows)(p) == |ScannedOf(scanned, p)| && GetOr(Totals(items), p, 0.0) == SumBy(items, Of(p))
      {
        TakenCounts(table, locationId, items, scanned, p);
      }
    }
  }

  lemma GroupsByProduct(groups: seq<(string, seq<Text>)>)
    requires Keyed(groups)
    ensures forall g :: g in groups <==> Has(groups, g.0) && g.1 == GetOr(groups, g.0, [])
  {
    forall g: (string, seq<Text>)
      ensures g in groups <==> Has(groups, g.0) && g.1 == GetOr(groups, g.0, [])
    {
      GetEntry(groups, g.0);
    }
  }

  /** It spends the rows of the codes that were scanned under their products, and no others. */
  lemma SaleSpendsWhatWasScanned(
    table: seq<CodeRow>, marked: seq<string>, locationId: string, items: seq<Amount>, scanned: seq<ScannedLine>,
    row: CodeRow)
    requires Distinct(table, CodeOf) && ResolveSale(table, marked, locationId, items, scanned).Ok?
    ensures row in ResolveSale(table, marked, locationId, items, scanned).value <==>
      row in table && exists text :: text in ScannedOf(scanned, row.productId) && Parse(text) == Ok(row.code)
  {
    hide TakeAll, Scans, ScannedOf, Distinct, Parse, Totals, Uncovered;
    ScansKeyed(scanned);
    ScansAreGathered(scanned, row.productId);
    var rows := ResolveSale(table, marked, locationId, items, scanned).value;
    TakenOfAll(table, locationId, Totals(items), Scans(scanned), row.productId, row);
    TakeAllMeans(table, locationId, Totals(items), Scans(scanned));
    if row in rows {
      var i :| 0 <= i < |rows| && rows[i] == row;
    }
    if row in table && exists text :: text in ScannedOf(scanned, row.productId) && Parse(text) == Ok(row.code) {
      var other :| other in rows && other.code == row.code && other.productId == row.productId;
      var i :| 0 <= i < |rows| && rows[i] == other;
      SameKeySameElement(table, CodeOf, row, other);
    }
  }

  // -------------------------------------------------------- what is refused

  /** The first code that may not be sold decides, and each state has its own words. */
  lemma {:induction false} FirstBadCodeDecides(table: seq<CodeRow>, productId: string, locationId: string,
      codes: seq<MarkedCode>, k: nat)
    requires Distinct(table, CodeOf) && k < |codes|
    requires forall i :: 0 <= i < k ==> LiesHere(table, productId, locationId, codes[i])
    ensures
      var code, verdict := codes[k], TakeCodes(table, productId, locationId, codes);
      && ((forall row :: row in table ==> row.code != code) ==> verdict == Err(Refuse(409, Unknown(code))))
      && forall row :: row in table && row.code == code ==>
           match row.state
           case Sold => verdict == Err(Refuse(409, AlreadySold(code)))
           case InTransit => verdict == Err(Refuse(409, OnItsWay(code)))
           case ReturnedToSupplier => verdict == Err(Refuse(409, WithSupplier(code)))
           case Quarantined => verdict == Err(Refuse(409, SetAside(code)))
           case WrittenOff => verdict == Err(Refuse(409, Gone(code)))
           case InStock =>
             && (row.productId != productId ==> verdict == Err(Refuse(409, WrongProduct(code))))
             && (row.productId == productId && row.locationId != locationId ==>
                   verdict == Err(Refuse(409, Elsewhere(code))))
  {
    hide Distinct, LiesHere;
    if k > 0 {
      FirstLiesHere(table, productId, locationId, codes[0]);
      assert codes[1..][k - 1] == codes[k] && forall i :: 0 <= i < k - 1 ==> codes[1..][i] == codes[i + 1];
      FirstBadCodeDecides(table, productId, locationId, codes[1..], k - 1);
    } else {
      forall row | row in table && row.code == codes[0]
        ensures FindCode(table, codes[0]) == Some(row)
      {
        FoundIsTheRow(table, row);
      }
    }
  }

  /** Before that, the scans of a product are refused unless they are codes, as many as are sold, none twice. */
  lemma ProductRefusal(table: seq<CodeRow>, locationId: string, wanted: seq<(string, real)>, productId: string,
                       raw: seq<Text>, k: nat)
    requires k <= |raw| && forall i :: 0 <= i < k ==> Parse(raw[i]).Ok?
    ensures
      var verdict, sold := TakeProduct(table, locationId, wanted, productId, raw), GetOr(wanted, productId, 0.0);
      && (k < |raw| && Parse(raw[k]).Err? ==> verdict == Err(Refuse(400, Unreadable(raw[k]))))
      && (k == |raw| && |raw| as real != sold ==> verdict == Err(Refuse(400, CountMismatch(|raw|, sold))))
      && (k == |raw| && |raw| as real == sold ==>
            if exists i, j :: 0 <= i < j < |raw| && Parse(raw[i]) == Parse(raw[j]) then verdict == Err(SameCodeTwice)
            else
              verdict == TakeCodes(table, productId, locationId,
                                   seq(|raw|, i requires 0 <= i < |raw| => Parse(raw[i]).value)))
  {
    hide Parse, ReadLine, TakeCodes, NoKeyTwice;
    var sold := GetOr(wanted, productId, 0.0);
    ReadLineRefusal(raw, sold, k);
    if k == |raw| && |raw| as real == sold {
      var read := seq(|raw|, i requires 0 <= i < |raw| => Parse(raw[i]).value);
      assert AllParse(raw, read);
      ReadLineIff(raw, sold, read);
      NoKeyTwiceIsNoCodeTwice(raw, read);
    }
  }

  /** The first scanned product that may not be sold refuses the sale with its own verdict. */
  lemma {:induction false} FirstProductDecides(table: seq<CodeRow>, locationId: string, wanted: seq<(string, real)>,
      groups: seq<(string, seq<Text>)>, k: nat)
    requires k < |groups|
    requires forall i :: 0 <= i < k ==> TakeProduct(table, locationId, wanted, groups[i].0, groups[i].1).Ok?
    requires TakeProduct(table, locationId, wanted, groups[k].0, groups[k].1).Err?
    ensures TakeAll(table, locationId, wanted, groups)
      == TakeProduct(table, locationId, wanted, groups[k].0, groups[k].1)
  {
    hide TakeProduct;
    if k > 0 {
      assert groups[1..][k - 1] == groups[k] && forall i :: 0 <= i < k - 1 ==> groups[1..][i] == groups[i + 1];
      FirstProductDecides(table, locationId, wanted, groups[1..], k - 1);
    }
  }
}
