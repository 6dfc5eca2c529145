/** Which codes leave, or come back, with goods (apps/api/src/marking-pick.ts): a scan is
    believed, everything that is left needs no scan, and a part without a scan is refused. */
module MarkingPick {
  import opened Lists
  import opened JsText
  import opened JsMap
  import opened Marking
  import opened MarkingService

  datatype PickRefusal =
    | NeedScan(returning: real, outstanding: nat)
    | UnreadableScan(raw: Text)
    | NotInSale(key: Text)
    | DuplicateScan(key: Text)
    | ScanMismatch(codes: nat, quantity: real)

  /** What `new Map(outstanding.map(...))` answers: of two rows with one key the later. */
  function ByKey(outstanding: seq<CodeRow>, key: Text): (r: Option<CodeRow>)
    ensures r.Some? ==> r.value in outstanding && MarkedCodeKey(r.value.code) == key
    ensures r.None? ==> forall row :: row in outstanding ==> MarkedCodeKey(row.code) != key
  {
    if outstanding == [] then None
    else if MarkedCodeKey(outstanding[|outstanding| - 1].code) == key then Some(outstanding[|outstanding| - 1])
    else ByKey(outstanding[..|outstanding| - 1], key)
  }

  /** The ids of the scanned codes; `seen` are the keys scanned before. */
  function Scanned(scanned: seq<Text>, seen: set<Text>, outstanding: seq<CodeRow>): Result<seq<string>, PickRefusal> {
    if scanned == [] then Ok([])
    else
      match Parse(scanned[0])
      case Err(_) => Err(UnreadableScan(scanned[0]))
      case Ok(code) =>
        var key := MarkedCodeKey(code);
        if key in seen then Err(DuplicateScan(key))
        else if ByKey(outstanding, key).None? then Err(NotInSale(key))
        else
          match Scanned(scanned[1..], seen + {key}, outstanding)
          case Err(refusal) => Err(refusal)
          case Ok(rest) => Ok([ByKey(outstanding, key).value.id] + rest)
  }

  function Ids(rows: seq<CodeRow>): seq<string> {
    MapSeq(rows, CodeId)
  }

  function Pick(quantity: real, outstanding: seq<CodeRow>, scanned: seq<Text>): Result<seq<string>, PickRefusal> {
    if outstanding == [] && scanned == [] then Ok([])
    else if scanned != [] then
      if |scanned| as real != quantity then Err(ScanMismatch(|scanned|, quantity))
      else Scanned(scanned, {}, outstanding)
    else if quantity == |outstanding| as real then Ok(Ids(outstanding))
    else Err(NeedScan(quantity, |outstanding|))
  }

  method PickCodes(quantity: real, outstanding: seq<CodeRow>, scanned: seq<Text>)
    returns (plan: Result<seq<string>, PickRefusal>)
    ensures plan == Pick(quantity, outstanding, scanned)
  {
    if outstanding == [] && scanned == [] {
      return Ok([]);
    }
    if scanned != [] {
      if |scanned| as real != quantity {
        return Err(ScanMismatch(|scanned|, quantity));
      }
      plan := MatchScans(scanned, outstanding);
      return;
    }
    if quantity == |outstanding| as real {
      return Ok(Ids(outstanding));
    }
    plan := Err(NeedScan(quantity, |outstanding|));
  }

  /** Puts ids found so far in front of what the rest of the scans find. */
  function Found(ids: seq<string>, rest: Result<seq<string>, PickRefusal>): Result<seq<string>, PickRefusal> {
    match rest
    case Err(refusal) => Err(refusal)
    case Ok(more) => Ok(ids + more)
  }

  method MatchScans(scanned: seq<Text>, outstanding: seq<CodeRow>) returns (plan: Result<seq<string>, PickRefusal>)
    ensures plan == Scanned(scanned, {}, outstanding)
  {
    hide Parse, MarkedCodeKey, ByKey;
    var seen: set<Text> := {};
    var codeIds: seq<string> := [];
    var i := 0;
    assert scanned[0..] == scanned;
    FoundNothing(Scanned(scanned, {}, outstanding));
    while i < |scanned|
      invariant i <= |scanned|
      invariant Scanned(scanned, {}, outstanding) == Found(codeIds, Scanned(scanned[i..], seen, outstanding))
    {
      assert scanned[i..][1..] == scanned[i + 1..];
      match Parse(scanned[i]) {
        case Err(_) =>
          return Err(UnreadableScan(scanned[i]));
        case Ok(code) =>
          var key := MarkedCodeKey(code);
          if key in seen {
            return Err(DuplicateScan(key));
          }
          var row := ByKey(outstanding, key);
          if row.None? {
            return Err(NotInSale(key));
          }
          seen := seen + {key};
          FoundOne(codeIds, row.value.id, Scanned(scanned[i + 1..], seen, outstanding));
          codeIds := codeIds + [row.value.id];
      }
      i := i + 1;
    }
    assert codeIds + [] == codeIds;
    plan := Ok(codeIds);
  }

  lemma FoundNothing(rest: Result<seq<string>, PickRefusal>)
    ensures Found([], rest) == rest
  {
    if rest.Ok? {
      assert [] + rest.value == rest.value;
    }
  }

  lemma FoundOne(ids: seq<string>, id: string, rest: Result<seq<string>, PickRefusal>)
    ensures Found(ids, Found([id], rest)) == Found(ids + [id], rest)
  {
    if rest.Ok? {
      assert ids + ([id] + rest.value) == ids + [id] + rest.value;
    }
  }

  // -------------------------------------------------------- what a pick means

  /** The rows a list of ids names. */
  ghost predicate Names(ids: seq<string>, rows: seq<CodeRow>, outstanding: seq<CodeRow>) {
    && |rows| == |ids|
    && (forall i :: 0 <= i < |ids| ==> rows[i] in outstanding && rows[i].id == ids[i])
    && (forall i, j :: 0 <= i < j < |ids| ==> ids[i] != ids[j])
  }

  /** Every scan is a code of a different row. */
  ghost predicate ScansAre(scanned: seq<Text>, rows: seq<CodeRow>, outstanding: seq<CodeRow>) {
    && |rows| == |scanned|
    && (forall i :: 0 <= i < |scanned| ==> rows[i] in outstanding && Parse(scanned[i]) == Ok(rows[i].code))
    && (forall i, j :: 0 <= i < j < |scanned| ==> rows[i].code != rows[j].code)
  }

  /** The codes a table holds: as a unique index has them, every one from a parse. */
  ghost predicate CodeTable(rows: seq<CodeRow>) {
    && Distinct(rows, CodeId) && Distinct(rows, CodeOf)
    && forall r :: r in rows ==> |r.code.gtin| == 14
  }

  /** On such a table a key names one row. */
  lemma ByKeyFinds(outstanding: seq<CodeRow>, code: MarkedCode)
    requires CodeTable(outstanding) && |code.gtin| == 14
    ensures
      var r := ByKey(outstanding, MarkedCodeKey(code));
      && (r.Some? ==> r.value in outstanding && r.value.code == code)
      && (forall row :: row in outstanding && row.code == code ==> r == Some(row))
  {
    var r := ByKey(outstanding, MarkedCodeKey(code));
    if r.Some? {
      SameKey(r.value.code, code);
    }
    forall row | row in outstanding && row.code == code
      ensures r == Some(row)
    {
      assert MarkedCodeKey(row.code) == MarkedCodeKey(code);
      SameKeySameElement(outstanding, CodeOf, row, r.value);
    }
  }

  /** What a run of accepted scans found. */
  lemma {:induction false} ScannedMeans(scanned: seq<Text>, seen: set<Text>, outstanding: seq<CodeRow>)
    returns (rows: seq<CodeRow>)
    requires CodeTable(outstanding) && Scanned(scanned, seen, outstanding).Ok?
    ensures ScansAre(scanned, rows, outstanding)
    ensures Scanned(scanned, seen, outstanding).value == Ids(rows)
    ensures forall i :: 0 <= i < |rows| ==> MarkedCodeKey(rows[i].code) !in seen
  {
    hide Parse, MarkedCodeKey, CodeTable;
    if scanned == [] {
      rows := [];
    } else {
      var code := Parse(scanned[0]).value;
      ParsesIff(scanned[0], code);
      ByKeyFinds(outstanding, code);
      var row := ByKey(outstanding, MarkedCodeKey(code)).value;
      var rest := ScannedMeans(scanned[1..], seen + {MarkedCodeKey(code)}, outstanding);
      rows := [row] + rest;
      assert rows[1..] == rest;
      forall i | 0 <= i < |scanned|
        ensures rows[i] in outstanding && Parse(scanned[i]) == Ok(rows[i].code)
      {
        if i > 0 {
          assert scanned[i] == scanned[1..][i - 1];
        }
      }
    }
  }

  /** Scans of different outstanding codes are accepted. */
  lemma {:induction false} ScansAccepted(
    scanned: seq<Text>, seen: set<Text>, outstanding: seq<CodeRow>, rows: seq<CodeRow>)
    requires CodeTable(outstanding) && ScansAre(scanned, rows, outstanding)
    requires forall i :: 0 <= i < |rows| ==> MarkedCodeKey(rows[i].code) !in seen
    ensures Scanned(scanned, seen, outstanding) == Ok(Ids(rows))
  {
    if scanned != [] {
      var code := rows[0].code;
      ByKeyFinds(outstanding, code);
      var next := seen + {MarkedCodeKey(code)};
      forall i | 0 <= i < |rows[1..]|
        ensures MarkedCodeKey(rows[1..][i].code) !in next
      {
        assert rows[1..][i] == rows[i + 1];
        SameKey(rows[i + 1].code, code);
      }
      forall i | 0 <= i < |scanned[1..]|
        ensures rows[1..][i] in outstanding && Parse(scanned[1..][i]) == Ok(rows[1..][i].code)
      {
        assert rows[1..][i] == rows[i + 1] && scanned[1..][i] == scanned[i + 1];
      }
      ScansAccepted(scanned[1..], next, outstanding, rows[1..]);
    }
  }

  /** When a pick is accepted: there are no codes to speak of, or the scans are as many different
      outstanding codes as there are goods, or nothing was scanned and all that is outstanding goes. */
  lemma PickIff(quantity: real, outstanding: seq<CodeRow>, scanned: seq<Text>)
    requires CodeTable(outstanding)
    ensures Pick(quantity, outstanding, scanned).Ok? <==>
      || (outstanding == [] && scanned == [])
      || (scanned != [] && |scanned| as real == quantity && exists rows :: ScansAre(scanned, rows, outstanding))
      || (scanned == [] && quantity == |outstanding| as real)
  {
    hide Scanned, ScansAre;
    if scanned != [] && |scanned| as real == quantity {
      if Scanned(scanned, {}, outstanding).Ok? {
        var rows := ScannedMeans(scanned, {}, outstanding);
      }
      if exists rows :: ScansAre(scanned, rows, outstanding) {
        var rows :| ScansAre(scanned, rows, outstanding);
        ScansAccepted(scanned, {}, outstanding, rows);
      }
    }
  }

  /** The rows of a pick are the rows of what was scanned, or all there are when nothing was: different
      rows of the table, as many as the goods unless no code of these goods is known at all. */
  lemma PickMeans(quantity: real, outstanding: seq<CodeRow>, scanned: seq<Text>) returns (rows: seq<CodeRow>)
    requires CodeTable(outstanding) && Pick(quantity, outstanding, scanned).Ok?
    ensures Names(Pick(quantity, outstanding, scanned).value, rows, outstanding)
    ensures |rows| as real == quantity || outstanding == rows == []
    ensures if scanned != [] then ScansAre(scanned, rows, outstanding) else rows == outstanding
  {
    if outstanding == [] && scanned == [] {
      rows := [];
    } else if scanned != [] {
      rows := ScannedMeans(scanned, {}, outstanding);
      MapSeqAt(rows, CodeId);
      forall i, j | 0 <= i < j < |rows|
        ensures rows[i].id != rows[j].id
      {
        if rows[i].id == rows[j].id {
          SameKeySameElement(outstanding, CodeId, rows[i], rows[j]);
        }
      }
    } else {
      rows := outstanding;
      MapSeqAt(rows, CodeId);
      IdsDiffer(rows);
    }
  }

  /** The first scan that is no code, repeats an earlier one or is no code of these goods decides. */
  lemma {:induction false} FirstBadScan(
    scanned: seq<Text>, seen: set<Text>, outstanding: seq<CodeRow>, rows: seq<CodeRow>, k: nat)
    requires CodeTable(outstanding) && k < |scanned| && ScansAre(scanned[..k], rows, outstanding)
    requires forall i :: 0 <= i < k ==> MarkedCodeKey(rows[i].code) !in seen
    ensures Parse(scanned[k]).Err? ==> Scanned(scanned, seen, outstanding) == Err(UnreadableScan(scanned[k]))
    ensures Parse(scanned[k]).Ok? ==>
      var key := MarkedCodeKey(Parse(scanned[k]).value);
      var repeated := key in seen || exists i :: 0 <= i < k && Parse(scanned[i]) == Parse(scanned[k]);
      && (repeated ==> Scanned(scanned, seen, outstanding) == Err(DuplicateScan(key)))
      && (!repeated && (forall row :: row in outstanding ==> row.code != Parse(scanned[k]).value) ==>
            Scanned(scanned, seen, outstanding) == Err(NotInSale(key)))
  {
    hide Parse, MarkedCodeKey;
    if Parse(scanned[k]).Ok? {
      ParsesIff(scanned[k], Parse(scanned[k]).value);
      ByKeyFinds(outstanding, Parse(scanned[k]).value);
    }
    if k > 0 {
      var first := rows[0].code;
      assert scanned[..k][0] == scanned[0] && rows[0] in outstanding;
      assert Parse(scanned[0]) == Ok(first);
      ByKeyFinds(outstanding, first);
      var rest, next := scanned[1..], seen + {MarkedCodeKey(first)};
      TailScans(scanned, rows, outstanding, k);
      forall i | 0 <= i < k - 1
        ensures MarkedCodeKey(rows[1..][i].code) !in next
      {
        assert rows[1..][i] == rows[i + 1] && rows[i + 1] in outstanding;
        SameKey(rows[i + 1].code, first);
      }
      FirstBadScan(rest, next, outstanding, rows[1..], k - 1);
      assert rest[k - 1] == scanned[k];
      if Parse(scanned[k]).Ok? {
        SameKey(Parse(scanned[k]).value, first);
        RepeatedInTail(scanned, k);
      }
    }
  }

  lemma RepeatedInTail(scanned: seq<Text>, k: nat)
    requires 0 < k < |scanned|
    ensures
      (exists i :: 0 <= i < k && Parse(scanned[i]) == Parse(scanned[k])) <==>
      || Parse(scanned[0]) == Parse(scanned[k])
      || exists i :: 0 <= i < k - 1 && Parse(scanned[1..][i]) == Parse(scanned[1..][k - 1])
  {
    hide Parse;
    var rest := scanned[1..];
    assert forall i :: 1 <= i < |scanned| ==> scanned[i] == rest[i - 1];
    assert forall i :: 0 <= i < |rest| ==> rest[i] == scanned[i + 1];
  }

  lemma TailScans(scanned: seq<Text>, rows: seq<CodeRow>, outstanding: seq<CodeRow>, k: nat)
    requires 0 < k < |scanned| && ScansAre(scanned[..k], rows, outstanding)
    ensures ScansAre(scanned[1..][..k - 1], rows[1..], outstanding)
  {
    hide Parse;
    forall i | 0 <= i < k - 1
      ensures rows[1..][i] in outstanding && Parse(scanned[1..][..k - 1][i]) == Ok(rows[1..][i].code)
    {
      assert rows[1..][i] == rows[i + 1] && scanned[1..][..k - 1][i] == scanned[..k][i + 1];
    }
  }

  /** What refuses a pick, and with what figures. */
  lemma PickRefused(quantity: real, outstanding: seq<CodeRow>, scanned: seq<Text>, rows: seq<CodeRow>, k: nat)
    requires CodeTable(outstanding)
    ensures scanned == [] && outstanding != [] && quantity != |outstanding| as real ==>
      Pick(quantity, outstanding, scanned) == Err(NeedScan(quantity, |outstanding|))
    ensures scanned != [] && quantity != |scanned| as real ==>
      Pick(quantity, outstanding, scanned) == Err(ScanMismatch(|scanned|, quantity))
    ensures
      && quantity == |scanned| as real && k < |scanned| && ScansAre(scanned[..k], rows, outstanding)
      && (Parse(scanned[k]).Ok? ==>
            || (exists i :: 0 <= i < k && Parse(scanned[i]) == Parse(scanned[k]))
            || forall row :: row in outstanding ==> row.code != Parse(scanned[k]).value) ==>
        Pick(quantity, outstanding, scanned) == Err(
          if Parse(scanned[k]).Err? then UnreadableScan(scanned[k])
          else
            var key := MarkedCodeKey(Parse(scanned[k]).value);
            if exists i :: 0 <= i < k && Parse(scanned[i]) == Parse(scanned[k]) then DuplicateScan(key)
            else NotInSale(key))
  {
    hide Parse, MarkedCodeKey, Scanned, ScansAre, CodeTable;
    if k < |scanned| && ScansAre(scanned[..k], rows, outstanding) {
      AsManyRows(scanned[..k], rows, outstanding);
      FirstBadScan(scanned, {}, outstanding, rows, k);
    }
  }

  lemma AsManyRows(scanned: seq<Text>, rows: seq<CodeRow>, outstanding: seq<CodeRow>)
    requires ScansAre(scanned, rows, outstanding)
    ensures |rows| == |scanned|
  {
  }

  lemma {:induction false} IdsDiffer(rows: seq<CodeRow>)
    requires Distinct(rows, CodeId)
    ensures forall i, j :: 0 <= i < j < |rows| ==> rows[i].id != rows[j].id
  {
    if rows != [] {
      IdsDiffer(rows[1..]);
      forall i, j | 0 <= i < j < |rows|
        ensures rows[i].id != rows[j].id
      {
        assert rows[j] == rows[1..][j - 1];
        assert rows[j] in rows[1..];
        if i > 0 {
          assert rows[i] == rows[1..][i - 1];
        } else {
          assert CodeId(rows[j]) != CodeId(rows[0]);
        }
      }
    }
  }

  // ------------------------------------------------------------ a whole document

  datatype DocumentLine = DocumentLine(productId: string, quantity: real, codes: Option<seq<Text>>)

  datatype Entry = Entry(quantity: real, scanned: seq<Text>)

  const NoEntry := Entry(0.0, [])

  function AddLine(m: seq<(string, Entry)>, line: DocumentLine): seq<(string, Entry)> {
    var entry := GetOr(m, line.productId, NoEntry);
    Set(m, line.productId,
        Entry(entry.quantity + line.quantity, entry.scanned + if line.codes.Some? then line.codes.value else []))
  }

  function Groups(lines: seq<DocumentLine>): seq<(string, Entry)> {
    if lines == [] then [] else AddLine(Groups(lines[..|lines| - 1]), lines[|lines| - 1])
  }

  function IsOf(productId: string): CodeRow -> bool {
    (r: CodeRow) => r.productId == productId
  }

  function PlanGroups(groups: seq<(string, Entry)>, outstanding: seq<CodeRow>): Result<seq<string>, PickRefusal> {
    if groups == [] then Ok([])
    else
      match Pick(groups[0].1.quantity, Filter(outstanding, IsOf(groups[0].0)), groups[0].1.scanned)
      case Err(refusal) => Err(refusal)
      case Ok(ids) => Found(ids, PlanGroups(groups[1..], outstanding))
  }

  function Plan(outstanding: seq<CodeRow>, lines: seq<DocumentLine>): Result<seq<string>, PickRefusal> {
    if outstanding == [] then Ok([]) else PlanGroups(Groups(lines), outstanding)
  }

  method PlanDocumentCodes(outstanding: seq<CodeRow>, lines: seq<DocumentLine>)
    returns (plan: Result<seq<string>, PickRefusal>)
    ensures plan == Plan(outstanding, lines)
  {
    if outstanding == [] {
      return Ok([]);
    }
    var byProduct: seq<(string, Entry)> := [];
    var i := 0;
    while i < |lines|
      invariant i <= |lines|
      invariant byProduct == Groups(lines[..i])
    {
      assert lines[..i + 1][..i] == lines[..i];
      byProduct := AddLine(byProduct, lines[i]);
      i := i + 1;
    }
    assert lines[..i] == lines;
    plan := PickEachProduct(byProduct, outstanding);
  }

  method PickEachProduct(byProduct: seq<(string, Entry)>, outstanding: seq<CodeRow>)
    returns (plan: Result<seq<string>, PickRefusal>)
    ensures plan == PlanGroups(byProduct, outstanding)
  {
    hide Pick;
    var codeIds: seq<string> := [];
    var i := 0;
    assert byProduct[0..] == byProduct;
    FoundNothing(PlanGroups(byProduct, outstanding));
    while i < |byProduct|
      invariant i <= |byProduct|
      invariant PlanGroups(byProduct, outstanding) == Found(codeIds, PlanGroups(byProduct[i..], outstanding))
    {
      assert byProduct[i..][1..] == byProduct[i + 1..];
      var (productId, entry) := byProduct[i];
      var picked := PickCodes(entry.quantity, Filter(outstanding, IsOf(productId)), entry.scanned);
      if picked.Err? {
        return picked;
      }
      FoundMore(codeIds, picked.value, PlanGroups(byProduct[i + 1..], outstanding));
      codeIds := codeIds + picked.value;
      i := i + 1;
    }
    assert codeIds + [] == codeIds;
    plan := Ok(codeIds);
  }

  lemma FoundMore(ids: seq<string>, more: seq<string>, rest: Result<seq<string>, PickRefusal>)
    ensures Found(ids, Found(more, rest)) == Found(ids + more, rest)
  {
    if rest.Ok? {
      assert ids + (more + rest.value) == ids + more + rest.value;
    }
  }

  // ---------------------------------------------------- what a document means

  ghost predicate NoIdTwice(ids: seq<string>) {
    forall i, j :: 0 <= i < j < |ids| ==> ids[i] != ids[j]
  }

  ghost function SetOf(ids: seq<string>): set<string> {
    set id | id in ids
  }

  ghost function IdsOf(rows: seq<CodeRow>, productId: string): set<string> {
    set r | r in rows && r.productId == productId :: r.id
  }

  lemma {:induction false} NoIdTwiceSize(ids: seq<string>)
    requires NoIdTwice(ids)
    ensures |SetOf(ids)| == |ids|
  {
    if ids != [] {
      var front := ids[..|ids| - 1];
      NoIdTwiceSize(front);
      assert SetOf(ids) == SetOf(front) + {ids[|ids| - 1]};
    }
  }

  /** How much of a product the lines move. */
  function Moves(productId: string): DocumentLine -> real {
    (l: DocumentLine) => if l.productId == productId then l.quantity else 0.0
  }

  lemma {:induction false} GroupsKeyed(lines: seq<DocumentLine>)
    ensures Keyed(Groups(lines))
  {
    if lines != [] {
      var front, line := lines[..|lines| - 1], lines[|lines| - 1];
      GroupsKeyed(front);
      hide Keyed, Set;
      var entry := GetOr(Groups(front), line.productId, NoEntry);
      SetKeyed(Groups(front), line.productId,
               Entry(entry.quantity + line.quantity,
                     entry.scanned + if line.codes.Some? then line.codes.value else []));
    }
  }

  lemma AddLineQuantity(m: seq<(string, Entry)>, line: DocumentLine, productId: string)
    ensures GetOr(AddLine(m, line), productId, NoEntry).quantity ==
      GetOr(m, productId, NoEntry).quantity + Moves(productId)(line)
  {
    var entry := GetOr(m, line.productId, NoEntry);
    GetSet(m, line.productId,
           Entry(entry.quantity + line.quantity,
                 entry.scanned + if line.codes.Some? then line.codes.value else []), productId);
  }

  lemma {:induction false} GroupsQuantity(lines: seq<DocumentLine>, productId: string)
    ensures GetOr(Groups(lines), productId, NoEntry).quantity == SumBy(lines, Moves(productId))
  {
    hide AddLine;
    if lines != [] {
      var front, last := lines[..|lines| - 1], [lines[|lines| - 1]];
      GroupsQuantity(front, productId);
      AddLineQuantity(Groups(front), last[0], productId);
      SumByConcat(front, last, Moves(productId));
      assert last[1..] == [] && lines == front + last;
    }
  }

  /** One product's part of the plan. */
  lemma PickIds(quantity: real, outstanding: seq<CodeRow>, productId: string, scanned: seq<Text>)
    requires CodeTable(outstanding)
    requires Pick(quantity, Filter(outstanding, IsOf(productId)), scanned).Ok?
    ensures
      var ids := Pick(quantity, Filter(outstanding, IsOf(productId)), scanned).value;
      && NoIdTwice(ids) && SetOf(ids) <= IdsOf(outstanding, productId)
      && (|SetOf(ids)| as real == quantity || (IdsOf(outstanding, productId) == {} && ids == []))
  {
    hide Pick;
    var own := Filter(outstanding, IsOf(productId));
    DistinctFilter(outstanding, CodeId, IsOf(productId));
    DistinctFilter(outstanding, CodeOf, IsOf(productId));
    var rows := PickMeans(quantity, own, scanned);
    var ids := Pick(quantity, own, scanned).value;
    NoIdTwiceSize(ids);
    forall id | id in SetOf(ids)
      ensures id in IdsOf(outstanding, productId)
    {
      var i :| 0 <= i < |ids| && ids[i] == id;
      assert rows[i] in own;
    }
    assert forall r :: r in outstanding && IsOf(productId)(r) ==> r in own;
    assert own == [] ==> IdsOf(outstanding, productId) == {};
  }

  lemma OtherProductsIds(outstanding: seq<CodeRow>, p: string, q: string)
    requires CodeTable(outstanding) && p != q
    ensures IdsOf(outstanding, p) * IdsOf(outstanding, q) == {}
  {
    forall id | id in IdsOf(outstanding, p) && id in IdsOf(outstanding, q)
      ensures false
    {
      var a :| a in outstanding && a.productId == p && a.id == id;
      var b :| b in outstanding && b.productId == q && b.id == id;
      SameKeySameElement(outstanding, CodeId, a, b);
    }
  }

  /** The plan of the groups, seen from one product. */
  lemma {:induction false} PlanGroupsMeans(groups: seq<(string, Entry)>, outstanding: seq<CodeRow>, p: string)
    requires CodeTable(outstanding) && Keyed(groups) && PlanGroups(groups, outstanding).Ok?
    ensures
      var ids := PlanGroups(groups, outstanding).value;
      && NoIdTwice(ids)
      && (Has(groups, p) ==>
            || |SetOf(ids) * IdsOf(outstanding, p)| as real == Get(groups, p).value.quantity
            || IdsOf(outstanding, p) == {})
      && (!Has(groups, p) ==> SetOf(ids) * IdsOf(outstanding, p) == {})
  {
    hide Pick, CodeTable, IdsOf, SetOf, NoIdTwice, Filter;
    if groups == [] {
      NoIds(IdsOf(outstanding, p));
    } else {
      var (g, entry) := groups[0];
      var first := Pick(entry.quantity, Filter(outstanding, IsOf(g)), entry.scanned).value;
      var rest := PlanGroups(groups[1..], outstanding).value;
      PickIds(entry.quantity, outstanding, g, entry.scanned);
      PlanGroupsMeans(groups[1..], outstanding, p);
      PlanGroupsMeans(groups[1..], outstanding, g);
      GetAbsent(groups[1..], g);
      Apart(first, rest, IdsOf(outstanding, g));
      if p == g {
        OwnPart(SetOf(first), SetOf(rest), IdsOf(outstanding, g));
      } else {
        OtherProductsIds(outstanding, p, g);
        OthersPart(SetOf(first), SetOf(rest), IdsOf(outstanding, g), IdsOf(outstanding, p));
      }
    }
  }

  lemma NoIds(own: set<string>)
    ensures NoIdTwice([]) && SetOf([]) * own == {}
  {
  }

  lemma OwnPart(a: set<string>, b: set<string>, own: set<string>)
    requires a <= own && b * own == {}
    ensures (a + b) * own == a
  {
    UnionMeets(b, a, own);
    assert a + b == b + a && a * own == a;
  }

  lemma OthersPart(a: set<string>, b: set<string>, own: set<string>, other: set<string>)
    requires a <= own && other * own == {}
    ensures (a + b) * other == b * other
  {
    assert a * other == {};
    UnionMeets(a, b, other);
  }

  lemma UnionMeets(a: set<string>, b: set<string>, c: set<string>)
    requires a * c == {}
    ensures (a + b) * c == b * c
  {
    forall x | x in (a + b) * c
      ensures x in b * c
    {
      NotInBoth(c, a, x) by { assert c * a == a * c; }
    }
  }

  lemma NotInBoth(a: set<string>, b: set<string>, x: string)
    requires a * b == {} && x in a
    ensures x !in b
  {
    assert x !in a * b;
  }

  lemma Apart(first: seq<string>, rest: seq<string>, own: set<string>)
    requires NoIdTwice(first) && NoIdTwice(rest) && SetOf(first) <= own && SetOf(rest) * own == {}
    ensures NoIdTwice(first + rest) && SetOf(first + rest) == SetOf(first) + SetOf(rest)
  {
    var all := first + rest;
    forall i, j | 0 <= i < j < |all|
      ensures all[i] != all[j]
    {
      if i < |first| <= j {
        assert all[i] in SetOf(first) && all[j] in SetOf(rest);
        NotInBoth(SetOf(rest), own, all[j]);
      }
    }
  }

  ghost function AllIds(rows: seq<CodeRow>): set<string> {
    set r | r in rows :: r.id
  }

  /** A plan names outstanding codes only. */
  lemma {:induction false} PlanIsOfOutstanding(groups: seq<(string, Entry)>, outstanding: seq<CodeRow>)
    requires CodeTable(outstanding) && PlanGroups(groups, outstanding).Ok?
    ensures SetOf(PlanGroups(groups, outstanding).value) <= AllIds(outstanding)
  {
    hide Pick, CodeTable;
    if groups != [] {
      var (g, entry) := groups[0];
      PickIds(entry.quantity, outstanding, g, entry.scanned);
      PlanIsOfOutstanding(groups[1..], outstanding);
      assert IdsOf(outstanding, g) <= AllIds(outstanding);
    }
  }

  /** A document that is accepted takes no code twice, whatever products its lines name, and takes of
      every product exactly as many codes as goods, unless no code of that product is known here. */
  lemma DocumentTakesWhatItMoves(outstanding: seq<CodeRow>, lines: seq<DocumentLine>, p: string)
    requires CodeTable(outstanding) && Plan(outstanding, lines).Ok?
    ensures
      var ids := Plan(outstanding, lines).value;
      && NoIdTwice(ids)
      && (|SetOf(ids) * IdsOf(outstanding, p)| as real == SumBy(lines, Moves(p)) || IdsOf(outstanding, p) == {})
  {
    hide CodeTable;
    GroupsKeyed(lines);
    GroupsQuantity(lines, p);
    if outstanding != [] {
      PlanGroupsMeans(Groups(lines), outstanding, p);
    }
  }

  // ------------------------------------------ when a document is accepted

  /** All texts scanned for a product, whatever lines they stand on. */
  function ScansOf(lines: seq<DocumentLine>, productId: string): seq<Text> {
    if lines == [] then []
    else
      var last := lines[|lines| - 1];
      ScansOf(lines[..|lines| - 1], productId)
        + if last.productId == productId && last.codes.Some? then last.codes.value else []
  }

  predicate Mentions(lines: seq<DocumentLine>, productId: string) {
    exists i :: 0 <= i < |lines| && lines[i].productId == productId
  }

  lemma AddLineScans(m: seq<(string, Entry)>, line: DocumentLine, productId: string)
    ensures Has(AddLine(m, line), productId) <==> Has(m, productId) || line.productId == productId
    ensures GetOr(AddLine(m, line), productId, NoEntry).scanned == GetOr(m, productId, NoEntry).scanned
      + if line.productId == productId && line.codes.Some? then line.codes.value else []
  {
    var entry := GetOr(m, line.productId, NoEntry);
    GetSet(m, line.productId,
           Entry(entry.quantity + line.quantity,
                 entry.scanned + if line.codes.Some? then line.codes.value else []), productId);
  }

  lemma {:induction false} GroupsScans(lines: seq<DocumentLine>, productId: string)
    ensures GetOr(Groups(lines), productId, NoEntry).scanned == ScansOf(lines, productId)
    ensures Has(Groups(lines), productId) <==> Mentions(lines, productId)
  {
    hide AddLine, GetOr;
    if lines == [] {
      NoGroup(productId);
    } else {
      var front, last := lines[..|lines| - 1], lines[|lines| - 1];
      GroupsScans(front, productId);
      AddLineScans(Groups(front), last, productId);
      assert Mentions(lines, productId) <==> Mentions(front, productId) || last.productId == productId by {
        assert forall i :: 0 <= i < |front| ==> lines[i] == front[i];
        assert lines[|front|] == last;
      }
    }
  }

  lemma NoGroup(productId: string)
    ensures !Has<Entry>([], productId) && GetOr([], productId, NoEntry) == NoEntry
  {
  }

  /** What a product of a document takes, as a group of its own. */
  function Part(outstanding: seq<CodeRow>, lines: seq<DocumentLine>, productId: string)
    : Result<seq<string>, PickRefusal>
  {
    Pick(SumBy(lines, Moves(productId)), Filter(outstanding, IsOf(productId)), ScansOf(lines, productId))
  }

  lemma {:induction false} PlanGroupsIff(groups: seq<(string, Entry)>, outstanding: seq<CodeRow>, id: string)
    ensures PlanGroups(groups, outstanding).Ok? <==>
      forall g :: g in groups ==> Pick(g.1.quantity, Filter(outstanding, IsOf(g.0)), g.1.scanned).Ok?
    ensures PlanGroups(groups, outstanding).Ok? ==>
      (id in PlanGroups(groups, outstanding).value <==>
        exists g :: g in groups && id in Pick(g.1.quantity, Filter(outstanding, IsOf(g.0)), g.1.scanned).value)
  {
    hide Pick, Filter;
    if groups != [] {
      PlanGroupsIff(groups[1..], outstanding, id);
      assert forall g :: g in groups <==> g == groups[0] || g in groups[1..];
    }
  }

  lemma GroupIsPart(lines: seq<DocumentLine>, outstanding: seq<CodeRow>, g: (string, Entry))
    requires g in Groups(lines)
    ensures Mentions(lines, g.0)
    ensures Pick(g.1.quantity, Filter(outstanding, IsOf(g.0)), g.1.scanned) == Part(outstanding, lines, g.0)
  {
    hide Keyed, Pick, Filter;
    GroupsKeyed(lines);
    GetEntry(Groups(lines), g.0);
    assert (g.0, g.1) in Groups(lines);
    GroupsScans(lines, g.0);
    GroupsQuantity(lines, g.0);
  }

  lemma PartHasGroup(lines: seq<DocumentLine>, productId: string) returns (g: (string, Entry))
    requires Mentions(lines, productId)
    ensures g in Groups(lines) && g.0 == productId
  {
    hide Keyed;
    GroupsKeyed(lines);
    GetEntry(Groups(lines), productId);
    GroupsScans(lines, productId);
    g := (productId, Get(Groups(lines), productId).value);
  }

  /** The products of a document may all be picked exactly when each of them may: no code of it is known and
      none scanned, or as many different codes of it are scanned as it moves, or none is scanned and it moves
      all there are. */
  lemma GroupsIff(outstanding: seq<CodeRow>, lines: seq<DocumentLine>)
    requires CodeTable(outstanding)
    ensures PlanGroups(Groups(lines), outstanding).Ok? <==>
      forall p :: Mentions(lines, p) ==> MayMove(outstanding, lines, p)
  {
    hide PlanGroups, Groups, CodeTable, Mentions, MayMove, Pick, Part;
    PlanGroupsIff(Groups(lines), outstanding, "");
    forall g | g in Groups(lines)
      ensures Mentions(lines, g.0)
      ensures Pick(g.1.quantity, Filter(outstanding, IsOf(g.0)), g.1.scanned) == Part(outstanding, lines, g.0)
    {
      GroupIsPart(lines, outstanding, g);
    }
    forall p
      ensures MayMove(outstanding, lines, p) <==> Part(outstanding, lines, p).Ok?
    {
      PartIff(outstanding, lines, p);
    }
    if PlanGroups(Groups(lines), outstanding).Ok? {
      forall p | Mentions(lines, p)
        ensures MayMove(outstanding, lines, p)
      {
        var g := PartHasGroup(lines, p);
      }
    }
  }

  /** A document is accepted exactly when nothing is outstanding, or every product it names may be picked. */
  lemma DocumentIff(outstanding: seq<CodeRow>, lines: seq<DocumentLine>)
    requires CodeTable(outstanding)
    ensures Plan(outstanding, lines).Ok? <==>
      outstanding == [] || forall p :: Mentions(lines, p) ==> MayMove(outstanding, lines, p)
  {
    GroupsIff(outstanding, lines);
  }

  ghost predicate MayMove(outstanding: seq<CodeRow>, lines: seq<DocumentLine>, productId: string) {
    var own, scans, moved := Filter(outstanding, IsOf(productId)), ScansOf(lines, productId),
                             SumBy(lines, Moves(productId));
    || (own == [] && scans == [])
    || (scans != [] && |scans| as real == moved && exists rows :: ScansAre(scans, rows, own))
    || (scans == [] && moved == |own| as real)
  }

  lemma PartIff(outstanding: seq<CodeRow>, lines: seq<DocumentLine>, productId: string)
    requires CodeTable(outstanding)
    ensures MayMove(outstanding, lines, productId) <==> Part(outstanding, lines, productId).Ok?
  {
    hide Pick, ScansOf, ScansAre;
    DistinctFilter(outstanding, CodeId, IsOf(productId));
    DistinctFilter(outstanding, CodeOf, IsOf(productId));
    PickIff(SumBy(lines, Moves(productId)), Filter(outstanding, IsOf(productId)), ScansOf(lines, productId));
  }

  /** A document takes this row: it names its product, and scans this code of it or none at all. */
  ghost predicate Claims(lines: seq<DocumentLine>, row: CodeRow) {
    && Mentions(lines, row.productId)
    && (ScansOf(lines, row.productId) == []
        || exists text :: text in ScansOf(lines, row.productId) && Parse(text) == Ok(row.code))
  }

  lemma GroupsTakeTheClaimed(outstanding: seq<CodeRow>, lines: seq<DocumentLine>, row: CodeRow)
    requires CodeTable(outstanding) && PlanGroups(Groups(lines), outstanding).Ok? && row in outstanding
    ensures row.id in PlanGroups(Groups(lines), outstanding).value <==> Claims(lines, row)
  {
    hide PlanGroups, Groups, CodeTable, Mentions, Pick, Part, ScansOf, Parse, Filter;
    PlanGroupsIff(Groups(lines), outstanding, row.id);
    forall g | g in Groups(lines)
      ensures Mentions(lines, g.0)
      ensures Pick(g.1.quantity, Filter(outstanding, IsOf(g.0)), g.1.scanned) == Part(outstanding, lines, g.0)
      ensures row.id in Part(outstanding, lines, g.0).value <==>
        && g.0 == row.productId
        && (ScansOf(lines, row.productId) == []
            || exists text :: text in ScansOf(lines, row.productId) && Parse(text) == Ok(row.code))
    {
      GroupIsPart(lines, outstanding, g);
      PartTakes(outstanding, lines, g.0, row);
    }
    if Mentions(lines, row.productId) {
      var g := PartHasGroup(lines, row.productId);
    }
  }

  /** The codes an accepted document takes: of every product it names, those that were scanned, or all
      there are when none was. */
  lemma DocumentTakesTheScanned(outstanding: seq<CodeRow>, lines: seq<DocumentLine>, row: CodeRow)
    requires CodeTable(outstanding) && Plan(outstanding, lines).Ok? && row in outstanding
    ensures row.id in Plan(outstanding, lines).value <==>
      && Mentions(lines, row.productId)
      && (ScansOf(lines, row.productId) == []
          || exists text :: text in ScansOf(lines, row.productId) && Parse(text) == Ok(row.code))
  {
    GroupsTakeTheClaimed(outstanding, lines, row);
  }

  lemma PartTakes(outstanding: seq<CodeRow>, lines: seq<DocumentLine>, productId: string, row: CodeRow)
    requires CodeTable(outstanding) && Part(outstanding, lines, productId).Ok? && row in outstanding
    ensures row.id in Part(outstanding, lines, productId).value <==>
      && productId == row.productId
      && (ScansOf(lines, productId) == []
          || exists text :: text in ScansOf(lines, productId) && Parse(text) == Ok(row.code))
  {
    hide Pick, ScansOf, Parse;
    var own, scans := Filter(outstanding, IsOf(productId)), ScansOf(lines, productId);
    DistinctFilter(outstanding, CodeId, IsOf(productId));
    DistinctFilter(outstanding, CodeOf, IsOf(productId));
    var rows := PickMeans(SumBy(lines, Moves(productId)), own, scans);
    var ids := Part(outstanding, lines, productId).value;
    if row.id in ids {
      var i :| 0 <= i < |ids| && ids[i] == row.id;
      SameKeySameElement(outstanding, CodeId, rows[i], row);
      if scans != [] {
        assert scans[i] in scans;
      }
    }
    if productId == row.productId {
      assert row in own;
      if scans == [] {
        var i :| 0 <= i < |rows| && rows[i] == row;
        assert ids[i] == row.id;
      } else if exists text :: text in scans && Parse(text) == Ok(row.code) {
        var text :| text in scans && Parse(text) == Ok(row.code);
        var i :| 0 <= i < |scans| && scans[i] == text;
        SameKeySameElement(outstanding, CodeOf, rows[i], row);
        assert ids[i] == row.id;
      }
    }
  }
}
