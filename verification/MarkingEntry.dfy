/** The two ways a code enters the books: with a delivery (apps/api/src/marking-incoming.ts) and
    on goods already on the shelf (apps/api/src/marking-stock.ts). */
module MarkingEntry {
  import opened Lists
  import opened JsText
  import opened JsMap
  import opened Marking
  import opened MarkingService

  datatype IncomingLine = IncomingLine(productId: string, quantity: real, codes: seq<Text>)

  datatype EntryRefusal =
    | Refused(refusal: Refusal)
    | ScannedTwice
    | OnlyByCode(productId: string)
    | NothingScanned
    | AlreadyKnown
    | NoRoom(onHand: real, coded: real)

  type Codes = seq<(string, seq<MarkedCode>)>

  // -------------------------------------------------------------- deliveries

  /** What the lines carry, gathered by product. */
  function Read(lines: seq<IncomingLine>): Result<Codes, EntryRefusal> {
    if lines == [] then Ok([])
    else
      match Read(lines[..|lines| - 1])
      case Err(refusal) => Err(refusal)
      case Ok(m) =>
        var line := lines[|lines| - 1];
        if line.codes == [] then Ok(m)
        else
          match ReadLine(line.codes, line.quantity)
          case Err(refusal) => Err(Refused(refusal))
          case Ok(read) => Ok(Set(m, line.productId, GetOr(m, line.productId, []) + read))
  }

  predicate EachWithoutDuplicate(m: Codes) {
    forall i :: 0 <= i < |m| ==> NoKeyTwice(m[i].1)
  }

  function AmountOf(line: IncomingLine): Amount {
    Amount(line.productId, line.quantity)
  }

  function Amounts(lines: seq<IncomingLine>): seq<Amount> {
    if lines == [] then [] else Amounts(lines[..|lines| - 1]) + [AmountOf(lines[|lines| - 1])]
  }

  function CodesPer(m: Codes): string -> nat {
    (p: string) => |GetOr(m, p, [])|
  }

  /** `marked` are the products of this delivery that are sold only by code. */
  function ResolveIncoming(lines: seq<IncomingLine>, marked: seq<string>): Result<Codes, EntryRefusal> {
    match Read(lines)
    case Err(refusal) => Err(refusal)
    case Ok(m) =>
      if !EachWithoutDuplicate(m) then Err(ScannedTwice)
      else
        match Uncovered(marked, CodesPer(m), Totals(Amounts(lines)))
        case Some(productId) => Err(OnlyByCode(productId))
        case None => Ok(m)
  }

  method ResolveIncomingCodes(lines: seq<IncomingLine>, marked: seq<string>)
    returns (result: Result<Codes, EntryRefusal>)
    ensures result == ResolveIncoming(lines, marked)
  {
    hide Read, NoKeyTwice, Totals;
    result := ReadDelivery(lines);
    if result.Err? {
      return;
    }
    var byProduct := result.value;
    var k := 0;
    while k < |byProduct|
      invariant k <= |byProduct|
      invariant forall i :: 0 <= i < k ==> NoKeyTwice(byProduct[i].1)
    {
      var duplicate := FindDuplicate(byProduct[k].1);
      if duplicate.Some? {
        return Err(ScannedTwice);
      }
      k := k + 1;
    }
    result := CheckCovered(lines, marked, byProduct);
  }

  method ReadDelivery(lines: seq<IncomingLine>) returns (result: Result<Codes, EntryRefusal>)
    ensures result == Read(lines)
  {
    hide ReadLine;
    var byProduct: Codes := [];
    var i := 0;
    while i < |lines|
      invariant i <= |lines|
      invariant Read(lines[..i]) == Ok(byProduct)
    {
      assert lines[..i + 1][..i] == lines[..i];
      var line := lines[i];
      i := i + 1;
      if line.codes == [] {
        continue;
      }
      var read := ReadLineCodes(line.codes, line.quantity);
      if read.Err? {
        RefusalStays(lines, i);
        return Err(Refused(read.error));
      }
      byProduct := Set(byProduct, line.productId, GetOr(byProduct, line.productId, []) + read.value);
    }
    assert lines[..i] == lines;
    result := Ok(byProduct);
  }

  lemma {:induction false} RefusalStays(lines: seq<IncomingLine>, k: nat)
    requires k <= |lines| && Read(lines[..k]).Err?
    ensures Read(lines) == Read(lines[..k])
    decreases |lines| - k
  {
    if k < |lines| {
      assert lines[..k + 1][..k] == lines[..k];
      RefusalStays(lines, k + 1);
    } else {
      assert lines[..k] == lines;
    }
  }

  method CheckCovered(lines: seq<IncomingLine>, marked: seq<string>, byProduct: Codes)
    returns (result: Result<Codes, EntryRefusal>)
    ensures result == match Uncovered(marked, CodesPer(byProduct), Totals(Amounts(lines)))
                      case Some(productId) => Err(OnlyByCode(productId))
                      case None => Ok(byProduct)
  {
    var quantityByProduct := TotalByProduct(Amounts(lines));
    var i := 0;
    while i < |marked|
      invariant i <= |marked|
      invariant Uncovered(marked, CodesPer(byProduct), quantityByProduct)
        == Uncovered(marked[i..], CodesPer(byProduct), quantityByProduct)
    {
      assert marked[i..][1..] == marked[i + 1..];
      if |GetOr(byProduct, marked[i], [])| as real != GetOr(quantityByProduct, marked[i], 0.0) {
        return Err(OnlyByCode(marked[i]));
      }
      i := i + 1;
    }
    result := Ok(byProduct);
  }

  // ------------------------------------------------- what a delivery means

  lemma {:induction false} ReadKeyed(lines: seq<IncomingLine>)
    requires Read(lines).Ok?
    ensures Keyed(Read(lines).value)
    ensures forall e, c :: e in Read(lines).value && c in e.1 ==> |c.gtin| == 14
  {
    hide ReadLine;
    if lines != [] {
      var front, line := lines[..|lines| - 1], lines[|lines| - 1];
      ReadKeyed(front);
      if line.codes != [] {
        var m, read := Read(front).value, ReadLine(line.codes, line.quantity).value;
        var own := GetOr(m, line.productId, []);
        SetKeyed(m, line.productId, own + read);
        GetEntry(m, line.productId);
        ReadLineIff(line.codes, line.quantity, read);
        forall c | c in read
          ensures |c.gtin| == 14
        {
          var i :| 0 <= i < |read| && read[i] == c;
          ParsesIff(line.codes[i], c);
        }
        forall e, c | e in Read(lines).value && c in e.1
          ensures |c.gtin| == 14
        {
          if e !in m {
            assert c in own || c in read;
          }
        }
      }
    }
  }

  /** No product gets more codes than units: lines with scans bring as many, lines without bring none. */
  lemma {:induction false} CodesWithinUnits(lines: seq<IncomingLine>, p: string)
    requires Read(lines).Ok? && forall l :: l in lines ==> l.quantity >= 0.0
    ensures |GetOr(Read(lines).value, p, [])| as real <= SumBy(Amounts(lines), Of(p))
  {
    hide ReadLine;
    if lines != [] {
      var front, last := lines[..|lines| - 1], lines[|lines| - 1];
      assert last in lines;
      CodesWithinUnits(front, p);
      var one := [AmountOf(last)];
      SumByConcat(Amounts(front), one, Of(p));
      assert one[1..] == [];
      if last.codes != [] {
        var m, read := Read(front).value, ReadLine(last.codes, last.quantity).value;
        ReadLineIff(last.codes, last.quantity, read);
        GetSet(m, last.productId, GetOr(m, last.productId, []) + read, p);
      }
    }
  }

  /** An accepted delivery brings every product sold only by code exactly one code a unit, any
      other product no more codes than units, and repeats no code within one product. */
  lemma IncomingMeans(lines: seq<IncomingLine>, marked: seq<string>, p: string)
    requires ResolveIncoming(lines, marked).Ok? && forall l :: l in lines ==> l.quantity >= 0.0
    ensures
      var codes := GetOr(ResolveIncoming(lines, marked).value, p, []);
      && NoKeyTwice(codes) && |codes| as real <= SumBy(Amounts(lines), Of(p))
      && (p in marked ==> |codes| as real == SumBy(Amounts(lines), Of(p)))
  {
    hide Read, Uncovered, NoKeyTwice;
    var m := ResolveIncoming(lines, marked).value;
    CodesWithinUnits(lines, p);
    UncoveredNone(marked, CodesPer(m), Totals(Amounts(lines)));
    TotalsAreSums(Amounts(lines), p);
    ReadKeyed(lines);
    GetEntry(m, p);
    NoneTwiceInNone();
    if Has(m, p) {
      assert (p, Get(m, p).value) in m;
    }
  }

  lemma NoneTwiceInNone()
    ensures NoKeyTwice([])
  {
  }

  // ------------------------------------------- when a delivery is accepted

  /** All texts scanned for a product, and all units of it, whatever lines they stand on. */
  function TextsOf(lines: seq<IncomingLine>, productId: string): seq<Text> {
    if lines == [] then []
    else
      var last := lines[|lines| - 1];
      TextsOf(lines[..|lines| - 1], productId) + if last.productId == productId then last.codes else []
  }

  function UnitsOf(lines: seq<IncomingLine>, productId: string): real {
    if lines == [] then 0.0
    else
      var last := lines[|lines| - 1];
      UnitsOf(lines[..|lines| - 1], productId) + if last.productId == productId then last.quantity else 0.0
  }

  /** A line without scans says nothing; one with scans brings a readable one for every unit. */
  ghost predicate Reads(line: IncomingLine) {
    line.codes == [] || (|line.codes| as real == line.quantity && exists read :: AllParse(line.codes, read))
  }

  ghost predicate RepeatsNothing(texts: seq<Text>) {
    forall i, j :: 0 <= i < j < |texts| ==> Parse(texts[i]) != Parse(texts[j])
  }

  /** No code of a product is scanned twice in a delivery. */
  ghost predicate Once(lines: seq<IncomingLine>, productId: string) {
    RepeatsNothing(TextsOf(lines, productId))
  }

  lemma ReadsIff(line: IncomingLine)
    ensures Reads(line) <==> line.codes == [] || ReadLine(line.codes, line.quantity).Ok?
  {
    hide ReadLine, AllParse;
    if line.codes != [] {
      if ReadLine(line.codes, line.quantity).Ok? {
        ReadLineIff(line.codes, line.quantity, ReadLine(line.codes, line.quantity).value);
      }
      if Reads(line) {
        var read :| AllParse(line.codes, read);
        ReadLineIff(line.codes, line.quantity, read);
      }
    }
  }

  lemma {:induction false} ReadIff(lines: seq<IncomingLine>)
    ensures Read(lines).Ok? <==> forall l :: l in lines ==> Reads(l)
  {
    hide ReadLine, Reads;
    if lines != [] {
      var front, last := lines[..|lines| - 1], lines[|lines| - 1];
      ReadIff(front);
      ReadsIff(last);
      assert forall l :: l in lines <==> l in front || l == last;
    }
  }

  lemma AllParseConcat(a: seq<Text>, b: seq<Text>, x: seq<MarkedCode>, y: seq<MarkedCode>)
    requires AllParse(a, x) && AllParse(b, y)
    ensures AllParse(a + b, x + y)
  {
    hide Parse;
  }

  /** What was read for a product is what its scans say, in their order. */
  lemma {:induction false} ReadInOrder(lines: seq<IncomingLine>, p: string)
    requires Read(lines).Ok?
    ensures AllParse(TextsOf(lines, p), GetOr(Read(lines).value, p, []))
  {
    hide ReadLine, AllParse;
    if lines == [] {
      NothingParses();
    } else {
      var front, last := lines[..|lines| - 1], lines[|lines| - 1];
      ReadInOrder(front, p);
      var m := Read(front).value;
      if last.codes == [] {
        assert TextsOf(front, p) + [] == TextsOf(front, p);
      } else {
        var read := ReadLine(last.codes, last.quantity).value;
        ReadLineIff(last.codes, last.quantity, read);
        GetSet(m, last.productId, GetOr(m, last.productId, []) + read, p);
        if last.productId == p {
          AllParseConcat(TextsOf(front, p), last.codes, GetOr(m, p, []), read);
        } else {
          assert TextsOf(front, p) + [] == TextsOf(front, p);
        }
      }
    }
  }

  lemma NothingParses()
    ensures AllParse([], []) && forall p :: Get<seq<MarkedCode>>([], p) == None
  {
  }

  lemma {:induction false} UnitsAreTotals(lines: seq<IncomingLine>, p: string)
    ensures GetOr(Totals(Amounts(lines)), p, 0.0) == UnitsOf(lines, p)
  {
    TotalsAreSums(Amounts(lines), p);
    SumOfUnits(lines, p);
  }

  lemma {:induction false} SumOfUnits(lines: seq<IncomingLine>, p: string)
    ensures SumBy(Amounts(lines), Of(p)) == UnitsOf(lines, p)
  {
    if lines != [] {
      var front, last := lines[..|lines| - 1], lines[|lines| - 1];
      SumOfUnits(front, p);
      SumByConcat(Amounts(front), [AmountOf(last)], Of(p));
      assert [AmountOf(last)][1..] == [];
    }
  }

  lemma RepeatsIff(texts: seq<Text>, read: seq<MarkedCode>)
    requires AllParse(texts, read)
    ensures NoKeyTwice(read) <==> RepeatsNothing(texts)
  {
    NoKeyTwiceIsNoCodeTwice(texts, read);
    hide Parse, NoKeyTwice;
    forall i, j | 0 <= i < j < |texts|
      ensures Parse(texts[i]) == Parse(texts[j]) <==> read[i] == read[j]
    {
    }
  }

  lemma NoProductRepeats(lines: seq<IncomingLine>)
    requires Read(lines).Ok?
    ensures EachWithoutDuplicate(Read(lines).value) <==> forall p :: Once(lines, p)
  {
    hide Read, NoKeyTwice, RepeatsNothing, AllParse, Keyed, TextsOf;
    var m := Read(lines).value;
    ReadKeyed(lines);
    if EachWithoutDuplicate(m) {
      forall p
        ensures Once(lines, p)
      {
        ReadInOrder(lines, p);
        RepeatsIff(TextsOf(lines, p), GetOr(m, p, []));
        NoneTwiceInNone();
        GetEntry(m, p);
        if Has(m, p) {
          assert (p, Get(m, p).value) in m;
        }
      }
    }
    if forall p :: Once(lines, p) {
      forall i | 0 <= i < |m|
        ensures NoKeyTwice(m[i].1)
      {
        assert Once(lines, m[i].0);
        ReadInOrder(lines, m[i].0);
        RepeatsIff(TextsOf(lines, m[i].0), GetOr(m, m[i].0, []));
        GetEntry(m, m[i].0);
        assert (m[i].0, m[i].1) in m;
      }
    }
  }

  /** Whether the products sold only by code are covered, on the lines as sent. */
  lemma CodesAndUnits(lines: seq<IncomingLine>, p: string)
    requires Read(lines).Ok?
    ensures CodesPer(Read(lines).value)(p) == |TextsOf(lines, p)|
    ensures GetOr(Totals(Amounts(lines)), p, 0.0) == UnitsOf(lines, p)
  {
    hide Read, Totals, Parse, TextsOf;
    ReadInOrder(lines, p);
    UnitsAreTotals(lines, p);
  }

  /** A delivery is accepted exactly when every line with scans brings a readable one for every unit, no
      product repeats a code, and every product sold only by code brings as many as units. */
  lemma IncomingIff(lines: seq<IncomingLine>, marked: seq<string>)
    ensures ResolveIncoming(lines, marked).Ok? <==>
      && (forall l :: l in lines ==> Reads(l))
      && (forall p :: Once(lines, p))
      && (forall p :: p in marked ==> |TextsOf(lines, p)| as real == UnitsOf(lines, p))
  {
    hide Read, TextsOf, UnitsOf, Once, EachWithoutDuplicate, Reads, Uncovered, Totals;
    ReadIff(lines);
    if Read(lines).Ok? {
      NoProductRepeats(lines);
      UncoveredNone(marked, CodesPer(Read(lines).value), Totals(Amounts(lines)));
      forall p
        ensures CodesPer(Read(lines).value)(p) == |TextsOf(lines, p)|
        ensures GetOr(Totals(Amounts(lines)), p, 0.0) == UnitsOf(lines, p)
      {
        CodesAndUnits(lines, p);
      }
    }
  }

  /** What refuses it: the first line that does not read, by its own refusal; then a repeated code; then the
      first product sold only by code whose codes and units differ. */
  lemma IncomingRefusal(lines: seq<IncomingLine>, marked: seq<string>, k: nat)
    ensures
      k < |lines| && (forall i :: 0 <= i < k ==> Reads(lines[i])) && !Reads(lines[k]) ==>
        && ReadLine(lines[k].codes, lines[k].quantity).Err?
        && ResolveIncoming(lines, marked) == Err(Refused(ReadLine(lines[k].codes, lines[k].quantity).error))
    ensures
      (forall l :: l in lines ==> Reads(l)) && (exists p :: !Once(lines, p)) ==>
        ResolveIncoming(lines, marked) == Err(ScannedTwice)
    ensures
      && (forall l :: l in lines ==> Reads(l)) && (forall p :: Once(lines, p))
      && k < |marked| && |TextsOf(lines, marked[k])| as real != UnitsOf(lines, marked[k])
      && (forall i :: 0 <= i < k ==> |TextsOf(lines, marked[i])| as real == UnitsOf(lines, marked[i])) ==>
        ResolveIncoming(lines, marked) == Err(OnlyByCode(marked[k]))
  {
    hide TextsOf, UnitsOf, Once, EachWithoutDuplicate, Reads, Uncovered, Totals, Read, ReadLine;
    ReadIff(lines);
    if k < |lines| && (forall i :: 0 <= i < k ==> Reads(lines[i])) && !Reads(lines[k]) {
      LineRefuses(lines, k);
    }
    if Read(lines).Ok? {
      NoProductRepeats(lines);
      if exists p :: !Once(lines, p) {
        assert !EachWithoutDuplicate(Read(lines).value);
      }
      forall p
        ensures CodesPer(Read(lines).value)(p) == |TextsOf(lines, p)|
        ensures GetOr(Totals(Amounts(lines)), p, 0.0) == UnitsOf(lines, p)
      {
        CodesAndUnits(lines, p);
      }
      if && k < |marked| && |TextsOf(lines, marked[k])| as real != UnitsOf(lines, marked[k])
         && (forall i :: 0 <= i < k ==> |TextsOf(lines, marked[i])| as real == UnitsOf(lines, marked[i])) {
        UncoveredIsFirst(marked, CodesPer(Read(lines).value), Totals(Amounts(lines)), k);
      }
    }
  }

  lemma LineRefuses(lines: seq<IncomingLine>, k: nat)
    requires k < |lines| && (forall i :: 0 <= i < k ==> Reads(lines[i])) && !Reads(lines[k])
    ensures ReadLine(lines[k].codes, lines[k].quantity).Err?
    ensures Read(lines) == Err(Refused(ReadLine(lines[k].codes, lines[k].quantity).error))
  {
    hide Reads, ReadLine;
    forall l | l in lines[..k]
      ensures Reads(l)
    {
      var i :| 0 <= i < k && lines[i] == l;
    }
    ReadIff(lines[..k]);
    ReadsIff(lines[k]);
    assert lines[..k + 1][..k] == lines[..k];
    RefusalStays(lines, k + 1);
  }

  // ------------------------------------------ one code under two products

  /** All codes of a delivery, as the write takes them. */
  function AllCodes(m: Codes): seq<MarkedCode> {
    if m == [] then [] else m[0].1 + AllCodes(m[1..])
  }

  /** Some code is given under two products of the delivery. */
  ghost predicate SharedCode(m: Codes) {
    exists i, j, c :: 0 <= i < j < |m| && c in m[i].1 && c in m[j].1
  }

  lemma {:induction false} InAllCodes(m: Codes, c: MarkedCode)
    ensures c in AllCodes(m) <==> exists i :: 0 <= i < |m| && c in m[i].1
  {
    if m != [] {
      InAllCodes(m[1..], c);
      if exists i :: 0 <= i < |m| && c in m[i].1 {
        var i :| 0 <= i < |m| && c in m[i].1;
        if i > 0 {
          assert m[1..][i - 1] == m[i];
        }
      }
      if c in AllCodes(m[1..]) {
        var i :| 0 <= i < |m[1..]| && c in m[1..][i].1;
        assert c in m[i + 1].1;
      }
    }
  }

  lemma DifferentCodes(codes: seq<MarkedCode>)
    requires forall c :: c in codes ==> |c.gtin| == 14
    ensures NoKeyTwice(codes) <==> forall i, j :: 0 <= i < j < |codes| ==> codes[i] != codes[j]
  {
    hide MarkedCodeKey;
    forall i, j | 0 <= i < j < |codes|
      ensures MarkedCodeKey(codes[i]) == MarkedCodeKey(codes[j]) <==> codes[i] == codes[j]
    {
      SameKey(codes[i], codes[j]);
    }
  }

  lemma {:induction false} GroupedRepeatsNothing(m: Codes)
    requires EachWithoutDuplicate(m) && forall e, c :: e in m && c in e.1 ==> |c.gtin| == 14
    ensures NoKeyTwice(AllCodes(m)) <==> !SharedCode(m)
  {
    hide NoKeyTwice;
    if m == [] {
      NoneTwiceInNone();
    } else {
      var first, rest := m[0].1, AllCodes(m[1..]);
      GroupedRepeatsNothing(m[1..]);
      forall c: MarkedCode | c in first + rest
        ensures |c.gtin| == 14
      {
        if c in first {
          assert m[0] in m;
        } else {
          InAllCodes(m[1..], c);
          var i :| 0 <= i < |m[1..]| && c in m[1..][i].1;
          assert m[1..][i] in m;
        }
      }
      ConcatRepeatsNothing(first, rest);
      SharedTail(m);
    }
  }

  lemma ConcatRepeatsNothing(a: seq<MarkedCode>, b: seq<MarkedCode>)
    requires NoKeyTwice(a) && forall c :: c in a + b ==> |c.gtin| == 14
    ensures NoKeyTwice(a + b) <==> NoKeyTwice(b) && forall c :: c in a ==> c !in b
  {
    hide MarkedCodeKey;
    forall c | c in a || c in b
      ensures c in a + b
    {
    }
    hide NoKeyTwice;
    DifferentCodes(a);
    DifferentCodes(b);
    DifferentCodes(a + b);
    var all := a + b;
    if NoKeyTwice(b) && forall c :: c in a ==> c !in b {
      forall i, j | 0 <= i < j < |all|
        ensures all[i] != all[j]
      {
        if i < |a| <= j {
          assert all[i] in a && all[j] in b;
        }
      }
    }
    if NoKeyTwice(all) {
      forall i, j | 0 <= i < j < |b|
        ensures b[i] != b[j]
      {
        assert all[|a| + i] == b[i] && all[|a| + j] == b[j];
      }
      forall c | c in a
        ensures c !in b
      {
        var i :| 0 <= i < |a| && a[i] == c;
        assert all[i] == c;
        assert forall j :: 0 <= j < |b| ==> all[|a| + j] == b[j];
      }
    }
  }

  lemma SharedTail(m: Codes)
    requires m != []
    ensures SharedCode(m) <==> SharedCode(m[1..]) || exists c :: c in m[0].1 && c in AllCodes(m[1..])
  {
    if SharedCode(m) {
      var i, j, c :| 0 <= i < j < |m| && c in m[i].1 && c in m[j].1;
      assert m[1..][j - 1] == m[j];
      if i == 0 {
        InAllCodes(m[1..], c);
      } else {
        assert m[1..][i - 1] == m[i];
      }
    }
    if SharedCode(m[1..]) {
      var i, j, c :| 0 <= i < j < |m[1..]| && c in m[1..][i].1 && c in m[1..][j].1;
      assert c in m[i + 1].1 && c in m[j + 1].1;
    }
    if exists c :: c in m[0].1 && c in AllCodes(m[1..]) {
      var c :| c in m[0].1 && c in AllCodes(m[1..]);
      InAllCodes(m[1..], c);
      var i :| 0 <= i < |m[1..]| && c in m[1..][i].1;
      assert c in m[i + 1].1;
    }
  }

  /** Some scan of this line is this code. */
  ghost predicate Carries(line: IncomingLine, c: MarkedCode) {
    exists raw :: raw in line.codes && Parse(raw) == Ok(c)
  }

  /** Two lines of different products carry one code. */
  ghost predicate ScannedAsTwoProducts(lines: seq<IncomingLine>) {
    exists a, b, c :: a in lines && b in lines && a.productId != b.productId && Carries(a, c) && Carries(b, c)
  }

  lemma ReadLineCarries(line: IncomingLine, read: seq<MarkedCode>, c: MarkedCode)
    requires ReadLine(line.codes, line.quantity) == Ok(read)
    ensures c in read <==> Carries(line, c)
  {
    hide Parse, ReadLine;
    ReadLineIff(line.codes, line.quantity, read);
    if c in read {
      var i :| 0 <= i < |read| && read[i] == c;
      assert line.codes[i] in line.codes;
    }
    if Carries(line, c) {
      var raw :| raw in line.codes && Parse(raw) == Ok(c);
      var i :| 0 <= i < |line.codes| && line.codes[i] == raw;
      assert read[i] in read;
    }
  }

  /** What was read for a product is what the scans of its lines are. */
  lemma {:induction false} ReadWhatWasScanned(lines: seq<IncomingLine>, p: string, c: MarkedCode)
    requires Read(lines).Ok?
    ensures c in GetOr(Read(lines).value, p, []) <==> exists l :: l in lines && l.productId == p && Carries(l, c)
  {
    hide ReadLine, Carries;
    if lines != [] {
      var front, last := lines[..|lines| - 1], lines[|lines| - 1];
      ReadWhatWasScanned(front, p, c);
      assert forall l :: l in lines <==> l in front || l == last;
      if last.codes == [] {
        NothingCarried(last, c);
      } else {
        var m, read := Read(front).value, ReadLine(last.codes, last.quantity).value;
        ReadLineCarries(last, read, c);
        GetSet(m, last.productId, GetOr(m, last.productId, []) + read, p);
      }
    }
  }

  lemma NothingCarried(line: IncomingLine, c: MarkedCode)
    requires line.codes == []
    ensures !Carries(line, c)
  {
  }

  lemma {:induction false} KeyedAt(m: Codes, i: nat, j: nat)
    requires Keyed(m) && i < j < |m|
    ensures m[i].0 != m[j].0
  {
    if i > 0 {
      KeyedAt(m[1..], i - 1, j - 1);
    } else {
      assert m[j] == m[1..][j - 1] && m[j] in m[1..];
      assert Key<seq<MarkedCode>>()(m[j]) != Key<seq<MarkedCode>>()(m[0]);
    }
  }

  lemma EntryOf(m: Codes, i: nat, c: MarkedCode)
    requires Keyed(m) && i < |m|
    ensures c in m[i].1 <==> c in GetOr(m, m[i].0, [])
  {
    GetEntry(m, m[i].0);
    assert (m[i].0, m[i].1) in m;
  }

  lemma SharedMeansScannedAsTwo(lines: seq<IncomingLine>)
    requires Read(lines).Ok?
    ensures SharedCode(Read(lines).value) <==> ScannedAsTwoProducts(lines)
  {
    hide Read, Carries, Keyed, Get;
    var m := Read(lines).value;
    ReadKeyed(lines);
    if SharedCode(m) {
      var i, j, c :| 0 <= i < j < |m| && c in m[i].1 && c in m[j].1;
      KeyedAt(m, i, j);
      EntryOf(m, i, c);
      EntryOf(m, j, c);
      ReadWhatWasScanned(lines, m[i].0, c);
      ReadWhatWasScanned(lines, m[j].0, c);
    }
    if ScannedAsTwoProducts(lines) {
      var a, b, c :| a in lines && b in lines && a.productId != b.productId && Carries(a, c) && Carries(b, c);
      var i := Entry(lines, a, c);
      var j := Entry(lines, b, c);
      assert i < j || j < i;
    }
  }

  lemma Entry(lines: seq<IncomingLine>, line: IncomingLine, c: MarkedCode) returns (i: nat)
    requires Read(lines).Ok? && line in lines && Carries(line, c)
    ensures i < |Read(lines).value| && Read(lines).value[i].0 == line.productId && c in Read(lines).value[i].1
  {
    hide Read, Carries, Keyed;
    var m := Read(lines).value;
    ReadKeyed(lines);
    ReadWhatWasScanned(lines, line.productId, c);
    GetEntry(m, line.productId);
    var entry := (line.productId, Get(m, line.productId).value);
    assert entry in m;
    i :| 0 <= i < |m| && m[i] == entry;
  }

  /** The duplicate check of an accepted delivery sees each product alone, though the comment at
      marking-incoming.ts:51-55 promises the whole delivery: the codes it writes are all different
      exactly when no two lines of different products carry scans of one code. */
  lemma DeliveryRepeatsNothingIff(lines: seq<IncomingLine>, marked: seq<string>)
    requires ResolveIncoming(lines, marked).Ok?
    ensures NoKeyTwice(AllCodes(ResolveIncoming(lines, marked).value)) <==> !ScannedAsTwoProducts(lines)
  {
    hide Read, Uncovered, NoKeyTwice, AllCodes, ScannedAsTwoProducts, SharedCode, Totals;
    ReadKeyed(lines);
    GroupedRepeatsNothing(ResolveIncoming(lines, marked).value);
    SharedMeansScannedAsTwo(lines);
  }

  lemma ScannedTwiceIsRead(raw: Text, code: MarkedCode)
    requires Parse(raw) == Ok(code)
    ensures Read([IncomingLine("a", 1.0, [raw]), IncomingLine("b", 1.0, [raw])]) == Ok([("a", [code]), ("b", [code])])
  {
    hide Parse, ReadLine;
    var a, b := IncomingLine("a", 1.0, [raw]), IncomingLine("b", 1.0, [raw]);
    var lines := [a, b];
    var one: Codes := [("a", [code])];
    var none: seq<MarkedCode> := [];
    ReadLineIff([raw], 1.0, [code]);
    assert none + [code] == [code];
    assert [a][..0] == [] && Read([a]) == Ok(one);
    assert one[1..] == [] && Get(one[1..], "b") == None && Set(one, "b", [code]) == [("a", [code]), ("b", [code])];
    assert lines[..1] == [a] && lines[1] == b && GetOr(one, "b", none) == none;
    assert Read(lines[..1]) == Ok(one);
  }

  /** So a pack scanned once as each of two products passes the check. */
  lemma OnePackTwoProductsPasses(raw: Text, code: MarkedCode)
    requires Parse(raw) == Ok(code)
    ensures
      var lines := [IncomingLine("a", 1.0, [raw]), IncomingLine("b", 1.0, [raw])];
      && ResolveIncoming(lines, ["a", "b"]) == Ok([("a", [code]), ("b", [code])])
      && !NoKeyTwice(AllCodes([("a", [code]), ("b", [code])]))
  {
    hide Parse, Read, Totals, AllCodes, MarkedCodeKey, Amounts;
    var a, b := IncomingLine("a", 1.0, [raw]), IncomingLine("b", 1.0, [raw]);
    var lines := [a, b];
    var m: Codes := [("a", [code]), ("b", [code])];
    ScannedTwiceIsRead(raw, code);
    UnitEach(a, b);
    UncoveredNone(["a", "b"], CodesPer(m), Totals(Amounts(lines)));
    assert m[1..] == [("b", [code])] && Get(m[1..], "b") == Some([code]);
    assert GetOr(m, "a", []) == [code] && GetOr(m, "b", []) == [code];
    assert raw in a.codes && raw in b.codes;
    assert Carries(a, code) && Carries(b, code) && a in lines && b in lines;
    DeliveryRepeatsNothingIff(lines, ["a", "b"]);
  }

  lemma UnitEach(a: IncomingLine, b: IncomingLine)
    requires a.productId == "a" && b.productId == "b" && a.quantity == b.quantity == 1.0
    ensures GetOr(Totals(Amounts([a, b])), "a", 0.0) == 1.0 && GetOr(Totals(Amounts([a, b])), "b", 0.0) == 1.0
  {
    hide Totals;
    var amounts := Amounts([a, b]);
    assert [a, b][..1] == [a] && [a][..0] == [];
    assert Amounts([a]) == [Amount("a", 1.0)];
    assert amounts == Amounts([a]) + [Amount("b", 1.0)];
    var last := amounts[1..];
    assert last == [Amount("b", 1.0)] && last[1..] == [];
    assert Of("a")(last[0]) == 0.0 && Of("b")(last[0]) == 1.0;
    assert SumBy(last, Of("a")) == 0.0 + SumBy(last[1..], Of("a"));
    assert SumBy(last, Of("b")) == 1.0 + SumBy(last[1..], Of("b"));
    TotalsAreSums(amounts, "a");
    TotalsAreSums(amounts, "b");
    assert SumBy(amounts, Of("a")) == 1.0 && SumBy(amounts, Of("b")) == 1.0;
  }

  // -------------------------------------------------------- goods on the shelf

  /** `known` are the serials of these codes that the company has on record already. */
  function ResolveStock(codes: seq<Text>, onHand: real, alreadyCoded: real, known: seq<Text>)
    : Result<seq<MarkedCode>, EntryRefusal>
  {
    if codes == [] then Err(NothingScanned)
    else
      match ReadLine(codes, |codes| as real)
      case Err(refusal) => Err(Refused(refusal))
      case Ok(read) =>
        if !NoKeyTwice(read) then Err(ScannedTwice)
        else if known != [] then Err(AlreadyKnown)
        else if |read| as real > onHand - alreadyCoded then Err(NoRoom(onHand, alreadyCoded))
        else Ok(read)
  }

  method ResolveStockCodes(codes: seq<Text>, onHand: real, alreadyCoded: real, known: seq<Text>)
    returns (result: Result<seq<MarkedCode>, EntryRefusal>)
    ensures result == ResolveStock(codes, onHand, alreadyCoded, known)
  {
    hide NoKeyTwice, ReadLine;
    if codes == [] {
      return Err(NothingScanned);
    }
    var read := ReadLineCodes(codes, |codes| as real);
    if read.Err? {
      return Err(Refused(read.error));
    }
    var duplicate := FindDuplicate(read.value);
    if duplicate.Some? {
      return Err(ScannedTwice);
    }
    if known != [] {
      return Err(AlreadyKnown);
    }
    if |read.value| as real > onHand - alreadyCoded {
      return Err(NoRoom(onHand, alreadyCoded));
    }
    result := Ok(read.value);
  }

  /** Shelf goods are marked exactly when all scans are different unknown codes and there are
      uncoded units for all of them: codes are never made out of thin air. */
  lemma StockCodesIff(codes: seq<Text>, onHand: real, alreadyCoded: real, known: seq<Text>, read: seq<MarkedCode>)
    ensures ResolveStock(codes, onHand, alreadyCoded, known) == Ok(read) <==>
      && codes != [] && AllParse(codes, read) && NoKeyTwice(read) && known == []
      && alreadyCoded + |read| as real <= onHand
  {
    hide Parse, NoKeyTwice;
    ReadLineIff(codes, |codes| as real, read);
  }

  /** Otherwise it is refused for the first of these: nothing scanned, an unreadable scan, a repeated one,
      a code on record, or more codes than units without one. */
  lemma StockCodesRefusal(codes: seq<Text>, onHand: real, alreadyCoded: real, known: seq<Text>, k: nat)
    ensures codes == [] ==> ResolveStock(codes, onHand, alreadyCoded, known) == Err(NothingScanned)
    ensures
      k < |codes| && (forall i :: 0 <= i < k ==> Parse(codes[i]).Ok?) && Parse(codes[k]).Err? ==>
        ResolveStock(codes, onHand, alreadyCoded, known) == Err(Refused(Unreadable(codes[k])))
    ensures
      codes != [] && (exists read :: AllParse(codes, read)) ==>
        ResolveStock(codes, onHand, alreadyCoded, known).Ok? || ResolveStock(codes, onHand, alreadyCoded, known) ==
          if !RepeatsNothing(codes) then Err(ScannedTwice)
          else if known != [] then Err(AlreadyKnown)
          else Err(NoRoom(onHand, alreadyCoded))
  {
    hide Parse, NoKeyTwice, RepeatsNothing, ReadLine, AllParse;
    if k < |codes| && (forall i :: 0 <= i < k ==> Parse(codes[i]).Ok?) && Parse(codes[k]).Err? {
      ReadLineRefusal(codes, |codes| as real, k);
    }
    if exists read :: AllParse(codes, read) {
      var read :| AllParse(codes, read);
      ReadLineIff(codes, |codes| as real, read);
      RepeatsIff(codes, read);
    }
  }
}
