/** What every door of the shop does with marking codes (apps/api/src/marking-service.ts), and the
    table of codes the doors ask (`MarkedCode`, unique by GTIN and serial within a company). */
module MarkingService {
  import opened Lists
  import opened JsText
  import opened JsMap
  import opened Marking

  datatype CodeState = InStock | Sold | InTransit | ReturnedToSupplier | Quarantined | WrittenOff

  datatype CodeRow = CodeRow(
    id: string, productId: string, locationId: string, code: MarkedCode, state: CodeState,
      saleDocumentId: Option<string>)

  datatype Refusal =
    | Unreadable(raw: Text)
    | Unknown(code: MarkedCode)
    | AlreadySold(code: MarkedCode)
    | WrongProduct(code: MarkedCode)
    | Elsewhere(code: MarkedCode)
    | OnItsWay(code: MarkedCode)
    | Gone(code: MarkedCode)
    | WithSupplier(code: MarkedCode)
    | SetAside(code: MarkedCode)
    | CountMismatch(codes: nat, quantity: real)

  const CodeId: CodeRow -> string := (r: CodeRow) => r.id

  const CodeOf: CodeRow -> MarkedCode := (r: CodeRow) => r.code

  // -------------------------------------------------------------- one line

  function ReadAll(codes: seq<Text>): Result<seq<MarkedCode>, Refusal> {
    if codes == [] then Ok([])
    else
      match Parse(codes[0])
      case Err(_) => Err(Unreadable(codes[0]))
      case Ok(code) =>
        match ReadAll(codes[1..])
        case Err(refusal) => Err(refusal)
        case Ok(rest) => Ok([code] + rest)
  }

  function ReadLine(codes: seq<Text>, quantity: real): Result<seq<MarkedCode>, Refusal> {
    match ReadAll(codes)
    case Err(refusal) => Err(refusal)
    case Ok(read) => if |read| as real != quantity then Err(CountMismatch(|read|, quantity)) else Ok(read)
  }

  /** Every text is a code, in order. */
  ghost predicate AllParse(codes: seq<Text>, read: seq<MarkedCode>) {
    |read| == |codes| && forall i :: 0 <= i < |codes| ==> Parse(codes[i]) == Ok(read[i])
  }

  lemma {:induction false} ReadAllIff(codes: seq<Text>, read: seq<MarkedCode>)
    ensures ReadAll(codes) == Ok(read) <==> AllParse(codes, read)
  {
    hide Parse;
    if codes != [] {
      if read != [] {
        ReadAllIff(codes[1..], read[1..]);
        assert read == [read[0]] + read[1..];
        assert AllParse(codes, read) <==> Parse(codes[0]) == Ok(read[0]) && AllParse(codes[1..], read[1..]) by {
          assert AllParse(codes, read) ==> AllParse(codes[1..], read[1..]);
          if Parse(codes[0]) == Ok(read[0]) && AllParse(codes[1..], read[1..]) {
            forall i | 0 <= i < |codes|
              ensures Parse(codes[i]) == Ok(read[i])
            {
              if i > 0 {
                assert codes[1..][i - 1] == codes[i] && read[1..][i - 1] == read[i];
              }
            }
          }
        }
      }
    }
  }

  /** A line is accepted exactly when every text on it is a code and there are as many as goods. */
  lemma ReadLineIff(codes: seq<Text>, quantity: real, read: seq<MarkedCode>)
    ensures ReadLine(codes, quantity) == Ok(read) <==> AllParse(codes, read) && |codes| as real == quantity
  {
    ReadAllIff(codes, read);
  }

  /** The first text that is no code is the refusal; when all are, the count is. */
  lemma {:induction false} ReadLineRefusal(codes: seq<Text>, quantity: real, k: nat)
    requires k <= |codes| && (forall i :: 0 <= i < k ==> Parse(codes[i]).Ok?)
    ensures k < |codes| && Parse(codes[k]).Err? ==> ReadLine(codes, quantity) == Err(Unreadable(codes[k]))
    ensures k == |codes| && |codes| as real != quantity ==>
      ReadLine(codes, quantity) == Err(CountMismatch(|codes|, quantity))
  {
    hide Parse;
    ReadsUpTo(codes, k);
    if k < |codes| {
      OneCodeMore(codes, k);
    } else {
      assert codes[..k] == codes;
    }
  }

  lemma {:induction false} ReadsUpTo(codes: seq<Text>, k: nat)
    requires k <= |codes| && (forall i :: 0 <= i < k ==> Parse(codes[i]).Ok?)
    ensures ReadAll(codes[..k]).Ok? && |ReadAll(codes[..k]).value| == k
  {
    hide Parse;
    if k > 0 {
      ReadsUpTo(codes, k - 1);
      OneCodeMore(codes, k - 1);
    }
  }

  method ReadLineCodes(codes: seq<Text>, quantity: real) returns (r: Result<seq<MarkedCode>, Refusal>)
    ensures r == ReadLine(codes, quantity)
  {
    hide Parse;
    var read: seq<MarkedCode> := [];
    var i := 0;
    while i < |codes|
      invariant i <= |codes|
      invariant ReadAll(codes[..i]) == Ok(read)
    {
      OneCodeMore(codes, i);
      match Parse(codes[i]) {
        case Err(_) =>
          return Err(Unreadable(codes[i]));
        case Ok(code) =>
          read := read + [code];
      }
      i := i + 1;
    }
    assert codes[..i] == codes;
    if |read| as real != quantity {
      return Err(CountMismatch(|read|, quantity));
    }
    r := Ok(read);
  }

  lemma OneCodeMore(codes: seq<Text>, i: nat)
    requires i < |codes| && ReadAll(codes[..i]).Ok?
    ensures Parse(codes[i]).Err? ==> ReadAll(codes) == Err(Unreadable(codes[i]))
    ensures Parse(codes[i]).Ok? ==> ReadAll(codes[..i + 1]) == Ok(ReadAll(codes[..i]).value + [Parse(codes[i]).value])
  {
    hide Parse;
    match Parse(codes[i]) {
      case Err(_) =>
        ReadAllConcat(codes[..i], codes[i..]);
        assert codes[..i] + codes[i..] == codes && codes[i..][0] == codes[i];
      case Ok(code) =>
        var last := [codes[i]];
        ReadAllConcat(codes[..i], last);
        assert codes[..i] + last == codes[..i + 1];
        assert last[1..] == [];
        var none: seq<MarkedCode> := [];
        assert ReadAll(last[1..]) == Ok(none) && [code] + none == [code];
        assert ReadAll(last) == Ok([code] + none);
    }
  }

  lemma {:induction false} ReadAllConcat(a: seq<Text>, b: seq<Text>)
    requires ReadAll(a).Ok?
    ensures ReadAll(a + b) ==
      match ReadAll(b)
      case Err(refusal) => Err(refusal)
      case Ok(rest) => Ok(ReadAll(a).value + rest)
  {
    hide Parse;
    if a == [] {
      assert a + b == b;
      if ReadAll(b).Ok? {
        assert [] + ReadAll(b).value == ReadAll(b).value;
      }
    } else {
      assert (a + b)[1..] == a[1..] + b;
      ReadAllConcat(a[1..], b);
      if ReadAll(b).Ok? {
        var head, rest := Parse(a[0]).value, ReadAll(a[1..]).value;
        assert [head] + (rest + ReadAll(b).value) == [head] + rest + ReadAll(b).value;
      }
    }
  }

  // ------------------------------------------------------------ one code twice

  predicate NoKeyTwice(codes: seq<MarkedCode>) {
    forall i, j :: 0 <= i < j < |codes| ==> MarkedCodeKey(codes[i]) != MarkedCodeKey(codes[j])
  }

  /** Finds the first code that repeats an earlier one, and finds none exactly when there is none. */
  method FindDuplicate(codes: seq<MarkedCode>) returns (r: Option<MarkedCode>)
    ensures r.None? <==> NoKeyTwice(codes)
    ensures r.Some? ==> exists i, j ::
      0 <= i < j < |codes| && codes[j] == r.value && MarkedCodeKey(codes[i]) == MarkedCodeKey(codes[j])
      && NoKeyTwice(codes[..j])
  {
    hide MarkedCodeKey;
    var seen: set<Text> := {};
    var i := 0;
    while i < |codes|
      invariant i <= |codes|
      invariant forall k :: 0 <= k < i ==> MarkedCodeKey(codes[k]) in seen
      invariant forall key :: key in seen ==> exists k :: 0 <= k < i && MarkedCodeKey(codes[k]) == key
      invariant NoKeyTwice(codes[..i])
    {
      var key := MarkedCodeKey(codes[i]);
      if key in seen {
        ghost var k :| 0 <= k < i && MarkedCodeKey(codes[k]) == key;
        assert !NoKeyTwice(codes);
        return Some(codes[i]);
      }
      seen := seen + {key};
      i := i + 1;
    }
    assert codes[..i] == codes;
    r := None;
  }

  /** Codes that came from the parse are told apart by their keys. */
  lemma NoKeyTwiceIsNoCodeTwice(texts: seq<Text>, codes: seq<MarkedCode>)
    requires AllParse(texts, codes)
    ensures NoKeyTwice(codes) <==> forall i, j :: 0 <= i < j < |codes| ==> codes[i] != codes[j]
  {
    hide Parse, MarkedCodeKey;
    forall i, j | 0 <= i < j < |codes|
      ensures MarkedCodeKey(codes[i]) == MarkedCodeKey(codes[j]) <==> codes[i] == codes[j]
    {
      KeyInjective(texts[i], texts[j], codes[i], codes[j]);
    }
  }

  // ---------------------------------------------------------- sums by product

  datatype Amount = Amount(productId: string, quantity: real)

  /** What the lines say about one product. */
  function Of(productId: string): Amount -> real {
    (a: Amount) => if a.productId == productId then a.quantity else 0.0
  }

  function Totals(lines: seq<Amount>): seq<(string, real)> {
    if lines == [] then []
    else
      var m, line := Totals(lines[..|lines| - 1]), lines[|lines| - 1];
      Set(m, line.productId, GetOr(m, line.productId, 0.0) + line.quantity)
  }

  lemma {:induction false} TotalsAreSums(lines: seq<Amount>, productId: string)
    ensures GetOr(Totals(lines), productId, 0.0) == SumBy(lines, Of(productId))
  {
    if lines != [] {
      var front, line := lines[..|lines| - 1], lines[|lines| - 1];
      TotalsAreSums(front, productId);
      TotalsAreSums(front, line.productId);
      GetSet(Totals(front), line.productId, GetOr(Totals(front), line.productId, 0.0) + line.quantity, productId);
      SumByConcat(front, [line], Of(productId));
      assert [line][1..] == [];
      assert lines == front + [line];
    }
  }

  method TotalByProduct(lines: seq<Amount>) returns (m: seq<(string, real)>)
    ensures m == Totals(lines)
    ensures forall p :: GetOr(m, p, 0.0) == SumBy(lines, Of(p))
  {
    m := [];
    var i := 0;
    while i < |lines|
      invariant i <= |lines|
      invariant m == Totals(lines[..i])
    {
      assert lines[..i + 1][..i] == lines[..i];
      m := Set(m, lines[i].productId, GetOr(m, lines[i].productId, 0.0) + lines[i].quantity);
      i := i + 1;
    }
    assert lines[..i] == lines;
    forall p
      ensures GetOr(m, p, 0.0) == SumBy(lines, Of(p))
    {
      TotalsAreSums(lines, p);
    }
  }

  // ------------------------------------------- goods sold only by code

  /** The first of the products sold only by code that lacks codes or has too many. */
  function Uncovered(marked: seq<string>, codes: string -> nat, wanted: seq<(string, real)>): Option<string> {
    if marked == [] then None
    else if codes(marked[0]) as real != GetOr(wanted, marked[0], 0.0) then Some(marked[0])
    else Uncovered(marked[1..], codes, wanted)
  }

  /** The product named is the first of them whose codes and units differ. */
  lemma {:induction false} UncoveredIsFirst(
    marked: seq<string>, codes: string -> nat, wanted: seq<(string, real)>, k: nat)
    requires k < |marked| && codes(marked[k]) as real != GetOr(wanted, marked[k], 0.0)
    requires forall i :: 0 <= i < k ==> codes(marked[i]) as real == GetOr(wanted, marked[i], 0.0)
    ensures Uncovered(marked, codes, wanted) == Some(marked[k])
  {
    if k > 0 {
      UncoveredIsFirst(marked[1..], codes, wanted, k - 1);
    }
  }

  lemma {:induction false} UncoveredNone(marked: seq<string>, codes: string -> nat, wanted: seq<(string, real)>)
    ensures Uncovered(marked, codes, wanted) == None <==>
      forall p :: p in marked ==> codes(p) as real == GetOr(wanted, p, 0.0)
  {
    if marked != [] {
      UncoveredNone(marked[1..], codes, wanted);
    }
  }
}
