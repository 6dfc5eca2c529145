/** What a document asks for, one line per product (apps/api/src/stock.ts:24-44). */
module Requests {
  import opened Lists
  import opened JsMap

  datatype SaleItem = SaleItem(productId: string, quantity: real, price: int)

  const ProductId: SaleItem -> string := (it: SaleItem) => it.productId

  const Quantity: SaleItem -> real := (it: SaleItem) => it.quantity

  const ValueOf: ((string, SaleItem)) -> SaleItem := (e: (string, SaleItem)) => e.1

  /** How much of one product an item asks for. */
  function OfProduct(productId: string): SaleItem -> real {
    (it: SaleItem) => if it.productId == productId then it.quantity else 0.0
  }

  /** What one more item makes of the entry of its product. */
  function Joined(existing: Option<SaleItem>, item: SaleItem): SaleItem {
    match existing
    case Some(was) => was.(quantity := was.quantity + item.quantity)
    case None => item
  }

  /** The map once so many items have been added to it. */
  function ByProduct(items: seq<SaleItem>): seq<(string, SaleItem)> {
    if items == [] then []
    else
      var m, item := ByProduct(items[..|items| - 1]), items[|items| - 1];
      Set(m, item.productId, Joined(Get(m, item.productId), item))
  }

  function Aggregated(items: seq<SaleItem>): seq<SaleItem> {
    MapSeq(ByProduct(items), ValueOf)
  }

  method AggregateRequestedQuantities(items: seq<SaleItem>) returns (lines: seq<SaleItem>)
    ensures lines == Aggregated(items)
  {
    var byProduct: seq<(string, SaleItem)> := [];
    for i := 0 to |items|
      invariant byProduct == ByProduct(items[..i])
    {
      assert items[..i + 1][..i] == items[..i];
      var existing := Get(byProduct, items[i].productId);
      if existing.Some? {
        byProduct := Set(byProduct, items[i].productId,
                         existing.value.(quantity := existing.value.quantity + items[i].quantity));
      } else {
        byProduct := Set(byProduct, items[i].productId, items[i]);
      }
    }
    assert items[..|items|] == items;
    lines := MapSeq(byProduct, ValueOf);
  }

  /** The first item that names this product. */
  function FirstOf(items: seq<SaleItem>, productId: string): Option<SaleItem> {
    if items == [] then None
    else if items[0].productId == productId then Some(items[0])
    else FirstOf(items[1..], productId)
  }

  lemma {:induction false} FirstOfExtended(before: seq<SaleItem>, last: SaleItem, productId: string)
    ensures FirstOf(before + [last], productId) ==
      if FirstOf(before, productId).Some? then FirstOf(before, productId)
      else if last.productId == productId then Some(last) else None
  {
    if before != [] {
      assert (before + [last])[1..] == before[1..] + [last];
      FirstOfExtended(before[1..], last, productId);
    }
  }

  lemma {:induction false} FirstOfFacts(items: seq<SaleItem>, productId: string)
    ensures FirstOf(items, productId).Some? ==>
      FirstOf(items, productId).value in items && FirstOf(items, productId).value.productId == productId
    ensures FirstOf(items, productId).None? ==>
      (forall it :: it in items ==> it.productId != productId) && SumBy(items, OfProduct(productId)) == 0.0
  {
    if items != [] {
      FirstOfFacts(items[1..], productId);
    }
  }

  lemma OneMore(before: seq<SaleItem>, last: SaleItem)
    ensures ByProduct(before + [last]) ==
      Set(ByProduct(before), last.productId, Joined(Get(ByProduct(before), last.productId), last))
  {
    assert (before + [last])[..|before|] == before;
  }

  lemma {:induction false} OneEntryAProduct(items: seq<SaleItem>)
    ensures Keyed(ByProduct(items)) && forall e :: e in ByProduct(items) ==> e.1.productId == e.0
  {
    if items != [] {
      hide Keyed, Set, Get;
      var before, last := items[..|items| - 1], items[|items| - 1];
      assert items == before + [last];
      OneEntryAProduct(before);
      OneMore(before, last);
      var m := ByProduct(before);
      GetEntry(m, last.productId);
      var existing := Get(m, last.productId);
      assert existing.Some? ==> (last.productId, existing.value) in m;
      SetKeyed(m, last.productId, Joined(existing, last));
    }
  }

  /** Under each product the map holds its first item, with all that was asked of that product. */
  lemma {:induction false} EachProductIsSummed(items: seq<SaleItem>, productId: string)
    ensures Get(ByProduct(items), productId) ==
      match FirstOf(items, productId)
      case None => None
      case Some(first) => Some(first.(quantity := SumBy(items, OfProduct(productId))))
  {
    hide Set;
    if items != [] {
      var before, last := items[..|items| - 1], items[|items| - 1];
      assert items == before + [last];
      EachProductIsSummed(before, productId);
      OneMore(before, last);
      FirstOfExtended(before, last, productId);
      FirstOfFacts(before, productId);
      SumByConcat(before, [last], OfProduct(productId));
      assert SumBy([last], OfProduct(productId)) == OfProduct(productId)(last) by {
        assert [last][1..] == [];
      }
      GetSet(ByProduct(before), last.productId, Joined(Get(ByProduct(before), last.productId), last), productId);
    }
  }

  lemma {:induction false} ValuesDistinct(m: seq<(string, SaleItem)>)
    requires Keyed(m) && forall e :: e in m ==> e.1.productId == e.0
    ensures Distinct(MapSeq(m, ValueOf), ProductId)
    ensures forall it :: it in MapSeq(m, ValueOf) <==> Get(m, it.productId) == Some(it)
  {
    if m != [] {
      assert m[0] in m && forall e :: e in m[1..] ==> e in m;
      ValuesDistinct(m[1..]);
      var rest := MapSeq(m[1..], ValueOf);
      assert MapSeq(m, ValueOf) == [m[0].1] + rest;
      GetAbsent(m[1..], m[0].0);
      assert MapSeq(m, ValueOf)[1..] == rest;
    }
  }

  lemma LineIsSummed(items: seq<SaleItem>, line: SaleItem) returns (item: SaleItem)
    requires line in Aggregated(items)
    ensures line.quantity == SumBy(items, OfProduct(line.productId))
    ensures item in items && item.productId == line.productId
  {
    OneEntryAProduct(items);
    ValuesDistinct(ByProduct(items));
    EachProductIsSummed(items, line.productId);
    FirstOfFacts(items, line.productId);
    item := FirstOf(items, line.productId).value;
  }

  lemma ItemHasItsLine(items: seq<SaleItem>, item: SaleItem) returns (line: SaleItem)
    requires item in items
    ensures line in Aggregated(items) && line.productId == item.productId
  {
    OneEntryAProduct(items);
    ValuesDistinct(ByProduct(items));
    EachProductIsSummed(items, item.productId);
    FirstOfFacts(items, item.productId);
    line := Get(ByProduct(items), item.productId).value;
  }

  /** One line a product, in whatever order: each line asks for the sum of what its product's items
      asked for, and no product is lost or added. */
  lemma AggregationKeepsEachProduct(items: seq<SaleItem>)
    ensures Distinct(Aggregated(items), ProductId)
    ensures forall line :: line in Aggregated(items) ==> line.quantity == SumBy(items, OfProduct(line.productId))
    ensures forall item ::
      item in items ==> exists line :: line in Aggregated(items) && line.productId == item.productId
    ensures forall line ::
      line in Aggregated(items) ==> exists item :: item in items && line.productId == item.productId
  {
    OneEntryAProduct(items);
    ValuesDistinct(ByProduct(items));
    hide Aggregated, Distinct, SumBy;
    forall line | line in Aggregated(items)
      ensures line.quantity == SumBy(items, OfProduct(line.productId))
      ensures exists item :: item in items && line.productId == item.productId
    {
      var item := LineIsSummed(items, line);
    }
    forall item | item in items
      ensures exists line :: line in Aggregated(items) && line.productId == item.productId
    {
      var line := ItemHasItsLine(items, item);
    }
  }

  lemma {:induction false} SetTotal(m: seq<(string, SaleItem)>, key: string, value: SaleItem)
    ensures SumBy(MapSeq(Set(m, key, value), ValueOf), Quantity) ==
      SumBy(MapSeq(m, ValueOf), Quantity) + value.quantity
        - (match Get(m, key) case None => 0.0 case Some(was) => was.quantity)
  {
    if m == [] {
      assert [(key, value)][1..] == [];
      assert [value][1..] == [];
    } else {
      var rest := MapSeq(m[1..], ValueOf);
      assert MapSeq(m, ValueOf) == [m[0].1] + rest && ([m[0].1] + rest)[1..] == rest;
      if m[0].0 == key {
        assert Set(m, key, value)[1..] == m[1..];
        assert ([value] + rest)[1..] == rest;
      } else {
        SetTotal(m[1..], key, value);
        var after := MapSeq(Set(m[1..], key, value), ValueOf);
        assert Set(m, key, value)[1..] == Set(m[1..], key, value);
        assert ([m[0].1] + after)[1..] == after;
      }
    }
  }

  /** Nothing asked for is lost by adding the lines up. */
  lemma {:induction false} AggregationKeepsTheTotal(items: seq<SaleItem>)
    ensures SumBy(Aggregated(items), Quantity) == SumBy(items, Quantity)
  {
    if items != [] {
      var before, last := items[..|items| - 1], items[|items| - 1];
      assert items == before + [last];
      AggregationKeepsTheTotal(before);
      SumByConcat(before, [last], Quantity);
      assert [last][1..] == [];
      var m := ByProduct(before);
      SetTotal(m, last.productId, Joined(Get(m, last.productId), last));
    }
  }

  lemma AsksForSome(items: seq<SaleItem>, productId: string)
    requires forall it :: it in items ==> it.quantity > 0.0
    ensures forall it :: it in items ==> OfProduct(productId)(it) >= 0.0
  {
  }

  /** Items that ask for something add up to lines that ask for something. */
  lemma AggregationStaysPositive(items: seq<SaleItem>)
    requires forall it :: it in items ==> it.quantity > 0.0
    ensures forall line :: line in Aggregated(items) ==> line.quantity > 0.0
  {
    hide Aggregated, SumBy;
    forall line | line in Aggregated(items)
      ensures line.quantity > 0.0
    {
      var item := LineIsSummed(items, line);
      AsksForSome(items, line.productId);
      SumByMember(items, OfProduct(line.productId), item);
    }
  }
}
