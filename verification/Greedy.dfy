/** The loop every allocator of the program runs: walk a list, take what each
    entry can give, stop when enough has been taken. */
module Greedy {
  import opened Lists

  /** How much was taken from, or released on, one row. */
  datatype Part = Part(id: string, quantity: real)

  const Quantity: Part -> real := (p: Part) => p.quantity

  const Negated: Part -> real := (p: Part) => -p.quantity

  lemma {:induction false} NegatedSum(parts: seq<Part>)
    ensures SumBy(parts, Negated) == -SumBy(parts, Quantity)
  {
    if parts != [] {
      NegatedSum(parts[1..]);
    }
  }

  const Id: Part -> string := (p: Part) => p.id

  /** What the loop pushes when it walks `items` wanting `amount` in all. */
  function Draw<T>(items: seq<T>, id: T -> string, cap: T -> real, amount: real): seq<Part> {
    if items == [] || amount <= 0.0 then []
    else if cap(items[0]) <= 0.0 then Draw(items[1..], id, cap, amount)
    else
      var take := Min(cap(items[0]), amount);
      [Part(id(items[0]), take)] + Draw(items[1..], id, cap, amount - take)
  }

  /** What the parts take from the row called `id`, all together. */
  function Taken(parts: seq<Part>, id: string): real {
    if parts == [] then 0.0
    else (if parts[0].id == id then parts[0].quantity else 0.0) + Taken(parts[1..], id)
  }

  /** The parts read as a plan: an amount for every row id. */
  function AsPlan(parts: seq<Part>): string -> real {
    id => Taken(parts, id)
  }

  /** What an entry can give; a non-positive one gives nothing. */
  function Room<T>(cap: T -> real): T -> real {
    x => Max(cap(x), 0.0)
  }

  /** One turn of the loop, with what it pushed before. */
  lemma DrawNext<T>(done: seq<Part>, items: seq<T>, i: nat, id: T -> string, cap: T -> real, amount: real)
    requires i < |items| && amount > 0.0
    ensures
      var take := Min(cap(items[i]), amount);
      done + Draw(items[i..], id, cap, amount) ==
        if cap(items[i]) <= 0.0 then done + Draw(items[i + 1..], id, cap, amount)
        else done + [Part(id(items[i]), take)] + Draw(items[i + 1..], id, cap, amount - take)
  {
    assert items[i..][1..] == items[i + 1..];
    if cap(items[i]) > 0.0 {
      var take := Min(cap(items[i]), amount);
      var rest := Draw(items[i + 1..], id, cap, amount - take);
      assert done + ([Part(id(items[i]), take)] + rest) == done + [Part(id(items[i]), take)] + rest;
    }
  }

  lemma DrawFromStart<T>(items: seq<T>, id: T -> string, cap: T -> real, amount: real)
    ensures [] + Draw(items[0..], id, cap, amount) == Draw(items, id, cap, amount)
  {
    assert items[0..] == items;
  }

  /** The loop ends when the list does, or when enough has been taken. */
  lemma DrawStops<T>(done: seq<Part>, items: seq<T>, i: nat, id: T -> string, cap: T -> real, amount: real)
    requires i <= |items|
    ensures i == |items| || amount <= 0.0 ==> done + Draw(items[i..], id, cap, amount) == done
  {
  }

  lemma TotalNext(done: seq<Part>, part: Part)
    ensures SumBy(done + [part], Quantity) == SumBy(done, Quantity) + part.quantity
  {
    SumByConcat(done, [part], Quantity);
    assert [part][1..] == [];
  }

  lemma {:induction false} DrawTotal<T>(items: seq<T>, id: T -> string, cap: T -> real, amount: real)
    ensures SumBy(Draw(items, id, cap, amount), Quantity) == Min(Max(amount, 0.0), SumBy(items, Room(cap)))
  {
    SumByNonNegative(items, Room(cap));
    if items != [] && amount > 0.0 {
      SumByNonNegative(items[1..], Room(cap));
      if cap(items[0]) <= 0.0 {
        DrawTotal(items[1..], id, cap, amount);
      } else {
        var take := Min(cap(items[0]), amount);
        DrawTotal(items[1..], id, cap, amount - take);
        assert Draw(items, id, cap, amount)[1..] == Draw(items[1..], id, cap, amount - take);
      }
    }
  }

  lemma {:induction false} DrawParts<T(!new)>(items: seq<T>, id: T -> string, cap: T -> real, amount: real)
    requires Distinct(items, id)
    ensures forall p :: p in Draw(items, id, cap, amount) ==>
      p.quantity > 0.0 && exists x :: x in items && id(x) == p.id
    ensures Distinct(Draw(items, id, cap, amount), Id)
  {
    if items != [] && amount > 0.0 {
      if cap(items[0]) <= 0.0 {
        DrawParts(items[1..], id, cap, amount);
      } else {
        var take := Min(cap(items[0]), amount);
        DrawParts(items[1..], id, cap, amount - take);
        assert Draw(items, id, cap, amount)[1..] == Draw(items[1..], id, cap, amount - take);
      }
    }
  }

  lemma {:induction false} TakenElsewhere<T(!new)>(items: seq<T>, id: T -> string, cap: T -> real, amount: real,
      other: string)
    requires forall x :: x in items ==> id(x) != other
    ensures Taken(Draw(items, id, cap, amount), other) == 0.0
  {
    if items != [] && amount > 0.0 {
      if cap(items[0]) <= 0.0 {
        TakenElsewhere(items[1..], id, cap, amount, other);
      } else {
        var take := Min(cap(items[0]), amount);
        TakenElsewhere(items[1..], id, cap, amount - take, other);
        assert Draw(items, id, cap, amount)[1..] == Draw(items[1..], id, cap, amount - take);
      }
    }
  }

  /** What the first entry gives. */
  function FirstTake<T>(items: seq<T>, cap: T -> real, amount: real): real
    requires items != []
  {
    if amount <= 0.0 then 0.0 else Min(Max(cap(items[0]), 0.0), amount)
  }

  /** The first step of the loop, seen through `Taken`. */
  lemma DrawStep<T(!new)>(items: seq<T>, id: T -> string, cap: T -> real, amount: real)
    requires Distinct(items, id) && items != []
    ensures
      var take := FirstTake(items, cap, amount);
      && Taken(Draw(items, id, cap, amount), id(items[0])) == take
      && (forall other :: other != id(items[0]) ==>
            Taken(Draw(items, id, cap, amount), other) == Taken(Draw(items[1..], id, cap, amount - take), other))
  {
    TakenElsewhere(items[1..], id, cap, amount, id(items[0]));
    if amount > 0.0 && cap(items[0]) > 0.0 {
      var take := Min(cap(items[0]), amount);
      TakenElsewhere(items[1..], id, cap, amount - take, id(items[0]));
      assert Draw(items, id, cap, amount)[1..] == Draw(items[1..], id, cap, amount - take);
    }
  }

  lemma {:induction false} TakenBounds<T(!new)>(items: seq<T>, id: T -> string, cap: T -> real, amount: real, x: T)
    requires Distinct(items, id) && x in items
    ensures 0.0 <= Taken(Draw(items, id, cap, amount), id(x)) <= Max(cap(x), 0.0)
  {
    DrawStep(items, id, cap, amount);
    if x != items[0] {
      var take := FirstTake(items, cap, amount);
      TakenBounds(items[1..], id, cap, amount - take, x);
    }
  }

  /** An entry is touched only when everything before it is exhausted. */
  lemma {:induction false} DrawInOrder<T(!new)>(items: seq<T>, id: T -> string, cap: T -> real, amount: real, i: nat,
      j: nat)
    requires Distinct(items, id) && i < j < |items|
    requires Taken(Draw(items, id, cap, amount), id(items[j])) > 0.0
    ensures Taken(Draw(items, id, cap, amount), id(items[i])) == Max(cap(items[i]), 0.0)
  {
    DrawStep(items, id, cap, amount);
    var take := FirstTake(items, cap, amount);
    assert items[j] == items[1..][j - 1];
    assert items[j] in items[1..];
    if i > 0 {
      assert items[i] == items[1..][i - 1];
      assert items[i] in items[1..];
      DrawInOrder(items[1..], id, cap, amount - take, i - 1, j - 1);
    }
  }

  /** A plan read on the rows themselves. */
  function OnRow<T>(id: T -> string, plan: string -> real): T -> real {
    x => plan(id(x))
  }

  /** Adding up a draw row by row gives what the draw took in all. */
  lemma {:induction false} PlanTotal<T(!new)>(items: seq<T>, id: T -> string, cap: T -> real, amount: real)
    requires Distinct(items, id)
    ensures SumBy(items, OnRow(id, AsPlan(Draw(items, id, cap, amount))))
      == SumBy(Draw(items, id, cap, amount), Quantity)
  {
    if items != [] {
      var plan := AsPlan(Draw(items, id, cap, amount));
      var take := FirstTake(items, cap, amount);
      var rest := AsPlan(Draw(items[1..], id, cap, amount - take));
      DrawStep(items, id, cap, amount);
      SumBySame(items[1..], OnRow(id, plan), OnRow(id, rest));
      PlanTotal(items[1..], id, cap, amount - take);
      if take > 0.0 {
        assert Draw(items, id, cap, amount)[1..] == Draw(items[1..], id, cap, amount - take);
      }
    }
  }

  lemma {:induction false} TakenAbsent(parts: seq<Part>, id: string)
    requires forall p :: p in parts ==> Id(p) != id
    ensures Taken(parts, id) == 0.0
  {
    if parts != [] {
      assert Id(parts[0]) != id;
      TakenAbsent(parts[1..], id);
    }
  }

  lemma {:induction false} TakenIsThePart(parts: seq<Part>, p: Part)
    requires Distinct(parts, Id) && p in parts
    ensures Taken(parts, p.id) == p.quantity
  {
    if p == parts[0] {
      TakenAbsent(parts[1..], p.id);
    } else {
      assert Id(p) != Id(parts[0]);
      TakenIsThePart(parts[1..], p);
    }
  }

  /** Entries with nothing to give can be left out beforehand. */
  lemma {:induction false} DrawSkips<T(!new)>(items: seq<T>, id: T -> string, cap: T -> real, amount: real,
      p: T -> bool)
    requires forall x :: x in items && !p(x) ==> cap(x) <= 0.0
    ensures Draw(Filter(items, p), id, cap, amount) == Draw(items, id, cap, amount)
  {
    if items != [] && amount > 0.0 {
      assert items[0] in items;
      if !p(items[0]) {
        DrawSkips(items[1..], id, cap, amount, p);
      } else {
        FilterHead(items, p);
        DrawSkips(items[1..], id, cap, if cap(items[0]) <= 0.0 then amount else amount - Min(cap(items[0]), amount), p);
      }
    }
  }

  lemma FilterHead<T(!new)>(items: seq<T>, p: T -> bool)
    requires items != [] && p(items[0])
    ensures Filter(items, p) != [] && Filter(items, p)[0] == items[0] && Filter(items, p)[1..] == Filter(items[1..], p)
  {
  }

  /** `left` is `items` after `amount` has been drawn from it. */
  ghost predicate LeftAfter<T(!new)>(items: seq<T>, left: seq<T>, id: T -> string, cap: T -> real, amount: real) {
    && |left| == |items|
    && forall i :: 0 <= i < |items| ==>
         id(left[i]) == id(items[i])
           && cap(left[i]) == cap(items[i]) - Taken(Draw(items, id, cap, amount), id(items[i]))
  }

  lemma LeftTail<T(!new)>(items: seq<T>, left: seq<T>, id: T -> string, cap: T -> real, amount: real)
    requires Distinct(items, id) && items != [] && LeftAfter(items, left, id, cap, amount)
    ensures LeftAfter(items[1..], left[1..], id, cap, amount - FirstTake(items, cap, amount))
    ensures id(left[0]) == id(items[0]) && cap(left[0]) == cap(items[0]) - FirstTake(items, cap, amount)
  {
    DrawStep(items, id, cap, amount);
    var first := FirstTake(items, cap, amount);
    forall i | 0 <= i < |items[1..]|
      ensures id(left[1..][i]) == id(items[1..][i])
      ensures cap(left[1..][i]) ==
        cap(items[1..][i]) - Taken(Draw(items[1..], id, cap, amount - first), id(items[1..][i]))
    {
      assert items[1..][i] == items[i + 1] && left[1..][i] == left[i + 1];
      assert id(items[1..][i]) != id(items[0]);
    }
  }

  lemma FirstTakeTwice<T>(items: seq<T>, left: seq<T>, cap: T -> real, a: real, b: real)
    requires items != [] && left != [] && a >= 0.0 && b >= 0.0
    requires cap(left[0]) == cap(items[0]) - FirstTake(items, cap, a)
    ensures FirstTake(items, cap, a + b) == FirstTake(items, cap, a) + FirstTake(left, cap, b)
    ensures FirstTake(items, cap, a) <= a && FirstTake(left, cap, b) <= b
  {
  }

  /** Drawing `a` and then `b` from what is left takes from an entry what drawing `a + b` would. */
  lemma {:induction false} DrawTwice<T(!new)>(
    items: seq<T>, left: seq<T>, id: T -> string, cap: T -> real, a: real, b: real, i: nat)
    requires Distinct(items, id) && Distinct(left, id) && a >= 0.0 && b >= 0.0 && i < |items|
    requires LeftAfter(items, left, id, cap, a)
    ensures Taken(Draw(items, id, cap, a + b), id(items[i])) ==
      Taken(Draw(items, id, cap, a), id(items[i])) + Taken(Draw(left, id, cap, b), id(items[i]))
  {
    hide Draw, Taken, FirstTake, Distinct;
    var first, second, at := FirstTake(items, cap, a), FirstTake(left, cap, b), id(items[i]);
    DrawTwiceStep(items, left, id, cap, a, b, at);
    if i > 0 {
      DistinctTail(items, id, i);
      DistinctTail(left, id, 0);
      LeftTail(items, left, id, cap, a);
      FirstTakeTwice(items, left, cap, a, b);
      DrawTwice(items[1..], left[1..], id, cap, a - first, b - second, i - 1);
    }
  }

  /** The first entry gives `a` and `b` what it would give their sum; the others are asked for the rest. */
  lemma DrawTwiceStep<T(!new)>(
    items: seq<T>, left: seq<T>, id: T -> string, cap: T -> real, a: real, b: real, at: string)
    requires Distinct(items, id) && Distinct(left, id) && a >= 0.0 && b >= 0.0 && items != []
    requires LeftAfter(items, left, id, cap, a)
    ensures left != []
    ensures
      var first, second := FirstTake(items, cap, a), FirstTake(left, cap, b);
      if at == id(items[0]) then
        Taken(Draw(items, id, cap, a + b), at) == Taken(Draw(items, id, cap, a), at) + Taken(Draw(left, id, cap, b), at)
      else
        && Taken(Draw(items, id, cap, a + b), at) == Taken(Draw(items[1..], id, cap, (a - first) + (b - second)), at)
        && Taken(Draw(items, id, cap, a), at) == Taken(Draw(items[1..], id, cap, a - first), at)
        && Taken(Draw(left, id, cap, b), at) == Taken(Draw(left[1..], id, cap, b - second), at)
  {
    assert left != [] && id(left[0]) == id(items[0]);
    hide Draw, Taken, LeftAfter, FirstTake, Distinct;
    LeftTail(items, left, id, cap, a);
    FirstTakeTwice(items, left, cap, a, b);
    TakenAt(items, id, cap, a, at);
    TakenAt(items, id, cap, a + b, at);
    TakenAt(left, id, cap, b, at);
    SumOfRests(a, b, FirstTake(items, cap, a), FirstTake(left, cap, b), FirstTake(items, cap, a + b));
  }

  lemma SumOfRests(a: real, b: real, first: real, second: real, both: real)
    requires both == first + second
    ensures (a + b) - both == (a - first) + (b - second)
  {
  }

  /** The same, for an entry of the list. */
  lemma DrawTwiceOf<T(!new)>(
    items: seq<T>, left: seq<T>, id: T -> string, cap: T -> real, a: real, b: real, x: T)
    requires Distinct(items, id) && Distinct(left, id) && a >= 0.0 && b >= 0.0 && x in items
    requires LeftAfter(items, left, id, cap, a)
    ensures Taken(Draw(items, id, cap, a + b), id(x)) ==
      Taken(Draw(items, id, cap, a), id(x)) + Taken(Draw(left, id, cap, b), id(x))
  {
    hide *;
    var i :| 0 <= i < |items| && items[i] == x;
    DrawTwice(items, left, id, cap, a, b, i);
  }

  lemma TakenAt<T(!new)>(items: seq<T>, id: T -> string, cap: T -> real, amount: real, at: string)
    requires Distinct(items, id) && items != []
    ensures
      var take := FirstTake(items, cap, amount);
      Taken(Draw(items, id, cap, amount), at) ==
        if at == id(items[0]) then take else Taken(Draw(items[1..], id, cap, amount - take), at)
  {
    DrawStep(items, id, cap, amount);
  }

  lemma DistinctTail<T(!new)>(s: seq<T>, id: T -> string, i: nat)
    requires Distinct(s, id) && i < |s|
    ensures Distinct(s[1..], id) && (i > 0 ==> s[1..][i - 1] == s[i] && id(s[i]) != id(s[0]))
  {
    if i > 0 {
      assert s[1..][i - 1] in s[1..];
    }
  }
}
