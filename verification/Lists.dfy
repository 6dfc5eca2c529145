/** Values shared by every component, and the array operations of JavaScript
    (`filter`, `reduce`, `sort`) as functions on sequences. */
module Lists {

  datatype Option<+T> = None | Some(value: T)

  datatype Result<+T, +E> = Ok(value: T) | Err(error: E)

  function Min(a: real, b: real): real {
    if a <= b then a else b
  }

  function Max(a: real, b: real): real {
    if a >= b then a else b
  }

  /** `Math.round`: to the nearest whole, halves up. */
  function Round(x: real): int {
    (x + 0.5).Floor
  }

  lemma RoundBounds(x: real)
    ensures x - 0.5 < Round(x) as real <= x + 0.5
  {
  }

  lemma Head<T>(s: seq<T>)
    ensures s != [] ==> s[0] in s
  {
  }

  // ---------------------------------------------------------------- reduce

  function SumBy<T>(s: seq<T>, f: T -> real): real {
    if s == [] then 0.0 else f(s[0]) + SumBy(s[1..], f)
  }

  lemma {:induction false} SumByConcat<T>(s: seq<T>, t: seq<T>, f: T -> real)
    ensures SumBy(s + t, f) == SumBy(s, f) + SumBy(t, f)
  {
    if s == [] {
      assert s + t == t;
    } else {
      assert (s + t)[1..] == s[1..] + t;
      SumByConcat(s[1..], t, f);
    }
  }

  lemma {:induction false} SumByNonNegative<T>(s: seq<T>, f: T -> real)
    requires forall x :: x in s ==> f(x) >= 0.0
    ensures SumBy(s, f) >= 0.0
  {
    if s != [] {
      SumByNonNegative(s[1..], f);
    }
  }

  lemma {:induction false} SumByMember<T>(s: seq<T>, f: T -> real, x: T)
    requires forall y :: y in s ==> f(y) >= 0.0
    requires x in s
    ensures f(x) <= SumBy(s, f)
  {
    SumByNonNegative(s[1..], f);
    if x != s[0] {
      SumByMember(s[1..], f, x);
    }
  }

  lemma {:induction false} SumBySame<T>(s: seq<T>, f: T -> real, g: T -> real)
    requires forall x :: x in s ==> f(x) == g(x)
    ensures SumBy(s, f) == SumBy(s, g)
  {
    if s != [] {
      SumBySame(s[1..], f, g);
    }
  }

  lemma {:induction false} SumByAtMost<T>(s: seq<T>, f: T -> real, g: T -> real)
    requires forall x :: x in s ==> f(x) <= g(x)
    ensures SumBy(s, f) <= SumBy(s, g)
  {
    if s != [] {
      SumByAtMost(s[1..], f, g);
    }
  }

  // ---------------------------------------------------------------- filter

  function Filter<T(!new)>(s: seq<T>, p: T -> bool): (r: seq<T>)
    ensures forall x :: x in r <==> x in s && p(x)
  {
    if s == [] then []
    else if p(s[0]) then [s[0]] + Filter(s[1..], p)
    else Filter(s[1..], p)
  }

  lemma {:induction false} SumByFilter<T(!new)>(s: seq<T>, p: T -> bool, f: T -> real)
    requires forall x :: x in s && !p(x) ==> f(x) == 0.0
    ensures SumBy(Filter(s, p), f) == SumBy(s, f)
  {
    if s != [] {
      SumByFilter(s[1..], p, f);
      if p(s[0]) {
        assert Filter(s, p)[1..] == Filter(s[1..], p);
      }
    }
  }

  // ------------------------------------------------------- string comparison

  /** `a <= b` on strings, character by character from the left. */
  predicate TextLe(a: string, b: string) {
    a == [] || (b != [] && (a[0] < b[0] || (a[0] == b[0] && TextLe(a[1..], b[1..]))))
  }

  /** A text comes before another when it is the beginning of it, or smaller at the first difference. */
  lemma {:induction false} TextBefore(a: string, b: string, k: nat)
    requires k <= |a| && k < |b| && a[..k] == b[..k] && (k < |a| ==> a[k] < b[k])
    ensures TextLe(a, b) && !TextLe(b, a)
  {
    if k > 0 {
      assert a[..k][0] == a[0] && b[..k][0] == b[0];
      assert a[1..][..k - 1] == a[..k][1..] && b[1..][..k - 1] == b[..k][1..];
      TextBefore(a[1..], b[1..], k - 1);
    }
  }

  lemma {:induction false} TextLeTotal(a: string, b: string)
    ensures TextLe(a, b) || TextLe(b, a)
  {
    if a != [] && b != [] && a[0] == b[0] {
      TextLeTotal(a[1..], b[1..]);
    }
  }

  lemma {:induction false} TextLeTransitive(a: string, b: string, c: string)
    requires TextLe(a, b) && TextLe(b, c)
    ensures TextLe(a, c)
  {
    if a != [] && a[0] == b[0] && b[0] == c[0] {
      TextLeTransitive(a[1..], b[1..], c[1..]);
    }
  }

  // ------------------------------------------------------------------ sort

  /** `le` compares any two elements and is transitive: what `Array.sort` asks of a comparator. */
  ghost predicate TotalPreorder<T(!new)>(le: (T, T) -> bool) {
    && (forall x, y :: le(x, y) || le(y, x))
    && (forall x, y, z :: le(x, y) && le(y, z) ==> le(x, z))
  }

  predicate SortedBy<T>(s: seq<T>, le: (T, T) -> bool) {
    forall i, j :: 0 <= i < j < |s| ==> le(s[i], s[j])
  }

  function Insert<T(!new)>(x: T, s: seq<T>, le: (T, T) -> bool): (r: seq<T>)
    ensures |r| == |s| + 1
    ensures forall y :: y in r <==> y == x || y in s
  {
    if s == [] || le(x, s[0]) then [x] + s else [s[0]] + Insert(x, s[1..], le)
  }

  /** `Array.prototype.sort`, which is stable: an element goes before the later ones it ties with. */
  function StableSort<T(!new)>(s: seq<T>, le: (T, T) -> bool): (r: seq<T>)
    ensures |r| == |s|
    ensures forall y :: y in r <==> y in s
  {
    if s == [] then [] else Insert(s[0], StableSort(s[1..], le), le)
  }

  lemma {:induction false} InsertSorted<T(!new)>(x: T, s: seq<T>, le: (T, T) -> bool)
    requires TotalPreorder(le) && SortedBy(s, le)
    ensures SortedBy(Insert(x, s, le), le)
  {
    if s == [] {
    } else if le(x, s[0]) {
      var r := Insert(x, s, le);
      assert r == [x] + s;
      forall i, j | 0 <= i < j < |r|
        ensures le(r[i], r[j])
      {
        if i == 0 && j > 1 {
          assert le(s[0], s[j - 1]);
        }
      }
    } else {
      InsertSorted(x, s[1..], le);
      var rest := Insert(x, s[1..], le);
      var r := Insert(x, s, le);
      assert r == [s[0]] + rest;
      forall i, j | 0 <= i < j < |r|
        ensures le(r[i], r[j])
      {
        if i == 0 {
          assert r[j] in rest;
          if r[j] != x {
            assert r[j] in s[1..];
          }
        } else {
          assert le(rest[i - 1], rest[j - 1]);
        }
      }
    }
  }

  lemma {:induction false} StableSortSorts<T(!new)>(s: seq<T>, le: (T, T) -> bool)
    requires TotalPreorder(le)
    ensures SortedBy(StableSort(s, le), le)
  {
    if s != [] {
      StableSortSorts(s[1..], le);
      InsertSorted(s[0], StableSort(s[1..], le), le);
    }
  }

  lemma {:induction false} SumByInsert<T(!new)>(x: T, s: seq<T>, le: (T, T) -> bool, f: T -> real)
    ensures SumBy(Insert(x, s, le), f) == f(x) + SumBy(s, f)
  {
    if s == [] || le(x, s[0]) {
    } else {
      SumByInsert(x, s[1..], le, f);
    }
  }

  lemma {:induction false} SumBySort<T(!new)>(s: seq<T>, le: (T, T) -> bool, f: T -> real)
    ensures SumBy(StableSort(s, le), f) == SumBy(s, f)
  {
    if s != [] {
      SumBySort(s[1..], le, f);
      SumByInsert(s[0], StableSort(s[1..], le), le, f);
    }
  }

  // ------------------------------------------------------------- distinct

  /** No two elements share a key: what a primary key promises of a list of rows. */
  ghost predicate Distinct<T(!new), K>(s: seq<T>, key: T -> K) {
    s != [] ==> (forall y :: y in s[1..] ==> key(y) != key(s[0])) && Distinct(s[1..], key)
  }

  lemma {:induction false} DistinctFilter<T(!new), K>(s: seq<T>, key: T -> K, p: T -> bool)
    requires Distinct(s, key)
    ensures Distinct(Filter(s, p), key)
  {
    if s != [] {
      DistinctFilter(s[1..], key, p);
      if p(s[0]) {
        assert Filter(s, p)[1..] == Filter(s[1..], p);
      }
    }
  }

  lemma {:induction false} DistinctInsert<T(!new), K>(x: T, s: seq<T>, le: (T, T) -> bool, key: T -> K)
    requires Distinct(s, key) && forall y :: y in s ==> key(y) != key(x)
    ensures Distinct(Insert(x, s, le), key)
  {
    if s == [] || le(x, s[0]) {
      assert ([x] + s)[1..] == s;
    } else {
      DistinctInsert(x, s[1..], le, key);
      assert Insert(x, s, le)[1..] == Insert(x, s[1..], le);
    }
  }

  lemma {:induction false} DistinctSort<T(!new), K>(s: seq<T>, le: (T, T) -> bool, key: T -> K)
    requires Distinct(s, key)
    ensures Distinct(StableSort(s, le), key)
  {
    if s != [] {
      DistinctSort(s[1..], le, key);
      DistinctInsert(s[0], StableSort(s[1..], le), le, key);
    }
  }

  lemma {:induction false} SameKeySameElement<T(!new), K>(s: seq<T>, key: T -> K, x: T, y: T)
    requires Distinct(s, key) && x in s && y in s && key(x) == key(y)
    ensures x == y
  {
    if x != s[0] && y != s[0] {
      SameKeySameElement(s[1..], key, x, y);
    }
  }

  lemma {:induction false} DistinctPrefix<T(!new), K>(before: seq<T>, last: T, key: T -> K)
    requires Distinct(before + [last], key)
    ensures Distinct(before, key)
  {
    if before != [] {
      assert (before + [last])[1..] == before[1..] + [last];
      DistinctPrefix(before[1..], last, key);
    }
  }

  lemma {:induction false} SameKeysDistinct<T(!new), K>(a: seq<T>, b: seq<T>, key: T -> K)
    requires |a| == |b| && Distinct(a, key)
    requires forall i :: 0 <= i < |a| ==> key(a[i]) == key(b[i])
    ensures Distinct(b, key)
  {
    if a != [] {
      forall y | y in b[1..]
        ensures key(y) != key(b[0])
      {
        var i :| 0 <= i < |b[1..]| && b[1..][i] == y;
        assert a[1..][i] in a[1..];
      }
      SameKeysDistinct(a[1..], b[1..], key);
    }
  }

  // ------------------------------------------------------- sort, filter and map

  function MapSeq<T, U>(s: seq<T>, f: T -> U): seq<U> {
    if s == [] then [] else [f(s[0])] + MapSeq(s[1..], f)
  }

  lemma {:induction false} MapSeqAt<T, U>(s: seq<T>, f: T -> U)
    ensures |MapSeq(s, f)| == |s| && forall i :: 0 <= i < |s| ==> MapSeq(s, f)[i] == f(s[i])
  {
    if s != [] {
      MapSeqAt(s[1..], f);
    }
  }

  lemma {:induction false} SumByMap<T, U>(s: seq<T>, f: T -> U, g: U -> real, h: T -> real)
    requires forall x :: x in s ==> g(f(x)) == h(x)
    ensures SumBy(MapSeq(s, f), g) == SumBy(s, h)
  {
    if s != [] {
      SumByMap(s[1..], f, g, h);
      assert MapSeq(s, f)[1..] == MapSeq(s[1..], f);
    }
  }

  lemma {:induction false} InsertFilter<T(!new)>(x: T, s: seq<T>, le: (T, T) -> bool, p: T -> bool)
    requires TotalPreorder(le) && SortedBy(s, le)
    ensures Filter(Insert(x, s, le), p) == if p(x) then Insert(x, Filter(s, p), le) else Filter(s, p)
  {
    if s == [] || le(x, s[0]) {
      assert ([x] + s)[1..] == s;
      var f := Filter(s, p);
      if f != [] {
        assert f[0] in s;
        var k :| 0 <= k < |s| && s[k] == f[0];
        assert s != [] && (k == 0 || le(s[0], s[k]));
      }
    } else {
      InsertFilter(x, s[1..], le, p);
      assert Insert(x, s, le)[1..] == Insert(x, s[1..], le);
      if p(s[0]) {
        assert Filter(s, p)[1..] == Filter(s[1..], p);
      }
    }
  }

  /** Filtering before or after a stable sort is the same. */
  lemma {:induction false} SortFilter<T(!new)>(s: seq<T>, le: (T, T) -> bool, p: T -> bool)
    requires TotalPreorder(le)
    ensures Filter(StableSort(s, le), p) == StableSort(Filter(s, p), le)
  {
    if s != [] {
      SortFilter(s[1..], le, p);
      StableSortSorts(s[1..], le);
      InsertFilter(s[0], StableSort(s[1..], le), le, p);
      if p(s[0]) {
        assert Filter(s, p)[1..] == Filter(s[1..], p);
      }
    }
  }

  lemma {:induction false} InsertMap<T(!new)>(x: T, s: seq<T>, le: (T, T) -> bool, f: T -> T)
    requires forall y, z :: le(f(y), f(z)) <==> le(y, z)
    ensures MapSeq(Insert(x, s, le), f) == Insert(f(x), MapSeq(s, f), le)
  {
    if s == [] || le(x, s[0]) {
      assert ([x] + s)[1..] == s;
    } else {
      InsertMap(x, s[1..], le, f);
      assert Insert(x, s, le)[1..] == Insert(x, s[1..], le);
      assert MapSeq(s, f)[1..] == MapSeq(s[1..], f);
    }
  }

  /** Changing elements without changing how they compare commutes with a stable sort. */
  lemma {:induction false} SortMap<T(!new)>(s: seq<T>, le: (T, T) -> bool, f: T -> T)
    requires forall y, z :: le(f(y), f(z)) <==> le(y, z)
    ensures MapSeq(StableSort(s, le), f) == StableSort(MapSeq(s, f), le)
  {
    if s != [] {
      SortMap(s[1..], le, f);
      InsertMap(s[0], StableSort(s[1..], le), le, f);
      assert MapSeq(s, f)[1..] == MapSeq(s[1..], f);
    }
  }

  lemma {:induction false} DistinctMap<T(!new), K>(s: seq<T>, f: T -> T, key: T -> K)
    requires Distinct(s, key) && forall x :: key(f(x)) == key(x)
    ensures Distinct(MapSeq(s, f), key)
  {
    if s != [] {
      DistinctMap(s[1..], f, key);
      MapSeqAt(s[1..], f);
      assert MapSeq(s, f)[1..] == MapSeq(s[1..], f);
      forall y | y in MapSeq(s[1..], f)
        ensures key(y) != key(f(s[0]))
      {
        var i :| 0 <= i < |s[1..]| && MapSeq(s[1..], f)[i] == y;
        assert s[1..][i] in s[1..];
      }
    }
  }
}
