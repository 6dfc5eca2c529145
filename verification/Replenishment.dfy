/** How much of a product sells in a day (apps/api/src/replenishment.ts): the shelf reconstructed
    backwards from the ledger, and a rate over the days the goods could be bought. */
module Replenishment {
  import opened Lists

  /** `dayIndex` counts days ago, 0 being today; sales are negative, receipts positive. */
  datatype DailyMovement = DailyMovement(dayIndex: int, quantity: real)

  datatype DemandEstimate = DemandEstimate(
    perDay: Option<real>, daysInStock: nat, daysOutOfStock: nat, soldInWindow: real, soldInStock: real)

  // ---------------------------------------------------------- closing balances

  function On(day: int): DailyMovement -> real {
    (m: DailyMovement) => if m.dayIndex == day then m.quantity else 0.0
  }

  /** Movements of the days after day `day`, today included. */
  function Since(day: int): DailyMovement -> real {
    (m: DailyMovement) => if 0 <= m.dayIndex < day then m.quantity else 0.0
  }

  /** Each element of the result is the balance at the end of that day: today's less everything
      that moved on the days after it. An empty window still answers today's balance. */
  method BuildDailyClosingBalances(currentQuantity: real, movements: seq<DailyMovement>, windowDays: nat)
    returns (balances: seq<real>)
    ensures |balances| == if windowDays == 0 then 1 else windowDays
    ensures forall d :: 0 <= d < |balances| ==> balances[d] == currentQuantity - SumBy(movements, Since(d))
  {
    hide SumBy;
    var netByDay := NetByDay(movements, windowDays);
    var closing := new real[if windowDays == 0 then 1 else windowDays](_ => 0.0);
    closing[0] := currentQuantity;
    NothingSinceToday(movements);
    var day := 1;
    while day < windowDays
      invariant 1 <= day && (day <= windowDays || windowDays == 0)
      invariant forall d :: 0 <= d < windowDays ==> netByDay[d] == SumBy(movements, On(d))
      invariant forall d ::
        0 <= d < day && d < closing.Length ==> closing[d] == currentQuantity - SumBy(movements, Since(d))
    {
      OneDayMore(movements, day - 1);
      closing[day] := closing[day - 1] - netByDay[day - 1];
      day := day + 1;
    }
    balances := closing[..];
  }

  method NetByDay(movements: seq<DailyMovement>, windowDays: nat) returns (netByDay: array<real>)
    ensures fresh(netByDay) && netByDay.Length == windowDays
    ensures forall d :: 0 <= d < windowDays ==> netByDay[d] == SumBy(movements, On(d))
  {
    netByDay := new real[windowDays](_ => 0.0);
    var i := 0;
    while i < |movements|
      invariant i <= |movements|
      invariant forall d :: 0 <= d < windowDays ==> netByDay[d] == SumBy(movements[..i], On(d))
    {
      var movement := movements[i];
      forall d
        ensures SumBy(movements[..i + 1], On(d)) == SumBy(movements[..i], On(d)) + On(d)(movement)
      {
        OneMore(movements, i, On(d));
      }
      i := i + 1;
      if movement.dayIndex < 0 || movement.dayIndex >= windowDays {
        continue;
      }
      netByDay[movement.dayIndex] := netByDay[movement.dayIndex] + movement.quantity;
    }
    assert movements[..i] == movements;
  }

  lemma OneMore(movements: seq<DailyMovement>, i: nat, f: DailyMovement -> real)
    requires i < |movements|
    ensures SumBy(movements[..i + 1], f) == SumBy(movements[..i], f) + f(movements[i])
  {
    var last := [movements[i]];
    assert movements[..i + 1] == movements[..i] + last && last[1..] == [];
    SumByConcat(movements[..i], last, f);
  }

  lemma {:induction false} NothingSinceToday(movements: seq<DailyMovement>)
    ensures SumBy(movements, Since(0)) == 0.0
  {
    if movements != [] {
      NothingSinceToday(movements[1..]);
    }
  }

  lemma {:induction false} OneDayMore(movements: seq<DailyMovement>, day: nat)
    ensures SumBy(movements, Since(day + 1)) == SumBy(movements, Since(day)) + SumBy(movements, On(day))
  {
    if movements != [] {
      OneDayMore(movements[1..], day);
    }
  }

  // ------------------------------------------------------------------- demand

  /** Demand of one day: what was sold less what was handed back. */
  function SoldOn(day: int, counts: DailyMovement -> bool): DailyMovement -> real {
    (m: DailyMovement) => if m.dayIndex == day && counts(m) then -m.quantity else 0.0
  }

  function SoldWithin(days: int, counts: DailyMovement -> bool): DailyMovement -> real {
    (m: DailyMovement) => if 0 <= m.dayIndex < days && counts(m) then -m.quantity else 0.0
  }

  /** The goods could be bought that day: something was left, or something sold. */
  predicate Available(closing: seq<real>, movements: seq<DailyMovement>, counts: DailyMovement -> bool, day: nat)
    requires day < |closing|
  {
    closing[day] > 0.0 || SumBy(movements, SoldOn(day, counts)) > 0.0
  }

  function DaysAvailable(closing: seq<real>, movements: seq<DailyMovement>, counts: DailyMovement -> bool,
      upTo: nat): (r: nat)
    requires upTo <= |closing|
    ensures r <= upTo
  {
    if upTo == 0 then 0
    else
      DaysAvailable(closing, movements, counts, upTo - 1)
      + if Available(closing, movements, counts, upTo - 1) then 1 else 0
  }

  function SoldAvailable(closing: seq<real>, movements: seq<DailyMovement>, counts: DailyMovement -> bool,
      upTo: nat): real
    requires upTo <= |closing|
  {
    if upTo == 0 then 0.0
    else SoldAvailable(closing, movements, counts, upTo - 1)
         + if Available(closing, movements, counts, upTo - 1) then SumBy(movements, SoldOn(upTo - 1, counts)) else 0.0
  }

  function Estimate(closing: seq<real>, movements: seq<DailyMovement>, counts: DailyMovement -> bool): DemandEstimate {
    var days := DaysAvailable(closing, movements, counts, |closing|);
    var sold := SoldAvailable(closing, movements, counts, |closing|);
    DemandEstimate(
      if days > 0 then Some(Max(sold / days as real, 0.0)) else None,
      days, |closing| - days, Max(SumBy(movements, SoldWithin(|closing|, counts)), 0.0), Max(sold, 0.0))
  }

  method EstimateDailyDemand(closing: seq<real>, movements: seq<DailyMovement>, counts: DailyMovement -> bool)
    returns (r: DemandEstimate)
    ensures r == Estimate(closing, movements, counts)
  {
    var windowDays := |closing|;
    hide SumBy;
    var soldByDay, soldInWindow := SoldByDay(movements, windowDays, counts);
    var daysInStock, sellableSold, day := 0, 0.0, 0;
    while day < windowDays
      invariant day <= windowDays
      invariant daysInStock == DaysAvailable(closing, movements, counts, day)
      invariant sellableSold == SoldAvailable(closing, movements, counts, day)
    {
      var available := closing[day] > 0.0 || soldByDay[day] > 0.0;
      if available {
        daysInStock := daysInStock + 1;
        sellableSold := sellableSold + soldByDay[day];
      }
      day := day + 1;
    }
    r := DemandEstimate(
      if daysInStock > 0 then Some(Max(sellableSold / daysInStock as real, 0.0)) else None,
      daysInStock, windowDays - daysInStock, Max(soldInWindow, 0.0), Max(sellableSold, 0.0));
  }

  method SoldByDay(movements: seq<DailyMovement>, windowDays: nat, counts: DailyMovement -> bool)
    returns (soldByDay: array<real>, soldInWindow: real)
    ensures fresh(soldByDay) && soldByDay.Length == windowDays
    ensures forall d :: 0 <= d < windowDays ==> soldByDay[d] == SumBy(movements, SoldOn(d, counts))
    ensures soldInWindow == SumBy(movements, SoldWithin(windowDays, counts))
  {
    soldByDay := new real[windowDays](_ => 0.0);
    soldInWindow := 0.0;
    var i := 0;
    while i < |movements|
      invariant i <= |movements|
      invariant forall d :: 0 <= d < windowDays ==> soldByDay[d] == SumBy(movements[..i], SoldOn(d, counts))
      invariant soldInWindow == SumBy(movements[..i], SoldWithin(windowDays, counts))
    {
      var movement := movements[i];
      forall d
        ensures SumBy(movements[..i + 1], SoldOn(d, counts)) ==
          SumBy(movements[..i], SoldOn(d, counts)) + SoldOn(d, counts)(movement)
      {
        OneMore(movements, i, SoldOn(d, counts));
      }
      OneMore(movements, i, SoldWithin(windowDays, counts));
      i := i + 1;
      if movement.dayIndex < 0 || movement.dayIndex >= windowDays {
        continue;
      }
      if !counts(movement) {
        continue;
      }
      var sold := -movement.quantity;
      soldByDay[movement.dayIndex] := soldByDay[movement.dayIndex] + sold;
      soldInWindow := soldInWindow + sold;
    }
    assert movements[..i] == movements;
  }

  // ------------------------------------------------- demand is not understated

  lemma {:induction false} SoldWithinGrows(movements: seq<DailyMovement>, day: nat, counts: DailyMovement -> bool)
    ensures SumBy(movements, SoldWithin(day + 1, counts)) ==
      SumBy(movements, SoldWithin(day, counts)) + SumBy(movements, SoldOn(day, counts))
  {
    if movements != [] {
      SoldWithinGrows(movements[1..], day, counts);
    }
  }

  lemma {:induction false} NothingSoldWithinNothing(movements: seq<DailyMovement>, counts: DailyMovement -> bool)
    ensures SumBy(movements, SoldWithin(0, counts)) == 0.0
  {
    if movements != [] {
      NothingSoldWithinNothing(movements[1..], counts);
    }
  }

  /** Days left out of the rate never had net sales, so leaving them out loses no demand; with no
      day left in, nothing net was sold. */
  lemma {:induction false} NothingIsLeftOut(closing: seq<real>, movements: seq<DailyMovement>,
      counts: DailyMovement -> bool, upTo: nat)
    requires upTo <= |closing|
    ensures SoldAvailable(closing, movements, counts, upTo) >= SumBy(movements, SoldWithin(upTo, counts))
    ensures DaysAvailable(closing, movements, counts, upTo) == 0
      ==> SoldAvailable(closing, movements, counts, upTo) == 0.0
  {
    if upTo == 0 {
      NothingSoldWithinNothing(movements, counts);
    } else {
      NothingIsLeftOut(closing, movements, counts, upTo - 1);
      SoldWithinGrows(movements, upTo - 1, counts);
    }
  }

  lemma RateAtLeast(sold: real, days: nat, window: nat, inWindow: real)
    requires 0 < days <= window && sold >= inWindow
    ensures Max(sold / days as real, 0.0) >= Max(inWindow, 0.0) / window as real
  {
    var d, w := days as real, window as real;
    if inWindow <= 0.0 {
      assert Max(inWindow, 0.0) == 0.0;
      assert 0.0 / w == 0.0;
    } else {
      Quotients(inWindow, sold, d, w);
    }
  }

  lemma Quotients(a: real, b: real, d: real, w: real)
    requires 0.0 < a <= b && 0.0 < d <= w
    ensures b / d >= a / w
  {
    var x, y := b / d, a / w;
    assert x * d == b && y * w == a;
    if x < y {
      assert x * d < y * d;
      assert y * d <= y * w;
    }
  }

  /** The rate is never below what sold spread over the whole window; it is unknown only when
      nothing net was sold, and exactly when there was no day the goods could be bought; and it is
      the quotient of the two figures shown beside it. */
  lemma DemandIsNeverUnderstated(closing: seq<real>, movements: seq<DailyMovement>, counts: DailyMovement -> bool)
    ensures
      var e := Estimate(closing, movements, counts);
      && (e.perDay.Some? ==> e.perDay.value >= e.soldInWindow / |closing| as real)
      && (e.perDay.Some? ==> e.perDay.value == e.soldInStock / e.daysInStock as real)
      && (e.perDay.None? ==> e.soldInWindow == 0.0)
      && (e.perDay.None? <==>
            forall d :: 0 <= d < |closing| ==> closing[d] <= 0.0 && SumBy(movements, SoldOn(d, counts)) <= 0.0)
      && e.daysInStock + e.daysOutOfStock == |closing|
  {
    var e := Estimate(closing, movements, counts);
    var sold := SoldAvailable(closing, movements, counts, |closing|);
    NothingIsLeftOut(closing, movements, counts, |closing|);
    NoDayAvailable(closing, movements, counts, |closing|);
    if e.daysInStock > 0 {
      RateAtLeast(sold, e.daysInStock, |closing|, SumBy(movements, SoldWithin(|closing|, counts)));
      FlooredQuotient(sold, e.daysInStock as real);
    }
  }

  lemma FlooredQuotient(sold: real, days: real)
    requires days > 0.0
    ensures Max(sold / days, 0.0) == Max(sold, 0.0) / days
  {
    var q := sold / days;
    assert q * days == sold;
    if sold < 0.0 {
      assert q < 0.0;
    } else {
      assert q >= 0.0;
    }
  }

  lemma {:induction false} NoDayAvailable(closing: seq<real>, movements: seq<DailyMovement>,
      counts: DailyMovement -> bool, upTo: nat)
    requires upTo <= |closing|
    ensures DaysAvailable(closing, movements, counts, upTo) == 0 <==>
      forall d :: 0 <= d < upTo ==> closing[d] <= 0.0 && SumBy(movements, SoldOn(d, counts)) <= 0.0
  {
    if upTo > 0 {
      NoDayAvailable(closing, movements, counts, upTo - 1);
    }
  }

  // ------------------------------------------------- which days are counted

  /** The days of the window before `upTo` on which something was left on the shelf or something net sold. */
  ghost function SellingDays(closing: seq<real>, movements: seq<DailyMovement>, counts: DailyMovement -> bool,
      upTo: nat): set<int>
    requires upTo <= |closing|
  {
    set d | 0 <= d < upTo && (closing[d] > 0.0 || SumBy(movements, SoldOn(d, counts)) > 0.0)
  }

  /** Demand of these days. */
  ghost function SoldOnDays(days: set<int>, counts: DailyMovement -> bool): DailyMovement -> real {
    (m: DailyMovement) => if m.dayIndex in days && counts(m) then -m.quantity else 0.0
  }

  lemma {:induction false} OneDayAdded(movements: seq<DailyMovement>, days: set<int>, d: int,
      counts: DailyMovement -> bool)
    requires d !in days
    ensures SumBy(movements, SoldOnDays(days + {d}, counts)) ==
      SumBy(movements, SoldOnDays(days, counts)) + SumBy(movements, SoldOn(d, counts))
  {
    if movements != [] {
      OneDayAdded(movements[1..], days, d, counts);
    }
  }

  lemma {:induction false} NoDays(movements: seq<DailyMovement>, counts: DailyMovement -> bool)
    ensures SumBy(movements, SoldOnDays({}, counts)) == 0.0
  {
    if movements != [] {
      NoDays(movements[1..], counts);
    }
  }

  lemma {:induction false} DaysAreCounted(closing: seq<real>, movements: seq<DailyMovement>,
      counts: DailyMovement -> bool, upTo: nat)
    requires upTo <= |closing|
    ensures
      var days := SellingDays(closing, movements, counts, upTo);
      && DaysAvailable(closing, movements, counts, upTo) == |days|
      && SoldAvailable(closing, movements, counts, upTo) == SumBy(movements, SoldOnDays(days, counts))
  {
    hide SumBy;
    var days := SellingDays(closing, movements, counts, upTo);
    if upTo == 0 {
      assert days == {};
      NoDays(movements, counts);
    } else {
      var d, before := upTo - 1, SellingDays(closing, movements, counts, upTo - 1);
      DaysAreCounted(closing, movements, counts, d);
      if closing[d] > 0.0 || SumBy(movements, SoldOn(d, counts)) > 0.0 {
        assert days == before + {d};
        OneDayAdded(movements, before, d, counts);
      } else {
        assert days == before;
      }
    }
  }

  /** The days of a window. */
  ghost function Window(n: nat): (days: set<int>)
    ensures |days| == n && forall d :: d in days <==> 0 <= d < n
  {
    if n == 0 then {} else Window(n - 1) + {n - 1}
  }

  lemma {:induction false} WindowDays(movements: seq<DailyMovement>, n: nat, counts: DailyMovement -> bool)
    ensures SumBy(movements, SoldWithin(n, counts)) ==
      SumBy(movements, SoldOnDays(Window(n), counts))
  {
    SumBySame(movements, SoldWithin(n, counts), SoldOnDays(Window(n), counts));
  }

  /** The estimate, figure by figure: the days counted are those with something left or something net sold,
      what was sold is summed over them, and the rate is the one over the other. */
  lemma EstimateMeans(closing: seq<real>, movements: seq<DailyMovement>, counts: DailyMovement -> bool)
    ensures
      var e := Estimate(closing, movements, counts);
      var days := set d | 0 <= d < |closing| && (closing[d] > 0.0 || SumBy(movements, SoldOn(d, counts)) > 0.0);
      && e.daysInStock == |days| && e.daysOutOfStock == |closing| - |days|
      && e.soldInStock == Max(SumBy(movements, SoldOnDays(days, counts)), 0.0)
      && e.soldInWindow == Max(SumBy(movements, SoldOnDays(Window(|closing|), counts)), 0.0)
      && (e.perDay.None? <==> days == {})
      && (e.perDay.Some? ==> e.perDay.value * |days| as real == e.soldInStock)
  {
    hide SumBy, SellingDays, DaysAvailable, SoldAvailable;
    DaysAreCounted(closing, movements, counts, |closing|);
    WindowDays(movements, |closing|, counts);
    SellingDaysAre(closing, movements, counts);
    var days := SellingDays(closing, movements, counts, |closing|);
    if days != {} {
      FlooredQuotient(SumBy(movements, SoldOnDays(days, counts)), |days| as real);
    }
  }

  lemma SellingDaysAre(closing: seq<real>, movements: seq<DailyMovement>, counts: DailyMovement -> bool)
    ensures SellingDays(closing, movements, counts, |closing|) ==
      set d | 0 <= d < |closing| && (closing[d] > 0.0 || SumBy(movements, SoldOn(d, counts)) > 0.0)
  {
  }

  /** Days with an empty shelf and no net sale raise the rate above sales over the calendar. */
  lemma EmptyDaysRaiseTheRate(closing: seq<real>, movements: seq<DailyMovement>, counts: DailyMovement -> bool, d: nat)
    requires d < |closing| && closing[d] <= 0.0 && SumBy(movements, SoldOn(d, counts)) <= 0.0
    requires Estimate(closing, movements, counts).soldInWindow > 0.0
    ensures
      var e := Estimate(closing, movements, counts);
      e.perDay.Some? && e.perDay.value > e.soldInWindow / |closing| as real
  {
    hide SumBy;
    var e := Estimate(closing, movements, counts);
    DemandIsNeverUnderstated(closing, movements, counts);
    NothingIsLeftOut(closing, movements, counts, |closing|);
    DaysAreCounted(closing, movements, counts, |closing|);
    var days, window := SellingDays(closing, movements, counts, |closing|), Window(|closing|);
    assert days <= window - {d};
    SmallerSet(days, window - {d});
    LargerQuotient(e.soldInWindow, e.soldInStock, e.daysInStock as real, |closing| as real);
  }

  lemma SmallerSet(a: set<int>, b: set<int>)
    requires a <= b
    ensures |a| <= |b|
  {
    assert b == a + (b - a);
  }

  lemma LargerQuotient(a: real, b: real, d: real, w: real)
    requires 0.0 < a <= b && 0.0 < d < w
    ensures b / d > a / w
  {
    var x, y := b / d, a / w;
    assert x * d == b && y * w == a;
    assert y > 0.0;
    assert y * d < y * w;
  }

  // ------------------------------------------------------ how far the read went

  /** A row of the ledger; `at` is a moment, in milliseconds. */
  datatype LedgerRow = LedgerRow(at: int, quantity: real)

  const MS_PER_DAY := 86_400_000

  /** The day a row falls on: its age, rounded down. */
  function DayIndex(row: LedgerRow, now: int): int {
    (now - row.at) / MS_PER_DAY
  }

  function ToDaily(now: int): LedgerRow -> DailyMovement {
    (r: LedgerRow) => DailyMovement(DayIndex(r, now), r.quantity)
  }

  /** For how many days the ledger was really read; `movements` come newest first. */
  function DemandWindowDays(movements: seq<LedgerRow>, windowDays: int, limit: int, now: int): int {
    if |movements| < limit || movements == [] then windowDays
    else
      var covered := DayIndex(movements[|movements| - 1], now) + 1;
      var atLeastOne := if covered >= 1 then covered else 1;
      if atLeastOne <= windowDays then atLeastOne else windowDays
  }

  ghost predicate NewestFirst(rows: seq<LedgerRow>) {
    forall i, j :: 0 <= i < j < |rows| ==> rows[i].at >= rows[j].at
  }

  /** The window is never wider than asked; when the limit cut the read it ends with the day of the
      oldest row read, unless that is as old as the window asked for, and is never less than a day. */
  lemma WindowReachesWhatWasRead(movements: seq<LedgerRow>, windowDays: int, limit: int, now: int)
    requires windowDays >= 1
    ensures
      var days := DemandWindowDays(movements, windowDays, limit, now);
      && 1 <= days <= windowDays
      && (|movements| < limit || movements == [] ==> days == windowDays)
      && (|movements| >= limit && movements != [] ==>
            var age := now - movements[|movements| - 1].at;
            if age < 0 then days == 1
            else if age < (windowDays - 1) * 86_400_000 then (days - 1) * 86_400_000 <= age < days * 86_400_000
            else days == windowDays)
  {
  }

  /** Rows the read did not reach are no newer than its last row, so none falls on an earlier day index. */
  lemma UnreadIsOlder(all: seq<LedgerRow>, limit: nat, now: int, i: nat)
    requires NewestFirst(all) && 0 < limit <= i < |all|
    ensures DayIndex(all[i], now) >= DayIndex(all[limit - 1], now)
  {
  }

  lemma {:induction false} UnreadAddsNothing(rest: seq<LedgerRow>, now: int, f: DailyMovement -> real)
    requires forall r :: r in rest ==> f(ToDaily(now)(r)) == 0.0
    ensures SumBy(MapSeq(rest, ToDaily(now)), f) == 0.0
  {
    if rest != [] {
      UnreadAddsNothing(rest[1..], now, f);
      assert MapSeq(rest, ToDaily(now))[1..] == MapSeq(rest[1..], ToDaily(now));
    }
  }

  lemma {:induction false} MapConcat(a: seq<LedgerRow>, b: seq<LedgerRow>, f: LedgerRow -> DailyMovement)
    ensures MapSeq(a + b, f) == MapSeq(a, f) + MapSeq(b, f)
  {
    if a == [] {
      assert a + b == b;
    } else {
      assert (a + b)[1..] == a[1..] + b;
      MapConcat(a[1..], b, f);
    }
  }

  /** Only what lies on day `k` or before it can be missing, when no unread row is later than that. */
  lemma ReadIsWhole(all: seq<LedgerRow>, limit: nat, now: int, k: int, f: DailyMovement -> real)
    requires limit <= |all| && forall i :: limit <= i < |all| ==> DayIndex(all[i], now) >= k
    requires forall m: DailyMovement :: m.dayIndex >= k ==> f(m) == 0.0
    ensures SumBy(MapSeq(all[..limit], ToDaily(now)), f) == SumBy(MapSeq(all, ToDaily(now)), f)
  {
    hide DayIndex, SumBy, MapSeq;
    forall r | r in all[limit..]
      ensures f(ToDaily(now)(r)) == 0.0
    {
      var i :| 0 <= i < |all[limit..]| && all[limit..][i] == r;
      assert all[limit + i] == r;
    }
    UnreadAddsNothing(all[limit..], now, f);
    SplitSum(all, limit, now, f);
  }

  lemma SplitSum(all: seq<LedgerRow>, limit: nat, now: int, f: DailyMovement -> real)
    requires limit <= |all|
    ensures SumBy(MapSeq(all, ToDaily(now)), f) ==
      SumBy(MapSeq(all[..limit], ToDaily(now)), f) + SumBy(MapSeq(all[limit..], ToDaily(now)), f)
  {
    hide SumBy, MapSeq, DayIndex;
    assert all == all[..limit] + all[limit..];
    MapConcat(all[..limit], all[limit..], ToDaily(now));
    SumByConcat(MapSeq(all[..limit], ToDaily(now)), MapSeq(all[limit..], ToDaily(now)), f);
  }

  /** Over the narrowed window a cut read says what the whole ledger says: every closing balance is
      the same, and so are the sales of every day before the oldest row read; the sales of its own
      day are too when the first unread row falls on an earlier one. */
  lemma NarrowedWindowIsTruthful(
    all: seq<LedgerRow>, limit: nat, windowDays: int, now: int, counts: DailyMovement -> bool, d: nat)
    requires NewestFirst(all) && 0 < limit <= |all| && windowDays >= 1
    requires all[limit - 1].at <= now && d < DemandWindowDays(all[..limit], windowDays, limit, now)
    ensures
      var read, whole := MapSeq(all[..limit], ToDaily(now)), MapSeq(all, ToDaily(now));
      var last := DayIndex(all[limit - 1], now);
      && SumBy(read, Since(d)) == SumBy(whole, Since(d))
      && (d < last || limit == |all| || DayIndex(all[limit], now) > last ==>
            SumBy(read, SoldOn(d, counts)) == SumBy(whole, SoldOn(d, counts)))
  {
    hide SumBy, MapSeq;
    assert all[..limit][limit - 1] == all[limit - 1];
    var last := DayIndex(all[limit - 1], now);
    assert d <= last;
    forall i | limit <= i < |all|
      ensures DayIndex(all[i], now) >= last
      ensures DayIndex(all[i], now) >= DayIndex(all[limit], now)
    {
      UnreadIsOlder(all, limit, now, i);
      if i > limit {
        UnreadIsOlder(all, limit + 1, now, i);
      }
    }
    ReadIsWhole(all, limit, now, last, Since(d));
    if d < last {
      ReadIsWhole(all, limit, now, last, SoldOn(d, counts));
    } else if limit == |all| || DayIndex(all[limit], now) > last {
      ReadIsWhole(all, limit, now, last + 1, SoldOn(d, counts));
    }
  }

  /** Rows that are all sales, and counted: what was handed back would be positive. */
  ghost predicate SalesOnly(rows: seq<LedgerRow>, now: int, counts: DailyMovement -> bool) {
    forall r :: r in rows ==> r.quantity < 0.0 && counts(ToDaily(now)(r))
  }

  /** A sale that falls on a day is part of that day's demand. */
  lemma {:induction false} SalesAddUp(rows: seq<LedgerRow>, now: int, counts: DailyMovement -> bool, d: int)
    requires SalesOnly(rows, now, counts)
    ensures SumBy(MapSeq(rows, ToDaily(now)), SoldOn(d, counts)) >= 0.0
    ensures rows != [] && DayIndex(rows[0], now) == d ==> SumBy(MapSeq(rows, ToDaily(now)), SoldOn(d, counts)) > 0.0
  {
    hide DayIndex;
    if rows != [] {
      assert rows[0] in rows;
      SalesAddUp(rows[1..], now, counts, d);
      assert MapSeq(rows, ToDaily(now))[1..] == MapSeq(rows[1..], ToDaily(now));
    }
  }

  /** When the rows beyond the limit are sales, a day of the narrowed window is read whole exactly when
      it lies before the day of the oldest row read, or no row of that day is beyond the limit: which
      the first row beyond it tells. */
  lemma LastDayIsWholeIff(
    all: seq<LedgerRow>, limit: nat, windowDays: int, now: int, counts: DailyMovement -> bool, d: nat)
    requires NewestFirst(all) && 0 < limit <= |all| && windowDays >= 1
    requires all[limit - 1].at <= now && d < DemandWindowDays(all[..limit], windowDays, limit, now)
    requires SalesOnly(all[limit..], now, counts)
    ensures
      var read, whole := MapSeq(all[..limit], ToDaily(now)), MapSeq(all, ToDaily(now));
      var last := DayIndex(all[limit - 1], now);
      SumBy(read, SoldOn(d, counts)) == SumBy(whole, SoldOn(d, counts)) <==>
        d < last || limit == |all| || DayIndex(all[limit], now) > last
  {
    hide SumBy, MapSeq;
    NarrowedWindowIsTruthful(all, limit, windowDays, now, counts, d);
    assert all[..limit][limit - 1] == all[limit - 1];
    if limit < |all| {
      UnreadIsOlder(all, limit, now, limit);
      SplitSum(all, limit, now, SoldOn(d, counts));
      assert all[limit..][0] == all[limit];
      SalesAddUp(all[limit..], now, counts, d);
    }
  }

  /** Whatever the limit, one sale more at the moment of the oldest row read is a day read in part. */
  lemma LastDayMayBeShort(limit: nat, windowDays: int, now: int)
    requires limit > 0 && windowDays >= 1
    ensures
      var all := seq(limit + 1, _ => LedgerRow(now, -1.0));
      var counts := (m: DailyMovement) => true;
      var read, whole := MapSeq(all[..limit], ToDaily(now)), MapSeq(all, ToDaily(now));
      && DemandWindowDays(all[..limit], windowDays, limit, now) == 1
      && SumBy(read, SoldOn(0, counts)) < SumBy(whole, SoldOn(0, counts))
  {
    hide SumBy, MapSeq;
    var all := seq(limit + 1, _ => LedgerRow(now, -1.0));
    var counts := (m: DailyMovement) => true;
    assert all[..limit][limit - 1] == all[limit - 1];
    LastDayIsWholeIff(all, limit, windowDays, now, counts, 0);
    SplitSum(all, limit, now, SoldOn(0, counts));
    SalesAddUp(all[limit..], now, counts, 0);
  }
}
