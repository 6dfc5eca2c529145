/** Inventory counts by shelf (apps/api/src/counts.ts): rewinding the ledger to the moment
    of counting, and the adjustments a count asserts. */
module Counts {
  import opened Lists
  import opened JsMap
  import opened Reconciliation

  /** A line of a count, a cached row or a signed movement: an amount of one product on one shelf. */
  datatype ShelfLine = ShelfLine(productId: string, binLocation: string, quantity: real)

  datatype BinCountAdjustment = BinCountAdjustment(
    productId: string, binLocation: string, systemQuantity: real, countedQuantity: real, delta: real)

  function KeyOf(line: ShelfLine): string {
    ShelfKey(line.productId, line.binLocation)
  }

  // ------------------------------------------------------- the map the loops fill

  /** A line as it is added up, or as it is undone. */
  function Amount(line: ShelfLine, undo: bool): real {
    if undo then -line.quantity else line.quantity
  }

  /** The entry a line leaves: the first for a shelf is copied, later ones add to it. */
  function Merged(m: seq<(string, ShelfLine)>, line: ShelfLine, undo: bool): ShelfLine {
    match Get(m, KeyOf(line))
    case Some(existing) => existing.(quantity := existing.quantity + Amount(line, undo))
    case None => line.(quantity := Amount(line, undo))
  }

  /** What a loop that adds lines up per shelf leaves in its map. */
  function AddedAll(m: seq<(string, ShelfLine)>, lines: seq<ShelfLine>, undo: bool): seq<(string, ShelfLine)> {
    if lines == [] then m
    else
      var before := AddedAll(m, lines[..|lines| - 1], undo);
      var last := lines[|lines| - 1];
      Set(before, KeyOf(last), Merged(before, last, undo))
  }

  /** The rows filed by shelf, a later row for the same shelf replacing an earlier one. */
  function Filed(rows: seq<ShelfLine>): seq<(string, ShelfLine)> {
    if rows == [] then [] else Set(Filed(rows[..|rows| - 1]), KeyOf(rows[|rows| - 1]), rows[|rows| - 1])
  }

  function Values(m: seq<(string, ShelfLine)>): seq<ShelfLine> {
    if m == [] then [] else [m[0].1] + Values(m[1..])
  }

  const NotZero: ShelfLine -> bool := (line: ShelfLine) => line.quantity != 0.0

  // ------------------------------------------------------------- operations

  /** What the system believed every shelf held when it was counted. */
  function Rewound(current: seq<ShelfLine>, movementsSince: seq<ShelfLine>): seq<ShelfLine> {
    Filter(Values(AddedAll(Filed(current), movementsSince, true)), NotZero)
  }

  method BalancesAtTime(current: seq<ShelfLine>, movementsSince: seq<ShelfLine>) returns (balances: seq<ShelfLine>)
    ensures balances == Rewound(current, movementsSince)
  {
    var rewound: seq<(string, ShelfLine)> := [];
    var i := 0;
    while i < |current|
      invariant i <= |current|
      invariant rewound == Filed(current[..i])
    {
      assert current[..i + 1][..i] == current[..i];
      rewound := Set(rewound, KeyOf(current[i]), current[i]);
      i := i + 1;
    }
    assert current[..i] == current;
    i := 0;
    while i < |movementsSince|
      invariant i <= |movementsSince|
      invariant rewound == AddedAll(Filed(current), movementsSince[..i], true)
    {
      assert movementsSince[..i + 1][..i] == movementsSince[..i];
      var movement := movementsSince[i];
      match Get(rewound, KeyOf(movement)) {
        case Some(existing) =>
          rewound := Set(rewound, KeyOf(movement), existing.(quantity := existing.quantity - movement.quantity));
        case None =>
          rewound := Set(rewound, KeyOf(movement), movement.(quantity := -movement.quantity));
      }
      i := i + 1;
    }
    assert movementsSince[..i] == movementsSince;
    balances := Filter(Values(rewound), NotZero);
  }

  function SystemQuantity(system: seq<(string, ShelfLine)>, key: string): real {
    match Get(system, key)
    case None => 0.0
    case Some(line) => line.quantity
  }

  /** The adjustments for the lines somebody wrote down. */
  function CountedAdjustments(counted: seq<(string, ShelfLine)>,
      system: seq<(string, ShelfLine)>): seq<BinCountAdjustment> {
    if counted == [] then []
    else
      var line := counted[0].1;
      var systemQuantity := SystemQuantity(system, KeyOf(line));
      [BinCountAdjustment(line.productId, line.binLocation, systemQuantity, line.quantity,
                          line.quantity - systemQuantity)]
      + CountedAdjustments(counted[1..], system)
  }

  /** The adjustment for a shelf entry nobody wrote down: missing, if its shelf was walked. */
  function MissingAdjustment(entry: (string, ShelfLine), counted: seq<(string, ShelfLine)>,
      scope: set<string>): seq<BinCountAdjustment> {
    var line := entry.1;
    if line.quantity == 0.0 || Has(counted, entry.0) || line.binLocation !in scope then []
    else [BinCountAdjustment(line.productId, line.binLocation, line.quantity, 0.0, -line.quantity)]
  }

  function MissingAdjustments(system: seq<(string, ShelfLine)>, counted: seq<(string, ShelfLine)>,
      scope: set<string>): seq<BinCountAdjustment> {
    if system == [] then []
    else MissingAdjustment(system[0], counted, scope) + MissingAdjustments(system[1..], counted, scope)
  }

  const Asserts: BinCountAdjustment -> bool := (a: BinCountAdjustment) => a.delta != 0.0

  /** The shelves a count speaks about: those walked, and those a line names. */
  function Scope(counted: seq<ShelfLine>, walkedBins: seq<string>): set<string> {
    (set b | b in walkedBins) + (set line | line in counted :: line.binLocation)
  }

  function Adjustments(counted: seq<ShelfLine>, system: seq<ShelfLine>,
      walkedBins: seq<string>): seq<BinCountAdjustment> {
    var countedByKey := AddedAll([], counted, false);
    var systemByKey := AddedAll([], system, false);
    Filter(
      CountedAdjustments(countedByKey, systemByKey)
      + MissingAdjustments(systemByKey, countedByKey, Scope(counted, walkedBins)),
      Asserts)
  }

  method AddUp(lines: seq<ShelfLine>) returns (byKey: seq<(string, ShelfLine)>)
    ensures byKey == AddedAll([], lines, false)
  {
    byKey := [];
    var i := 0;
    while i < |lines|
      invariant i <= |lines|
      invariant byKey == AddedAll([], lines[..i], false)
    {
      assert lines[..i + 1][..i] == lines[..i];
      var line := lines[i];
      match Get(byKey, KeyOf(line)) {
        case Some(existing) =>
          byKey := Set(byKey, KeyOf(line), existing.(quantity := existing.quantity + line.quantity));
        case None =>
          byKey := Set(byKey, KeyOf(line), line);
      }
      i := i + 1;
    }
    assert lines[..i] == lines;
  }

  method ComputeBinCountAdjustments(counted: seq<ShelfLine>, system: seq<ShelfLine>, walkedBins: seq<string>)
    returns (adjustments: seq<BinCountAdjustment>)
    ensures adjustments == Adjustments(counted, system, walkedBins)
  {
    var scope := Scope(counted, walkedBins);
    var countedByKey := AddUp(counted);
    var systemByKey := AddUp(system);
    var written := CompareWritten(countedByKey, systemByKey);
    var missing := FindMissing(systemByKey, countedByKey, scope);
    adjustments := Filter(written + missing, Asserts);
  }

  method CompareWritten(counted: seq<(string, ShelfLine)>, system: seq<(string, ShelfLine)>)
    returns (written: seq<BinCountAdjustment>)
    ensures written == CountedAdjustments(counted, system)
  {
    written := [];
    var i := 0;
    while i < |counted|
      invariant i <= |counted|
      invariant written + CountedAdjustments(counted[i..], system) == CountedAdjustments(counted, system)
    {
      assert counted[i..][1..] == counted[i + 1..];
      var line := counted[i].1;
      var systemQuantity := SystemQuantity(system, KeyOf(line));
      written := written
        + [BinCountAdjustment(line.productId, line.binLocation, systemQuantity, line.quantity,
                             line.quantity - systemQuantity)];
      i := i + 1;
    }
    assert written == written + CountedAdjustments([], system);
  }

  method FindMissing(system: seq<(string, ShelfLine)>, counted: seq<(string, ShelfLine)>, scope: set<string>)
    returns (missing: seq<BinCountAdjustment>)
    ensures missing == MissingAdjustments(system, counted, scope)
  {
    missing := [];
    var i := 0;
    assert system[0..] == system
      && missing + MissingAdjustments(system, counted, scope) == MissingAdjustments(system, counted, scope);
    hide *;
    while i < |system|
      invariant i <= |system|
      invariant missing + MissingAdjustments(system[i..], counted, scope) == MissingAdjustments(system, counted, scope)
    {
      NextMissing(missing, system, i, counted, scope);
      var (k, line) := system[i];
      MissingOne(k, line, counted, scope);
      if line.quantity != 0.0 && !Has(counted, k) && line.binLocation in scope {
        missing := missing + [BinCountAdjustment(line.productId, line.binLocation, line.quantity, 0.0, -line.quantity)];
      }
      i := i + 1;
    }
    NoneMissing(missing, counted, scope);
    assert system[i..] == [];
  }

  lemma MissingOne(k: string, line: ShelfLine, counted: seq<(string, ShelfLine)>, scope: set<string>)
    ensures MissingAdjustment((k, line), counted, scope) ==
      if line.quantity != 0.0 && !Has(counted, k) && line.binLocation in scope
      then [BinCountAdjustment(line.productId, line.binLocation, line.quantity, 0.0, -line.quantity)] else []
  {
  }

  lemma NextMissing(
    missing: seq<BinCountAdjustment>, system: seq<(string, ShelfLine)>, i: nat, counted: seq<(string, ShelfLine)>,
      scope: set<string>)
    requires i < |system|
    ensures missing + MissingAdjustments(system[i..], counted, scope) ==
      missing + MissingAdjustment(system[i], counted, scope) + MissingAdjustments(system[i + 1..], counted, scope)
  {
    assert system[i..][1..] == system[i + 1..];
    var one, rest := MissingAdjustment(system[i], counted, scope), MissingAdjustments(system[i + 1..], counted, scope);
    assert missing + (one + rest) == missing + one + rest;
  }

  lemma NoneMissing(missing: seq<BinCountAdjustment>, counted: seq<(string, ShelfLine)>, scope: set<string>)
    ensures missing + MissingAdjustments([], counted, scope) == missing && missing + [] == missing
  {
  }

  // ---------------------------------------------------------- what they mean

  predicate CodeLikeLines(lines: seq<ShelfLine>) {
    forall l :: l in lines ==> CodeLike(l.binLocation)
  }

  function At(p: string, b: string): ShelfLine -> real {
    (line: ShelfLine) => if line.productId == p && line.binLocation == b then line.quantity else 0.0
  }

  /** The lines about one product on one shelf, added up. */
  function Total(lines: seq<ShelfLine>, p: string, b: string): real {
    SumBy(lines, At(p, b))
  }

  predicate Mentions(lines: seq<ShelfLine>, p: string, b: string) {
    exists l :: l in lines && l.productId == p && l.binLocation == b
  }

  function DeltaAt(p: string, b: string): BinCountAdjustment -> real {
    (a: BinCountAdjustment) => if a.productId == p && a.binLocation == b then a.delta else 0.0
  }

  /** What the adjustments add to one product on one shelf. */
  function DeltaFor(adjustments: seq<BinCountAdjustment>, p: string, b: string): real {
    SumBy(adjustments, DeltaAt(p, b))
  }

  /** Entries are filed under their own shelf's key, each key once. */
  ghost predicate WellFiled(m: seq<(string, ShelfLine)>) {
    Keyed(m) && forall e :: e in m ==> e.0 == KeyOf(e.1) && CodeLike(e.1.binLocation)
  }

  lemma AddedFacts(m: seq<(string, ShelfLine)>, line: ShelfLine, undo: bool, p: string, b: string)
    requires WellFiled(m) && CodeLike(line.binLocation) && CodeLike(b)
    ensures
      var m' := Set(m, KeyOf(line), Merged(m, line, undo));
      var key := ShelfKey(p, b);
      && WellFiled(m')
      && SystemQuantity(m', key) ==
           SystemQuantity(m, key) + (if line.productId == p && line.binLocation == b then Amount(line, undo) else 0.0)
      && (Has(m', key) <==> Has(m, key) || (line.productId == p && line.binLocation == b))
  {
    var key := KeyOf(line);
    GetEntry(m, key);
    if Has(m, key) {
      assert (key, Get(m, key).value) in m;
    }
    SetKeyed(m, key, Merged(m, line, undo));
    GetSet(m, key, Merged(m, line, undo), ShelfKey(p, b));
    if key == ShelfKey(p, b) {
      ShelfKeyInjective(line.productId, line.binLocation, p, b);
    }
  }

  lemma {:induction false} AddedAllFacts(m: seq<(string, ShelfLine)>, lines: seq<ShelfLine>, undo: bool, p: string,
      b: string)
    requires WellFiled(m) && CodeLikeLines(lines) && CodeLike(b)
    ensures
      var m' := AddedAll(m, lines, undo);
      var key := ShelfKey(p, b);
      && WellFiled(m')
      && SystemQuantity(m', key) == SystemQuantity(m, key) + (if undo then -Total(lines, p, b) else Total(lines, p, b))
      && (Has(m', key) <==> Has(m, key) || Mentions(lines, p, b))
  {
    if lines != [] {
      var before, last := lines[..|lines| - 1], lines[|lines| - 1];
      assert lines == before + [last];
      AddedAllFacts(m, before, undo, p, b);
      AddedFacts(AddedAll(m, before, undo), last, undo, p, b);
      MentionsLast(before, last, p, b);
      SumByConcat(before, [last], At(p, b));
      assert [last][1..] == [];
    }
  }

  lemma MentionsLast(before: seq<ShelfLine>, last: ShelfLine, p: string, b: string)
    ensures Mentions(before + [last], p, b)
      <==> Mentions(before, p, b) || (last.productId == p && last.binLocation == b)
  {
    if last.productId == p && last.binLocation == b {
      assert last in before + [last];
    }
  }

  /** No shelf has two rows for the same product: the unique index of the stock table. */
  predicate OneRowEach(rows: seq<ShelfLine>) {
    forall i, j :: 0 <= i < j < |rows| ==>
      rows[i].productId != rows[j].productId || rows[i].binLocation != rows[j].binLocation
  }

  lemma {:induction false} NotMentioned(lines: seq<ShelfLine>, p: string, b: string)
    requires !Mentions(lines, p, b)
    ensures Total(lines, p, b) == 0.0
  {
    if lines != [] {
      assert lines[0] in lines && forall l :: l in lines[1..] ==> l in lines;
      NotMentioned(lines[1..], p, b);
    }
  }

  lemma {:induction false} FiledFacts(rows: seq<ShelfLine>, p: string, b: string)
    requires OneRowEach(rows) && CodeLikeLines(rows) && CodeLike(b)
    ensures WellFiled(Filed(rows))
    ensures SystemQuantity(Filed(rows), ShelfKey(p, b)) == Total(rows, p, b)
  {
    if rows != [] {
      var before, last := rows[..|rows| - 1], rows[|rows| - 1];
      assert rows == before + [last];
      FiledFacts(before, p, b);
      SetKeyed(Filed(before), KeyOf(last), last);
      GetSet(Filed(before), KeyOf(last), last, ShelfKey(p, b));
      SumByConcat(before, [last], At(p, b));
      assert [last][1..] == [];
      if last.productId == p && last.binLocation == b {
        assert !Mentions(before, p, b);
        NotMentioned(before, p, b);
      } else if KeyOf(last) == ShelfKey(p, b) {
        ShelfKeyInjective(last.productId, last.binLocation, p, b);
      }
    }
  }

  /** The entry of a well-filed map for one shelf, and nothing else, speaks about that shelf. */
  lemma {:induction false} WellFiledTail(m: seq<(string, ShelfLine)>, p: string, b: string)
    requires WellFiled(m) && m != [] && CodeLike(b)
    ensures WellFiled(m[1..])
    ensures m[0].0 == ShelfKey(p, b) <==> m[0].1.productId == p && m[0].1.binLocation == b
    ensures m[0].0 == ShelfKey(p, b) ==> Get(m[1..], ShelfKey(p, b)) == None
  {
    assert m[0] in m && forall e :: e in m[1..] ==> e in m;
    if m[0].0 == ShelfKey(p, b) {
      ShelfKeyInjective(m[0].1.productId, m[0].1.binLocation, p, b);
      GetAbsent(m[1..], ShelfKey(p, b));
    }
  }

  lemma {:induction false} ValuesTotal(m: seq<(string, ShelfLine)>, p: string, b: string)
    requires WellFiled(m) && CodeLike(b)
    ensures Total(Values(m), p, b) == SystemQuantity(m, ShelfKey(p, b))
    ensures CodeLikeLines(Values(m))
  {
    if m != [] {
      WellFiledTail(m, p, b);
      ValuesTotal(m[1..], p, b);
      assert m[0] in m;
      assert Values(m)[1..] == Values(m[1..]);
    }
  }

  /** Rewinding really undoes what happened since: today's figure less the movements. */
  lemma RewoundFigure(current: seq<ShelfLine>, since: seq<ShelfLine>, p: string, b: string)
    requires OneRowEach(current) && CodeLikeLines(current) && CodeLikeLines(since) && CodeLike(b)
    ensures Total(Rewound(current, since), p, b) == Total(current, p, b) - Total(since, p, b)
    ensures CodeLikeLines(Rewound(current, since))
  {
    var m := AddedAll(Filed(current), since, true);
    FiledFacts(current, p, b);
    AddedAllFacts(Filed(current), since, true, p, b);
    ValuesTotal(m, p, b);
    SumByFilter(Values(m), NotZero, At(p, b));
  }

  // ------------------------------------------------- what a count asserts

  lemma {:induction false} CountedDelta(counted: seq<(string, ShelfLine)>, system: seq<(string, ShelfLine)>,
      p: string, b: string)
    requires WellFiled(counted) && CodeLike(b)
    ensures DeltaFor(CountedAdjustments(counted, system), p, b) ==
      if Has(counted, ShelfKey(p, b))
      then SystemQuantity(counted, ShelfKey(p, b)) - SystemQuantity(system, ShelfKey(p, b)) else 0.0
  {
    if counted != [] {
      WellFiledTail(counted, p, b);
      CountedDelta(counted[1..], system, p, b);
      assert counted[0] in counted;
      assert CountedAdjustments(counted, system)[1..] == CountedAdjustments(counted[1..], system);
    }
  }

  lemma {:induction false} MissingDelta(system: seq<(string, ShelfLine)>, counted: seq<(string, ShelfLine)>,
      scope: set<string>, p: string, b: string)
    requires WellFiled(system) && CodeLike(b)
    ensures DeltaFor(MissingAdjustments(system, counted, scope), p, b) ==
      if !Has(counted, ShelfKey(p, b)) && b in scope then -SystemQuantity(system, ShelfKey(p, b)) else 0.0
  {
    if system != [] {
      WellFiledTail(system, p, b);
      MissingDelta(system[1..], counted, scope, p, b);
      var first := MissingAdjustment(system[0], counted, scope);
      SumByConcat(first, MissingAdjustments(system[1..], counted, scope), DeltaAt(p, b));
      if first != [] {
        assert first[1..] == [];
      }
    }
  }

  /** The count speaks about this shelf: it was walked, or some line names it. */
  predicate SpokenOf(counted: seq<ShelfLine>, walkedBins: seq<string>, b: string) {
    b in walkedBins || exists l :: l in counted && l.binLocation == b
  }

  /** An adjustment that sets a counted line against the system's figure. */
  predicate Compares(a: BinCountAdjustment, line: ShelfLine, system: seq<(string, ShelfLine)>) {
    && a.productId == line.productId && a.binLocation == line.binLocation
    && a.systemQuantity == SystemQuantity(system, KeyOf(line)) && a.countedQuantity == line.quantity
    && a.delta == a.countedQuantity - a.systemQuantity
  }

  /** An adjustment for goods nobody wrote down. */
  predicate ZeroesOut(a: BinCountAdjustment, line: ShelfLine) {
    && a.productId == line.productId && a.binLocation == line.binLocation
    && a.systemQuantity == line.quantity && a.countedQuantity == 0.0 && a.delta == -line.quantity
  }

  lemma {:induction false} CountedMember(counted: seq<(string, ShelfLine)>, system: seq<(string, ShelfLine)>,
      a: BinCountAdjustment)
    requires a in CountedAdjustments(counted, system)
    ensures exists e :: e in counted && Compares(a, e.1, system)
  {
    if a != CountedAdjustments(counted, system)[0] {
      CountedMember(counted[1..], system, a);
      var e :| e in counted[1..] && Compares(a, e.1, system);
      assert e in counted;
    } else {
      assert counted[0] in counted;
    }
  }

  lemma {:induction false} MissingMember(system: seq<(string, ShelfLine)>, counted: seq<(string, ShelfLine)>,
      scope: set<string>, a: BinCountAdjustment)
    requires a in MissingAdjustments(system, counted, scope)
    ensures exists e :: e in system && !Has(counted, e.0) && e.1.binLocation in scope && ZeroesOut(a, e.1)
  {
    if a in MissingAdjustment(system[0], counted, scope) {
      assert system[0] in system;
    } else {
      MissingMember(system[1..], counted, scope, a);
      var e :| e in system[1..] && !Has(counted, e.0) && e.1.binLocation in scope
        && ZeroesOut(a, e.1);
      assert e in system;
    }
  }

  /** Every adjustment shows both figures of its shelf and their difference, which is never nothing, and
      speaks of a shelf the count speaks about. */
  lemma AdjustmentsAreTrue(counted: seq<ShelfLine>, system: seq<ShelfLine>, walkedBins: seq<string>,
      a: BinCountAdjustment)
    requires CodeLikeLines(counted) && CodeLikeLines(system) && a in Adjustments(counted, system, walkedBins)
    ensures a.systemQuantity == Total(system, a.productId, a.binLocation)
    ensures a.countedQuantity == Total(counted, a.productId, a.binLocation)
    ensures a.delta == a.countedQuantity - a.systemQuantity && a.delta != 0.0
    ensures SpokenOf(counted, walkedBins, a.binLocation)
  {
    hide Total, Mentions, WellFiled;
    var c, s := AddedAll([], counted, false), AddedAll([], system, false);
    NothingFiled();
    if a in CountedAdjustments(c, s) {
      CountedMember(c, s, a);
      var e :| e in c && Compares(a, e.1, s);
      FigureOfEntry(counted, system, e);
      SpokenOfNamed(counted, walkedBins, a.productId, a.binLocation);
    } else {
      MissingMember(s, c, Scope(counted, walkedBins), a);
      var e :| e in s && !Has(c, e.0) && e.1.binLocation in Scope(counted, walkedBins)
        && ZeroesOut(a, e.1);
      FigureOfEntry(system, counted, e);
      FigureOfMissing(counted, e);
    }
  }

  lemma NothingFiled()
    ensures WellFiled([]) && forall key :: SystemQuantity([], key) == 0.0 && !Has<ShelfLine>([], key)
  {
  }

  lemma SpokenOfNamed(counted: seq<ShelfLine>, walkedBins: seq<string>, p: string, b: string)
    requires Mentions(counted, p, b)
    ensures SpokenOf(counted, walkedBins, b)
  {
  }

  /** An entry of the added-up lines holds the total of its own shelf; the other map, that of its lines. */
  lemma FigureOfEntry(lines: seq<ShelfLine>, others: seq<ShelfLine>, e: (string, ShelfLine))
    requires CodeLikeLines(lines) && CodeLikeLines(others) && e in AddedAll([], lines, false)
    ensures e.0 == KeyOf(e.1) && CodeLike(e.1.binLocation)
    ensures e.1.quantity == Total(lines, e.1.productId, e.1.binLocation)
    ensures Mentions(lines, e.1.productId, e.1.binLocation)
    ensures SystemQuantity(AddedAll([], others, false), KeyOf(e.1)) == Total(others, e.1.productId, e.1.binLocation)
  {
    hide Total, Mentions, AddedAll;
    NothingFiled();
    var m := AddedAll([], lines, false);
    AddedAllFacts([], lines, false, "", "");
    AddedAllFacts([], lines, false, e.1.productId, e.1.binLocation);
    AddedAllFacts([], others, false, e.1.productId, e.1.binLocation);
    GetEntry(m, e.0);
    assert (e.0, e.1) in m;
  }

  lemma FigureOfMissing(counted: seq<ShelfLine>, e: (string, ShelfLine))
    requires CodeLikeLines(counted) && e.0 == KeyOf(e.1) && CodeLike(e.1.binLocation)
    requires !Has(AddedAll([], counted, false), e.0)
    ensures Total(counted, e.1.productId, e.1.binLocation) == 0.0
  {
    hide Total, Mentions, AddedAll;
    NothingFiled();
    AddedAllFacts([], counted, false, e.1.productId, e.1.binLocation);
    NotMentioned(counted, e.1.productId, e.1.binLocation);
  }

  /** On a shelf the count speaks about, the adjustment is the counted figure (zero when
      nobody wrote the goods down) less the system's; any other shelf is left alone. */
  lemma AdjustmentsMean(counted: seq<ShelfLine>, system: seq<ShelfLine>, walkedBins: seq<string>, p: string, b: string)
    requires CodeLikeLines(counted) && CodeLikeLines(system) && CodeLike(b)
    ensures DeltaFor(Adjustments(counted, system, walkedBins), p, b) ==
      if SpokenOf(counted, walkedBins, b) then Total(counted, p, b) - Total(system, p, b) else 0.0
  {
    var c, s := AddedAll([], counted, false), AddedAll([], system, false);
    var scope := Scope(counted, walkedBins);
    AddedAllFacts([], counted, false, p, b);
    AddedAllFacts([], system, false, p, b);
    CountedDelta(c, s, p, b);
    MissingDelta(s, c, scope, p, b);
    var all := CountedAdjustments(c, s) + MissingAdjustments(s, c, scope);
    SumByConcat(CountedAdjustments(c, s), MissingAdjustments(s, c, scope), DeltaAt(p, b));
    SumByFilter(all, Asserts, DeltaAt(p, b));
    if !Mentions(counted, p, b) {
      NotMentioned(counted, p, b);
    }
  }

  /** A count that arrives late leaves a shelf it speaks about at what was counted plus what
      moved since, and every other shelf at today's figure. */
  lemma LateCountLandsRight(current: seq<ShelfLine>, since: seq<ShelfLine>, counted: seq<ShelfLine>,
                            walkedBins: seq<string>, p: string, b: string)
    requires OneRowEach(current) && CodeLike(b)
    requires CodeLikeLines(current) && CodeLikeLines(since) && CodeLikeLines(counted)
    ensures Total(current, p, b) + DeltaFor(Adjustments(counted, Rewound(current, since), walkedBins), p, b) ==
      if SpokenOf(counted, walkedBins, b) then Total(counted, p, b) + Total(since, p, b) else Total(current, p, b)
  {
    RewoundFigure(current, since, p, b);
    AdjustmentsMean(counted, Rewound(current, since), walkedBins, p, b);
  }

  /** Applied late or on the spot, a count ends the same: `onTheDay` is what the system held
      at the moment of counting, and `since` is everything that moved afterwards. */
  lemma LateEqualsOnTime(onTheDay: seq<ShelfLine>, since: seq<ShelfLine>, current: seq<ShelfLine>,
                         counted: seq<ShelfLine>, walkedBins: seq<string>, p: string, b: string)
    requires OneRowEach(current) && CodeLike(b)
    requires CodeLikeLines(onTheDay) && CodeLikeLines(current) && CodeLikeLines(since) && CodeLikeLines(counted)
    requires Total(onTheDay, p, b) + Total(since, p, b) == Total(current, p, b)
    ensures
      var late := Total(current, p, b) + DeltaFor(Adjustments(counted, Rewound(current, since), walkedBins), p, b);
      var onTime := Total(onTheDay, p, b) + DeltaFor(Adjustments(counted, onTheDay, walkedBins), p, b)
        + Total(since, p, b);
      late == onTime
  {
    LateCountLandsRight(current, since, counted, walkedBins, p, b);
    AdjustmentsMean(counted, onTheDay, walkedBins, p, b);
  }

  /** Writing the late adjustment to the shelf's row is refused exactly when more has left the
      shelf since the count than was counted on it; otherwise the row lands on the right figure. */
  lemma LateCountApplies(row: Stock.Row, current: seq<ShelfLine>, since: seq<ShelfLine>, counted: seq<ShelfLine>,
                         walkedBins: seq<string>, p: string, b: string)
    requires OneRowEach(current) && CodeLike(b) && SpokenOf(counted, walkedBins, b)
    requires CodeLikeLines(current) && CodeLikeLines(since) && CodeLikeLines(counted)
    requires row.quantity == Total(current, p, b) >= 0.0
    ensures
      var delta := DeltaFor(Adjustments(counted, Rewound(current, since), walkedBins), p, b);
      var written := Stock.Apply(Stock.DeltaStatement(delta, Stock.Adjustment), row, Stock.Magnitude(delta));
      && (written.Some? <==> Total(counted, p, b) + Total(since, p, b) >= 0.0)
      && (written.Some? ==> written.value.quantity == Total(counted, p, b) + Total(since, p, b))
  {
    LateCountLandsRight(current, since, counted, walkedBins, p, b);
  }
}
