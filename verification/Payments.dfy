/** How a sale was paid for, and how a refund goes back the same ways (apps/api/src/payments.ts). */
module Payments {
  import opened Lists

  datatype Method = Cash | Card | Kaspi | Credit

  datatype PaymentLine = PaymentLine(means: Method, amount: int)

  /** A field of the request: missing, something that is not text, or text. */
  datatype RawText = Absent | NotText | Text(value: string)

  /** A payment as the register sent it; an amount that is not a finite number is `None`. */
  datatype RawPayment = RawPayment(means: RawText, amount: Option<real>)

  datatype Resolution =
    | Paid(payments: seq<PaymentLine>, stamp: string)
    | Empty
    | UnknownMethod(sentAs: RawText)
    | BadAmount
    | Mismatch(paid: int, total: int)
    | RepeatedMethod(again: Method)
    | MixedCredit

  function Parse(means: RawText): Option<Method> {
    if means == Text("cash") then Some(Cash)
    else if means == Text("card") then Some(Card)
    else if means == Text("kaspi") then Some(Kaspi)
    else if means == Text("credit") then Some(Credit)
    else None
  }

  function Name(means: Method): string {
    match means
    case Cash => "cash"
    case Card => "card"
    case Kaspi => "kaspi"
    case Credit => "credit"
  }

  predicate Uses(lines: seq<PaymentLine>, means: Method) {
    exists line :: line in lines && line.means == means
  }

  function Total(lines: seq<PaymentLine>): int {
    if lines == [] then 0 else lines[0].amount + Total(lines[1..])
  }

  /** One more line after those already read, or the objection to it. */
  function ReadOne(lines: seq<PaymentLine>, sent: RawPayment): (r: Result<seq<PaymentLine>, Resolution>)
    ensures r.Err? ==> r.error.UnknownMethod? || r.error.RepeatedMethod? || r.error.BadAmount?
  {
    match Parse(sent.means)
    case None => Err(UnknownMethod(sent.means))
    case Some(means) =>
      if Uses(lines, means) then Err(RepeatedMethod(means))
      else if sent.amount.None? || Round(sent.amount.value) <= 0 then Err(BadAmount)
      else Ok(lines + [PaymentLine(means, Round(sent.amount.value))])
  }

  /** The lines read one by one, or the first objection. */
  function Read(raw: seq<RawPayment>): (r: Result<seq<PaymentLine>, Resolution>)
    ensures r.Err? ==> r.error.UnknownMethod? || r.error.RepeatedMethod? || r.error.BadAmount?
  {
    if raw == [] then Ok([])
    else
      match Read(raw[..|raw| - 1])
      case Err(e) => Err(e)
      case Ok(lines) => ReadOne(lines, raw[|raw| - 1])
  }

  /** What is read: what was sent, or the old single-method shape as a split of one. */
  function LinesSent(sent: seq<RawPayment>, paymentMethod: RawText, total: int): seq<RawPayment> {
    if sent != [] then sent
    else if paymentMethod.Absent? then []
    else [RawPayment(paymentMethod, Some(total as real))]
  }

  function Resolve(sent: seq<RawPayment>, paymentMethod: RawText, total: int): Resolution {
    if total == 0 then
      var only := if |sent| == 1 then sent[0].means else paymentMethod;
      Paid([], if only.Text? then only.value else "cash")
    else
      var raw := LinesSent(sent, paymentMethod, total);
      if raw == [] then Empty
      else
        match Read(raw)
        case Err(e) => e
        case Ok(lines) =>
          if |lines| > 1 && Uses(lines, Credit) then MixedCredit
          else if Total(lines) != total then Mismatch(Total(lines), total)
          else Paid(lines, if |lines| == 1 then Name(lines[0].means) else "mixed")
  }

  method ResolveSalePayments(sent: seq<RawPayment>, paymentMethod: RawText, total: int) returns (resolution: Resolution)
    ensures resolution == Resolve(sent, paymentMethod, total)
  {
    if total == 0 {
      var only := if |sent| == 1 then sent[0].means else paymentMethod;
      return Paid([], if only.Text? then only.value else "cash");
    }
    var raw := LinesSent(sent, paymentMethod, total);
    if raw == [] {
      return Empty;
    }
    var read := ReadPayments(raw);
    if read.Err? {
      return read.error;
    }
    hide Read, Total, Round, Name;
    ReadNonEmpty(raw);
    var resolved := read.value;
    if |resolved| > 1 && Uses(resolved, Credit) {
      return MixedCredit;
    }
    var paid := Total(resolved);
    if paid != total {
      return Mismatch(paid, total);
    }
    resolution := Paid(resolved, if |resolved| == 1 then Name(resolved[0].means) else "mixed");
  }

  /** The loop: each line is read, and the first objection ends it. */
  method ReadPayments(raw: seq<RawPayment>) returns (r: Result<seq<PaymentLine>, Resolution>)
    ensures r == Read(raw)
  {
    var resolved: seq<PaymentLine> := [];
    var seen: set<Method> := {};
    var i := 0;
    while i < |raw|
      invariant i <= |raw|
      invariant Read(raw[..i]) == Ok(resolved)
      invariant forall m :: m in seen <==> Uses(resolved, m)
    {
      OneLineMore(raw, i);
      hide Uses, Round, Read;
      var means := Parse(raw[i].means);
      if means.None? {
        return Err(UnknownMethod(raw[i].means));
      }
      if means.value in seen {
        return Err(RepeatedMethod(means.value));
      }
      if raw[i].amount.None? || Round(raw[i].amount.value) <= 0 {
        return Err(BadAmount);
      }
      var line := PaymentLine(means.value, Round(raw[i].amount.value));
      OneMoreUsed(resolved, line);
      seen := seen + {means.value};
      resolved := resolved + [line];
      i := i + 1;
    }
    assert raw[..i] == raw;
    r := Ok(resolved);
  }

  lemma OneLineMore(raw: seq<RawPayment>, i: nat)
    requires i < |raw| && Read(raw[..i]).Ok?
    ensures Read(raw[..i + 1]) == ReadOne(Read(raw[..i]).value, raw[i])
    ensures Read(raw[..i + 1]).Err? ==> Read(raw) == Read(raw[..i + 1])
  {
    assert raw[..i + 1][..i] == raw[..i];
    if Read(raw[..i + 1]).Err? {
      ObjectionStands(raw, i + 1);
    }
  }

  lemma OneMoreUsed(lines: seq<PaymentLine>, line: PaymentLine)
    ensures forall m :: Uses(lines + [line], m) <==> Uses(lines, m) || m == line.means
  {
    assert line in lines + [line];
  }

  lemma {:induction false} ObjectionStands(raw: seq<RawPayment>, k: nat)
    requires k <= |raw| && Read(raw[..k]).Err?
    ensures Read(raw) == Read(raw[..k])
    decreases |raw| - k
  {
    if k < |raw| {
      assert raw[..k + 1][..k] == raw[..k];
      ObjectionStands(raw, k + 1);
    } else {
      assert raw[..k] == raw;
    }
  }

  lemma ReadNonEmpty(raw: seq<RawPayment>)
    requires raw != [] && Read(raw).Ok?
    ensures Read(raw).value != []
  {
  }

  // ------------------------------------------------- what an accepted sale holds

  /** No method twice, nothing but positive amounts. */
  ghost predicate Proper(lines: seq<PaymentLine>) {
    && (forall i, j :: 0 <= i < j < |lines| ==> lines[i].means != lines[j].means)
    && (forall i :: 0 <= i < |lines| ==> lines[i].amount > 0)
  }

  lemma {:induction false} ReadIsProper(raw: seq<RawPayment>)
    requires Read(raw).Ok?
    ensures Proper(Read(raw).value) && |Read(raw).value| == |raw|
  {
    if raw != [] {
      var before := raw[..|raw| - 1];
      ReadIsProper(before);
      var lines := Read(before).value;
      var means := Parse(raw[|raw| - 1].means).value;
      forall i | 0 <= i < |lines|
        ensures lines[i].means != means
      {
        assert lines[i] in lines;
      }
    }
  }

  /** What a sale is recorded with adds up to it, each way once; debt is never mixed with
      money, so there are at most three parts. */
  lemma AcceptedPayments(sent: seq<RawPayment>, paymentMethod: RawText, total: int)
    requires Resolve(sent, paymentMethod, total).Paid?
    ensures
      var payments := Resolve(sent, paymentMethod, total).payments;
      && Proper(payments) && Total(payments) == total && |payments| <= 3
      && (payments == [] <==> total == 0)
      && (Uses(payments, Credit) ==> |payments| == 1)
  {
    if total != 0 {
      var raw := LinesSent(sent, paymentMethod, total);
      ReadIsProper(raw);
      var payments := Read(raw).value;
      if |payments| > 1 {
        AtMostThree(payments);
      }
    }
  }

  lemma AtMostThree(lines: seq<PaymentLine>)
    requires Proper(lines) && !Uses(lines, Credit)
    ensures |lines| <= 3
  {
    if |lines| > 3 {
      FourRepeat(lines);
    }
  }

  lemma FourRepeat(lines: seq<PaymentLine>)
    requires |lines| >= 4 && !Uses(lines, Credit)
    ensures exists i, j :: 0 <= i < j < |lines| && lines[i].means == lines[j].means
  {
    assert lines[0] in lines && lines[1] in lines && lines[2] in lines && lines[3] in lines;
    assert lines[0].means != Credit && lines[1].means != Credit && lines[2].means != Credit && lines[3].means != Credit;
  }

  // ------------------------------------------------- which payments are accepted

  /** The ways of paying, as the register writes them. */
  predicate NamesAWay(means: RawText) {
    means in {Text("cash"), Text("card"), Text("kaspi"), Text("credit")}
  }

  /** This text is this way. */
  predicate Says(means: RawText, way: Method) {
    match way
    case Cash => means == Text("cash")
    case Card => means == Text("card")
    case Kaspi => means == Text("kaspi")
    case Credit => means == Text("credit")
  }

  /** The amounts sent, each to the nearest tenge. */
  function RoundedSum(sent: seq<RawPayment>): int {
    if sent == [] then 0
    else
      var last := sent[|sent| - 1];
      RoundedSum(sent[..|sent| - 1]) + if last.amount.Some? then Round(last.amount.value) else 0
  }

  /** Every line names a way, none twice, with an amount of at least a tenge. */
  ghost predicate Readable(sent: seq<RawPayment>) {
    && (forall i :: 0 <= i < |sent| ==>
          NamesAWay(sent[i].means) && sent[i].amount.Some? && Round(sent[i].amount.value) > 0)
    && (forall i, j :: 0 <= i < j < |sent| ==> sent[i].means != sent[j].means)
  }

  /** These payments are what the lines say, in order. */
  ghost predicate Record(sent: seq<RawPayment>, payments: seq<PaymentLine>) {
    && |payments| == |sent|
    && forall i :: 0 <= i < |sent| ==>
         && Says(sent[i].means, payments[i].means)
         && sent[i].amount.Some? && payments[i].amount == Round(sent[i].amount.value)
  }

  lemma ParseSays(means: RawText)
    ensures Parse(means).Some? <==> NamesAWay(means)
    ensures forall way :: Says(means, way) <==> Parse(means) == Some(way)
  {
  }

  lemma TotalAppend(lines: seq<PaymentLine>, line: PaymentLine)
    ensures Total(lines + [line]) == Total(lines) + line.amount
    decreases |lines|
  {
    if lines == [] {
      assert lines + [line] == [line] && [line][1..] == [];
    } else {
      assert (lines + [line])[1..] == lines[1..] + [line];
      TotalAppend(lines[1..], line);
    }
  }

  lemma {:induction false} ReadIff(sent: seq<RawPayment>)
    ensures Read(sent).Ok? <==> Readable(sent)
    ensures Read(sent).Ok? ==> Record(sent, Read(sent).value) && Total(Read(sent).value) == RoundedSum(sent)
  {
    hide Parse, Round, Total, NamesAWay, Says;
    if sent != [] {
      var before, last := sent[..|sent| - 1], sent[|sent| - 1];
      ReadIff(before);
      ParseSays(last.means);
      forall i | 0 <= i < |before|
        ensures before[i] == sent[i]
      {
        ParseSays(sent[i].means);
      }
      if Read(before).Ok? {
        if Parse(last.means).Some? {
          UsedIff(before, Read(before).value, last.means);
        }
        if Read(sent).Ok? {
          TotalAppend(Read(before).value, PaymentLine(Parse(last.means).value, Round(last.amount.value)));
        }
      }
    } else {
      assert Read(sent) == Ok([]) && Total([]) == 0 by {
        NothingRead();
      }
    }
  }

  lemma NothingRead()
    ensures Read([]) == Ok([]) && Total([]) == 0
  {
  }

  lemma UsedIff(before: seq<RawPayment>, lines: seq<PaymentLine>, means: RawText)
    requires Record(before, lines) && Parse(means).Some?
    ensures Uses(lines, Parse(means).value) <==> exists i :: 0 <= i < |before| && before[i].means == means
  {
    hide Parse, Says;
    forall i | 0 <= i < |before|
      ensures lines[i].means == Parse(means).value <==> before[i].means == means
    {
      ParseSays(before[i].means);
      ParseSays(means);
      SaysOneThing(before[i].means, means, lines[i].means);
    }
    if Uses(lines, Parse(means).value) {
      var line :| line in lines && line.means == Parse(means).value;
      var i :| 0 <= i < |lines| && lines[i] == line;
    }
    if i :| 0 <= i < |before| && before[i].means == means {
      assert lines[i] in lines;
    }
  }

  lemma SaysOneThing(a: RawText, b: RawText, way: Method)
    requires Says(a, way)
    ensures Says(b, way) <==> a == b
  {
  }

  lemma OneOfTheWays(lines: seq<PaymentLine>, sent: seq<RawPayment>, way: Method)
    requires Record(sent, lines)
    ensures Uses(lines, way) <==> exists i :: 0 <= i < |sent| && Says(sent[i].means, way)
  {
    forall i | 0 <= i < |sent|
      ensures lines[i].means == way <==> Says(sent[i].means, way)
    {
      ParseSays(sent[i].means);
    }
    if Uses(lines, way) {
      var line :| line in lines && line.means == way;
      var i :| 0 <= i < |lines| && lines[i] == line;
    }
    if i :| 0 <= i < |sent| && Says(sent[i].means, way) {
      assert lines[i] in lines;
    }
  }

  /** The payments sent are accepted exactly when every line names a way with an amount, none twice, they add
      up to the sale, and debt stands alone; then they are recorded as sent, and the sale is stamped with its
      one way or as mixed. */
  lemma PaidIff(sent: seq<RawPayment>, paymentMethod: RawText, total: int)
    requires total != 0 && sent != []
    ensures
      var r := Resolve(sent, paymentMethod, total);
      && (r.Paid? <==>
            && Readable(sent) && RoundedSum(sent) == total
            && (|sent| > 1 ==> forall i :: 0 <= i < |sent| ==> sent[i].means != Text("credit")))
      && (r.Paid? ==>
            && Record(sent, r.payments)
            && Text(r.stamp) == (if |sent| == 1 then sent[0].means else Text("mixed")))
  {
    hide Read, Readable, Record, Round, Total, Uses;
    ReadIff(sent);
    if Read(sent).Ok? {
      OneOfTheWays(Read(sent).value, sent, Credit);
      SoleStamp(sent, Read(sent).value);
    }
  }

  lemma SoleStamp(sent: seq<RawPayment>, lines: seq<PaymentLine>)
    requires Record(sent, lines)
    ensures |lines| == |sent| && (|lines| == 1 ==> Text(Name(lines[0].means)) == sent[0].means)
  {
  }

  /** Where a refusal names a line's fault, some line has it. */
  ghost predicate TrueOfALine(sent: seq<RawPayment>, r: Resolution) {
    && (r.UnknownMethod? ==> !NamesAWay(r.sentAs) && exists i :: 0 <= i < |sent| && sent[i].means == r.sentAs)
    && (r.RepeatedMethod? ==> exists i, j ::
          0 <= i < j < |sent| && sent[i].means == sent[j].means && Says(sent[j].means, r.again))
    && (r.BadAmount? ==> exists i :: 0 <= i < |sent| && (sent[i].amount.None? || Round(sent[i].amount.value) <= 0))
  }

  lemma FaultOfNoLine(sent: seq<RawPayment>, r: Resolution)
    requires r.MixedCredit? || r.Mismatch? || r.Paid?
    ensures TrueOfALine(sent, r)
  {
  }

  /** A refusal says something true of what was sent. */
  lemma PaymentRefusalIsTrue(sent: seq<RawPayment>, paymentMethod: RawText, total: int)
    requires total != 0 && sent != []
    ensures
      var r := Resolve(sent, paymentMethod, total);
      && !r.Empty? && TrueOfALine(sent, r)
      && (r.MixedCredit? ==> |sent| > 1 && exists i :: 0 <= i < |sent| && sent[i].means == Text("credit"))
      && (r.Mismatch? ==> r.paid == RoundedSum(sent) != total == r.total)
  {
    hide Read, Readable, Record, Round, Total, Uses, TrueOfALine, Name;
    ReadIff(sent);
    FaultOfNoLine(sent, MixedCredit);
    FaultOfNoLine(sent, Mismatch(RoundedSum(sent), total));
    if Read(sent).Ok? {
      OneOfTheWays(Read(sent).value, sent, Credit);
      SoleStamp(sent, Read(sent).value);
      if Resolve(sent, paymentMethod, total).Paid? {
        FaultOfNoLine(sent, Resolve(sent, paymentMethod, total));
      }
    } else {
      LineRefusalIsTrue(sent);
    }
  }

  lemma {:induction false} LineRefusalIsTrue(sent: seq<RawPayment>)
    requires Read(sent).Err?
    ensures TrueOfALine(sent, Read(sent).error)
  {
    hide Parse, Round, NamesAWay, Says, Record, Uses;
    var before, k := sent[..|sent| - 1], |sent| - 1;
    assert forall i :: 0 <= i < k ==> before[i] == sent[i];
    if Read(before).Err? {
      LineRefusalIsTrue(before);
    } else {
      ReadIff(before);
      ParseSays(sent[k].means);
      if Parse(sent[k].means).Some? {
        UsedIff(before, Read(before).value, sent[k].means);
      }
      assert sent[k].means == sent[k].means;
    }
  }

  /** A register that sends one way and no amounts is read as paying all of it that way, one that sends
      nothing is asked to choose, and a sale of nothing records nothing. */
  lemma OldRegistersAndFreeSales(sent: seq<RawPayment>, paymentMethod: RawText, total: int)
    ensures total != 0 && paymentMethod != Absent ==>
      Resolve([], paymentMethod, total)
        == Resolve([RawPayment(paymentMethod, Some(total as real))], paymentMethod, total)
    ensures total != 0 ==> Resolve([], Absent, total) == Empty
    ensures total == 0 ==>
      var only := if |sent| == 1 then sent[0].means else paymentMethod;
      && Resolve(sent, paymentMethod, total).Paid? && Resolve(sent, paymentMethod, total).payments == []
      && Text(Resolve(sent, paymentMethod, total).stamp) == if only.Text? then only else Text("cash")
  {
  }

  // --------------------------------------------------------------- the refund

  /** A part's exact share of the refund. */
  function Exact(amount: int, collected: int, refund: int): real
    requires collected > 0
  {
    amount as real / collected as real * refund as real
  }

  function Shares(payments: seq<PaymentLine>, collected: int, refund: int): seq<PaymentLine>
    requires collected > 0
  {
    if payments == [] then []
    else
      [PaymentLine(payments[0].means, Round(Exact(payments[0].amount, collected, refund)))]
      + Shares(payments[1..], collected, refund)
  }

  /** The first of the biggest payments among the first `n`. */
  function Biggest(payments: seq<PaymentLine>, n: nat): (b: nat)
    requires 0 < n <= |payments|
    ensures b < n && forall i :: 0 <= i < n ==> payments[i].amount <= payments[b].amount
  {
    if n == 1 then 0
    else if payments[n - 1].amount > payments[Biggest(payments, n - 1)].amount then n - 1
    else Biggest(payments, n - 1)
  }

  const Positive: PaymentLine -> bool := (line: PaymentLine) => line.amount > 0

  /** The shares with the rounding remainder given to the biggest payment. */
  function Patched(payments: seq<PaymentLine>, refund: int): seq<PaymentLine>
    requires payments != [] && Total(payments) > 0
  {
    SharesLength(payments, Total(payments), refund);
    var lines := Shares(payments, Total(payments), refund);
    var b := Biggest(payments, |payments|);
    lines[b := lines[b].(amount := lines[b].amount + (refund - Total(lines)))]
  }

  function Split(payments: seq<PaymentLine>, refund: int): seq<PaymentLine> {
    if refund <= 0 || payments == [] || Total(payments) <= 0 then []
    else Filter(Patched(payments, refund), Positive)
  }

  lemma {:induction false} SharesLength(payments: seq<PaymentLine>, collected: int, refund: int)
    requires collected > 0
    ensures |Shares(payments, collected, refund)| == |payments|
    ensures forall i :: 0 <= i < |payments| ==>
      Shares(payments, collected, refund)[i]
        == PaymentLine(payments[i].means, Round(Exact(payments[i].amount, collected, refund)))
  {
    if payments != [] {
      SharesLength(payments[1..], collected, refund);
    }
  }

  method RefundSplit(salePayments: seq<PaymentLine>, refund: int) returns (parts: seq<PaymentLine>)
    ensures parts == Split(salePayments, refund)
  {
    if refund <= 0 {
      return [];
    }
    var collected := Total(salePayments);
    if salePayments == [] || collected <= 0 {
      return [];
    }
    SharesLength(salePayments, collected, refund);
    var shares := Shares(salePayments, collected, refund);
    var lines := new PaymentLine[|shares|](i requires 0 <= i < |shares| => shares[i]);
    assert lines[..] == shares;
    var biggest := FindBiggest(salePayments);
    lines[biggest] := lines[biggest].(amount := lines[biggest].amount + (refund - Total(lines[..])));
    assert lines[..] == Patched(salePayments, refund);
    parts := Filter(lines[..], Positive);
  }

  method FindBiggest(salePayments: seq<PaymentLine>) returns (biggest: nat)
    requires salePayments != []
    ensures biggest == Biggest(salePayments, |salePayments|)
  {
    biggest := 0;
    var i := 1;
    while i < |salePayments|
      invariant 1 <= i <= |salePayments|
      invariant biggest == Biggest(salePayments, i)
    {
      if salePayments[i].amount > salePayments[biggest].amount {
        biggest := i;
      }
      i := i + 1;
    }
  }

  // ------------------------------------------------------ money is conserved

  lemma ExactMonotone(a: int, b: int, collected: int, refund: int)
    requires collected > 0 && refund >= 0 && a <= b
    ensures Exact(a, collected, refund) <= Exact(b, collected, refund)
  {
    assert a as real / collected as real <= b as real / collected as real;
  }

  lemma ExactAdds(a: int, b: int, collected: int, refund: int)
    requires collected > 0
    ensures Exact(a, collected, refund) + Exact(b, collected, refund) == Exact(a + b, collected, refund)
  {
    var c, r := collected as real, refund as real;
    var x, y := a as real / c, b as real / c;
    assert x + y == (a + b) as real / c;
    assert x * r + y * r == (x + y) * r;
  }

  lemma ExactWhole(collected: int, refund: int)
    requires collected > 0
    ensures Exact(collected, collected, refund) == refund as real
    ensures Exact(0, collected, refund) == 0.0
  {
    assert collected as real / collected as real == 1.0;
  }

  lemma ExactWithin(a: int, collected: int, refund: int)
    requires collected > 0 && 0 <= a && refund <= collected
    ensures Exact(a, collected, refund) <= a as real
  {
    var share := a as real / collected as real;
    assert share >= 0.0 && share * collected as real == a as real;
    assert share * (collected - refund) as real >= 0.0;
  }

  /** The shares of at most three parts, next to their exact values. */
  lemma ThreeShares(payments: seq<PaymentLine>, refund: int)
    requires 0 < |payments| <= 3 && Proper(payments) && refund > 0 && Total(payments) > 0
    ensures
      var c := Total(payments);
      var shares := Shares(payments, c, refund);
      && |shares| == |payments|
      && (forall i :: 0 <= i < |payments| ==>
            var x := Exact(payments[i].amount, c, refund);
            x - 0.5 < shares[i].amount as real <= x + 0.5 && 0.0 <= x
              && (refund <= c ==> x <= payments[i].amount as real))
      && refund as real == ExactSum(payments, c, refund)
      && Total(shares) == (if |payments| == 1 then shares[0].amount
                           else if |payments| == 2 then shares[0].amount + shares[1].amount
                           else shares[0].amount + shares[1].amount + shares[2].amount)
  {
    hide Exact;
    var c := Total(payments);
    var shares := Shares(payments, c, refund);
    SharesLength(payments, c, refund);
    ExactWhole(c, refund);
    forall i | 0 <= i < |payments|
      ensures
        var x := Exact(payments[i].amount, c, refund);
        x - 0.5 < shares[i].amount as real <= x + 0.5 && 0.0 <= x && (refund <= c ==> x <= payments[i].amount as real)
    {
      RoundBounds(Exact(payments[i].amount, c, refund));
      ExactMonotone(0, payments[i].amount, c, refund);
      if refund <= c {
        ExactWithin(payments[i].amount, c, refund);
      }
    }
    ExactSums(payments, c, refund);
    UpToThree(shares);
  }

  function ExactSum(payments: seq<PaymentLine>, collected: int, refund: int): real
    requires collected > 0
  {
    if payments == [] then 0.0
    else Exact(payments[0].amount, collected, refund) + ExactSum(payments[1..], collected, refund)
  }

  lemma {:induction false} ExactSums(payments: seq<PaymentLine>, collected: int, refund: int)
    requires collected > 0 && refund >= 0
    ensures ExactSum(payments, collected, refund) == Exact(Total(payments), collected, refund)
  {
    hide Exact;
    ExactWhole(collected, refund);
    if payments != [] {
      ExactSums(payments[1..], collected, refund);
      ExactAdds(payments[0].amount, Total(payments[1..]), collected, refund);
    }
  }

  lemma UpToThree(lines: seq<PaymentLine>)
    requires 0 < |lines| <= 3
    ensures Total(lines) == (if |lines| == 1 then lines[0].amount
                             else if |lines| == 2 then lines[0].amount + lines[1].amount
                             else lines[0].amount + lines[1].amount + lines[2].amount)
  {
    if |lines| > 1 {
      assert lines[1..][1..] == lines[2..];
      assert Total(lines[1..]) == lines[1].amount + Total(lines[2..]);
      if |lines| > 2 {
        assert lines[2..][1..] == [];
      }
    }
  }

  lemma ExactSumUpToThree(payments: seq<PaymentLine>, c: int, refund: int)
    requires 0 < |payments| <= 3 && c > 0
    ensures ExactSum(payments, c, refund) ==
      Exact(payments[0].amount, c, refund)
      + (if |payments| > 1 then Exact(payments[1].amount, c, refund) else 0.0)
      + (if |payments| > 2 then Exact(payments[2].amount, c, refund) else 0.0)
  {
    hide Exact;
    if |payments| > 1 {
      assert payments[1..][1..] == payments[2..];
      if |payments| > 2 {
        assert payments[2..][1..] == [];
      }
    }
  }

  /** Before the empty parts are dropped: nobody is charged, the parts add up to the refund, and
      within the sale's own total no way of paying gives back more than it took. */
  lemma PatchedParts(payments: seq<PaymentLine>, refund: int)
    requires 0 < |payments| <= 3 && Proper(payments) && refund > 0 && Total(payments) > 0
    ensures
      var parts := Patched(payments, refund);
      && |parts| == |payments| && Total(parts) == refund
      && forall i :: 0 <= i < |parts| ==>
           && parts[i].means == payments[i].means && parts[i].amount >= 0
           && (refund <= Total(payments) ==> parts[i].amount <= payments[i].amount)
  {
    hide Exact, Round, Total, Shares, Biggest, Proper;
    var c := Total(payments);
    var shares := Shares(payments, c, refund);
    var b := Biggest(payments, |payments|);
    ThreeShares(payments, refund);
    SharesLength(payments, c, refund);
    BiggestTakesTheRest(payments, refund);
    TotalUpdate(shares, b, shares[b].(amount := shares[b].amount + (refund - Total(shares))));
    forall i | 0 <= i < |shares| && i != b
      ensures shares[i].amount >= 0 && (refund <= c ==> shares[i].amount <= payments[i].amount)
    {
    }
  }

  lemma {:induction false} TotalUpdate(lines: seq<PaymentLine>, i: nat, line: PaymentLine)
    requires i < |lines|
    ensures Total(lines[i := line]) == Total(lines) - lines[i].amount + line.amount
  {
    if i == 0 {
      assert lines[0 := line][1..] == lines[1..];
    } else {
      assert lines[i := line][1..] == lines[1..][i - 1 := line];
      TotalUpdate(lines[1..], i - 1, line);
    }
  }

  /** The rounding remainder never overdraws the biggest part, nor makes it negative: with at
      most three parts the others are off by less than a tenge, and the biggest share is at
      least a third of the refund. */
  lemma BiggestTakesTheRest(payments: seq<PaymentLine>, refund: int)
    requires 0 < |payments| <= 3 && Proper(payments) && refund > 0 && Total(payments) > 0
    requires |Shares(payments, Total(payments), refund)| == |payments|
    ensures
      var c := Total(payments);
      var shares := Shares(payments, c, refund);
      var b := Biggest(payments, |payments|);
      && 0 <= refund - (Total(shares) - shares[b].amount)
      && (refund <= c ==> refund - (Total(shares) - shares[b].amount) <= payments[b].amount)
  {
    hide Exact, Round;
    var c := Total(payments);
    var shares := Shares(payments, c, refund);
    var b := Biggest(payments, |payments|);
    ThreeShares(payments, refund);
    ExactSumUpToThree(payments, c, refund);
    var x := Exact(payments[b].amount, c, refund);
    forall i | 0 <= i < |payments|
      ensures Exact(payments[i].amount, c, refund) <= x
    {
      ExactMonotone(payments[i].amount, payments[b].amount, c, refund);
    }
    var others := (Total(shares) - shares[b].amount) as real;
    assert refund as real - x - 1.0 <= others <= refund as real - x + 1.0;
    assert x >= refund as real / 3.0;
    assert others > refund as real - x - 1.0;
  }

  lemma {:induction false} FilterTotal(lines: seq<PaymentLine>)
    requires forall l :: l in lines ==> l.amount >= 0
    ensures Total(Filter(lines, Positive)) == Total(lines)
  {
    if lines != [] {
      assert lines[0] in lines && forall l :: l in lines[1..] ==> l in lines;
      FilterTotal(lines[1..]);
    }
  }

  /** A refund against any sale that was accepted goes back in positive parts that add up to it
      to the tenge, each by a way the sale was paid; and no way returns more than it took
      unless the refund itself exceeds the sale. */
  lemma RefundIsConserved(sent: seq<RawPayment>, paymentMethod: RawText, total: int, refund: int)
    requires Resolve(sent, paymentMethod, total).Paid? && total > 0 && refund > 0
    ensures
      var payments := Resolve(sent, paymentMethod, total).payments;
      var parts := Split(payments, refund);
      && Total(parts) == refund
      && forall p :: p in parts ==>
           (p.amount > 0
            && exists line ::
              line in payments && line.means == p.means && (refund <= total ==> p.amount <= line.amount))
  {
    AcceptedPayments(sent, paymentMethod, total);
    var payments := Resolve(sent, paymentMethod, total).payments;
    PatchedParts(payments, refund);
    var patched := Patched(payments, refund);
    FilterTotal(patched);
    forall p | p in Split(payments, refund)
      ensures exists line :: line in payments && line.means == p.means && (refund <= total ==> p.amount <= line.amount)
    {
      var i :| 0 <= i < |patched| && patched[i] == p;
      assert payments[i] in payments;
    }
  }

  // ------------------------------------------------ any number of parts

  /** Dropping parts that are not positive drops exactly the one that may be negative. */
  lemma {:induction false} FilterDrops(lines: seq<PaymentLine>, b: nat)
    requires b < |lines| && forall i :: 0 <= i < |lines| && i != b ==> lines[i].amount >= 0
    ensures Total(Filter(lines, Positive)) == Total(lines) - (if lines[b].amount < 0 then lines[b].amount else 0)
  {
    if b == 0 {
      FilterTotal(lines[1..]);
    } else {
      FilterDrops(lines[1..], b - 1);
    }
  }

  /** However many parts a sale has: a refund comes back whole exactly when the rounded shares of the
      parts other than the biggest leave something, or nothing, for the biggest. */
  lemma SplitAddsUpIff(payments: seq<PaymentLine>, refund: int)
    requires payments != [] && refund > 0 && forall l :: l in payments ==> l.amount > 0
    ensures Total(payments) > 0 && |Shares(payments, Total(payments), refund)| == |payments|
    ensures
      var shares := Shares(payments, Total(payments), refund);
      var others := Total(shares) - shares[Biggest(payments, |payments|)].amount;
      Total(Split(payments, refund)) == refund <==> others <= refund
  {
    hide Exact, Round, Biggest;
    PositiveTotal(payments);
    var c := Total(payments);
    var shares, b := Shares(payments, c, refund), Biggest(payments, |payments|);
    SharesLength(payments, c, refund);
    forall i | 0 <= i < |payments|
      ensures shares[i].amount >= 0
    {
      ExactWhole(c, refund);
      ExactMonotone(0, payments[i].amount, c, refund);
      RoundBounds(Exact(payments[i].amount, c, refund));
    }
    TotalUpdate(shares, b, shares[b].(amount := shares[b].amount + (refund - Total(shares))));
    FilterDrops(Patched(payments, refund), b);
  }

  lemma {:induction false} PositiveTotal(lines: seq<PaymentLine>)
    requires forall l :: l in lines ==> l.amount > 0
    ensures Total(lines) >= |lines|
  {
    if lines != [] {
      assert lines[0] in lines && forall l :: l in lines[1..] ==> l in lines;
      PositiveTotal(lines[1..]);
    }
  }

  /** Every way of paying, one tenge each. */
  const FOUR_WAYS: seq<PaymentLine> :=
    [PaymentLine(Cash, 1), PaymentLine(Card, 1), PaymentLine(Kaspi, 1), PaymentLine(Credit, 1)]

  lemma FourShares()
    ensures Total(FOUR_WAYS) == 4 && Total(FOUR_WAYS[1..]) == 3
    ensures Shares(FOUR_WAYS, 4, 2) == FOUR_WAYS
  {
    var p := FOUR_WAYS;
    assert p[1..][1..] == p[2..] && p[2..][1..] == p[3..] && p[3..][1..] == [];
    assert Total(p[3..]) == 1 && Total(p[2..]) == 2;
    assert Round(Exact(1, 4, 2)) == 1;
    SharesLength(p, 4, 2);
  }

  lemma {:induction false} FirstOfEqual(payments: seq<PaymentLine>, n: nat)
    requires 0 < n <= |payments| && forall i :: 0 <= i < |payments| ==> payments[i].amount == payments[0].amount
    ensures Biggest(payments, n) == 0
  {
    if n > 1 {
      FirstOfEqual(payments, n - 1);
    }
  }

  /** Four parts would lose money: two tenge back on four payments of one comes out as three. */
  lemma FourPartsDoNotAddUp()
    ensures Proper(FOUR_WAYS) && Total(FOUR_WAYS) == 4 && Total(Split(FOUR_WAYS, 2)) == 3
  {
    hide Exact, Round, Shares, Total, Biggest, Filter;
    FourShares();
    FirstOfEqual(FOUR_WAYS, 4);
    FourPatched();
    FilterDrops(Patched(FOUR_WAYS, 2), 0);
    TotalUpdate(FOUR_WAYS, 0, PaymentLine(Cash, -1));
  }

  lemma FourPatched()
    requires Total(FOUR_WAYS) == 4 && Shares(FOUR_WAYS, 4, 2) == FOUR_WAYS && Biggest(FOUR_WAYS, 4) == 0
    ensures Patched(FOUR_WAYS, 2) == FOUR_WAYS[0 := PaymentLine(Cash, -1)]
  {
    hide Exact, Round, Shares, Total, Biggest;
  }

  // ------------------------------------------------- a history of refunds

  /** What of these parts goes back by one way. */
  function AmountBy(parts: seq<PaymentLine>, means: Method): int {
    if parts == [] then 0
    else (if parts[0].means == means then parts[0].amount else 0) + AmountBy(parts[1..], means)
  }

  /** What has gone back by one way after every refund of a history. */
  function BackBy(payments: seq<PaymentLine>, refunds: seq<int>, means: Method): int {
    if refunds == [] then 0 else AmountBy(Split(payments, refunds[0]), means) + BackBy(payments, refunds[1..], means)
  }

  function SumOf(refunds: seq<int>): int {
    if refunds == [] then 0 else refunds[0] + SumOf(refunds[1..])
  }

  /** Halves of a tenge by which one refund may miss a part: the biggest pays for the others' rounding. */
  function Slack(payments: seq<PaymentLine>, i: nat): nat
    requires i < |payments|
  {
    if i == Biggest(payments, |payments|) then |payments| - 1 else 1
  }

  lemma {:induction false} FilterKeepsAmountBy(lines: seq<PaymentLine>, means: Method)
    requires forall l :: l in lines ==> l.amount >= 0
    ensures AmountBy(Filter(lines, Positive), means) == AmountBy(lines, means)
  {
    if lines != [] {
      assert lines[0] in lines && forall l :: l in lines[1..] ==> l in lines;
      FilterKeepsAmountBy(lines[1..], means);
    }
  }

  lemma {:induction false} NotPaidBy(lines: seq<PaymentLine>, means: Method)
    requires forall l :: l in lines ==> l.means != means
    ensures AmountBy(lines, means) == 0
  {
    if lines != [] {
      assert lines[0] in lines && forall l :: l in lines[1..] ==> l in lines;
      NotPaidBy(lines[1..], means);
    }
  }

  lemma {:induction false} AmountByAt(lines: seq<PaymentLine>, i: nat)
    requires i < |lines| && forall j, k :: 0 <= j < k < |lines| ==> lines[j].means != lines[k].means
    ensures AmountBy(lines, lines[i].means) == lines[i].amount
  {
    if i == 0 {
      NotPaidBy(lines[1..], lines[0].means);
    } else {
      AmountByAt(lines[1..], i - 1);
    }
  }

  lemma SplitBy(payments: seq<PaymentLine>, refund: int, i: nat)
    requires |payments| <= 3 && Proper(payments) && refund > 0 && Total(payments) > 0 && i < |payments|
    ensures |Patched(payments, refund)| == |payments|
    ensures AmountBy(Split(payments, refund), payments[i].means) == Patched(payments, refund)[i].amount
  {
    hide Patched;
    PatchedParts(payments, refund);
    var parts := Patched(payments, refund);
    forall l | l in parts
      ensures l.amount >= 0
    {
    }
    FilterKeepsAmountBy(parts, payments[i].means);
    AmountByAt(parts, i);
  }

  /** One refund misses a part's exact share by half a tenge, or the biggest part's by half a tenge
      for each other part. */
  lemma OneRefundDrifts(payments: seq<PaymentLine>, refund: int, i: nat)
    requires |payments| <= 3 && Proper(payments) && refund > 0 && Total(payments) > 0 && i < |payments|
    ensures
      var drift := 2.0 * (AmountBy(Split(payments, refund), payments[i].means) as real
                          - Exact(payments[i].amount, Total(payments), refund));
      -(Slack(payments, i) as real) <= drift <= Slack(payments, i) as real
  {
    hide Exact, Round, Split, AmountBy, Biggest;
    var c := Total(payments);
    var shares, b := Shares(payments, c, refund), Biggest(payments, |payments|);
    SplitBy(payments, refund, i);
    SharesLength(payments, c, refund);
    ThreeShares(payments, refund);
    if i == b {
      ExactSumUpToThree(payments, c, refund);
    }
  }

  lemma ExactOverRefunds(amount: int, collected: int, a: int, b: int)
    requires collected > 0
    ensures Exact(amount, collected, a) + Exact(amount, collected, b) == Exact(amount, collected, a + b)
  {
    var share := amount as real / collected as real;
    assert (a + b) as real == a as real + b as real;
    assert share * a as real + share * b as real == share * (a as real + b as real);
  }

  lemma {:induction false} RefundsDrift(payments: seq<PaymentLine>, refunds: seq<int>, i: nat)
    requires |payments| <= 3 && Proper(payments) && Total(payments) > 0 && i < |payments|
    requires forall r :: r in refunds ==> r > 0
    ensures
      var drift := 2.0 * (BackBy(payments, refunds, payments[i].means) as real
                          - Exact(payments[i].amount, Total(payments), SumOf(refunds)));
      -((|refunds| * Slack(payments, i)) as real) <= drift <= (|refunds| * Slack(payments, i)) as real
  {
    hide Exact, Split, AmountBy, Slack, Proper, Total;
    if refunds == [] {
      assert Exact(payments[i].amount, Total(payments), 0) == 0.0 by {
        NothingRefunded(payments[i].amount, Total(payments));
      }
    } else {
      assert refunds[0] in refunds && forall r :: r in refunds[1..] ==> r in refunds;
      OneRefundDrifts(payments, refunds[0], i);
      RefundsDrift(payments, refunds[1..], i);
      ExactOverRefunds(payments[i].amount, Total(payments), refunds[0], SumOf(refunds[1..]));
      OneTimeMore(|refunds[1..]|, Slack(payments, i));
    }
  }

  lemma OneTimeMore(n: nat, k: nat)
    ensures (n + 1) * k == n * k + k
  {
  }

  lemma NothingRefunded(amount: int, collected: int)
    requires collected > 0
    ensures Exact(amount, collected, 0) == 0.0
  {
  }

  /** Over any history of refunds of one sale, what goes back by each way strays from its exact share of
      all that went back by at most half a tenge a refund, and for the part that takes the remainder by
      half a tenge a refund for each other part. So within the sale a way returns at most that much more
      than it took. */
  lemma RefundHistoryStaysNear(
    sent: seq<RawPayment>, paymentMethod: RawText, total: int, refunds: seq<int>, i: nat)
    requires Resolve(sent, paymentMethod, total).Paid? && total > 0
    requires i < |Resolve(sent, paymentMethod, total).payments| && forall r :: r in refunds ==> r > 0
    ensures
      var payments := Resolve(sent, paymentMethod, total).payments;
      var back := BackBy(payments, refunds, payments[i].means);
      var exact := Exact(payments[i].amount, total, SumOf(refunds));
      var slack := |refunds| * Slack(payments, i);
      && -(slack as real) <= 2.0 * (back as real - exact) <= slack as real
      && (SumOf(refunds) <= total ==> 2 * back <= 2 * payments[i].amount + slack)
      && slack <= 2 * |refunds|
  {
    hide Resolve, BackBy, Exact, Biggest;
    AcceptedPayments(sent, paymentMethod, total);
    var payments := Resolve(sent, paymentMethod, total).payments;
    RefundsDrift(payments, refunds, i);
    if SumOf(refunds) <= total {
      ExactWithin(payments[i].amount, total, SumOf(refunds));
    }
    assert Slack(payments, i) <= 2;
    AtMostTwice(|refunds|, Slack(payments, i));
  }

  lemma AtMostTwice(n: nat, k: nat)
    requires k <= 2
    ensures n * k <= 2 * n
  {
  }

  // ------------------------------- when no way returns more than it took

  /** Refunds that stay within the sale take no more back by any way than was paid by it. */
  ghost predicate NoWayOverdrawn(payments: seq<PaymentLine>, refunds: seq<int>) {
    (forall r :: r in refunds ==> r > 0) && SumOf(refunds) <= Total(payments) ==>
      forall line :: line in payments ==> BackBy(payments, refunds, line.means) <= line.amount
  }

  /** With one way of paying, everything goes back by it. */
  lemma {:induction false} OneWayTakesAll(payments: seq<PaymentLine>, refunds: seq<int>)
    requires |payments| == 1 && Proper(payments) && forall r :: r in refunds ==> r > 0
    ensures BackBy(payments, refunds, payments[0].means) == SumOf(refunds)
  {
    hide Split, AmountBy, Proper;
    if refunds != [] {
      assert refunds[0] in refunds && forall r :: r in refunds[1..] ==> r in refunds;
      OneWayTakesAll(payments, refunds[1..]);
      OnePart(payments, refunds[0]);
    }
  }

  lemma OnePart(payments: seq<PaymentLine>, refund: int)
    requires |payments| == 1 && Proper(payments) && refund > 0
    ensures Total(payments) == payments[0].amount
    ensures AmountBy(Split(payments, refund), payments[0].means) == refund
  {
    hide Patched, Split, AmountBy;
    UpToThree(payments);
    PatchedParts(payments, refund);
    SplitBy(payments, refund, 0);
    UpToThree(Patched(payments, refund));
  }

  /** A refund of one tenge goes back whole by one way. */
  lemma TengeGoesOneWay(payments: seq<PaymentLine>) returns (i: nat)
    requires 0 < |payments| <= 3 && Proper(payments) && Total(payments) > 0
    ensures i < |payments| && AmountBy(Split(payments, 1), payments[i].means) == 1
  {
    hide Patched, Split, AmountBy, Proper;
    PatchedParts(payments, 1);
    var parts := Patched(payments, 1);
    UpToThree(parts);
    i := if parts[0].amount == 1 then 0 else if |parts| > 1 && parts[1].amount == 1 then 1 else 2;
    SplitBy(payments, 1, i);
  }

  lemma {:induction false} TengeByTenge(payments: seq<PaymentLine>, n: nat, means: Method)
    requires AmountBy(Split(payments, 1), means) == 1
    ensures BackBy(payments, seq(n, _ => 1), means) == n && SumOf(seq(n, _ => 1)) == n
  {
    hide Split, AmountBy;
    var refunds := seq(n, _ => 1);
    if n > 0 {
      assert refunds[1..] == seq(n - 1, _ => 1);
      TengeByTenge(payments, n - 1, means);
    }
  }

  /** With several ways of paying, refunds of a tenge each send the whole sale back by one of them. */
  lemma SeveralWaysOverdraw(payments: seq<PaymentLine>)
    requires 1 < |payments| <= 3 && Proper(payments)
    ensures Total(payments) > 0 && !NoWayOverdrawn(payments, seq(Total(payments), _ => 1))
  {
    hide Split, BackBy, SumOf;
    UpToThree(payments);
    var i := TengeGoesOneWay(payments);
    TengeByTenge(payments, Total(payments), payments[i].means);
    assert payments[i] in payments && payments[i].amount < Total(payments);
  }

  /** Over every history of refunds within the sale no way of paying returns more than it took, exactly
      when the sale was paid one way: what routes/pos.ts:1595 asks before it splits a refund. */
  lemma NoWayOverdrawnIff(sent: seq<RawPayment>, paymentMethod: RawText, total: int)
    requires Resolve(sent, paymentMethod, total).Paid? && total > 0
    ensures
      var payments := Resolve(sent, paymentMethod, total).payments;
      (forall refunds :: NoWayOverdrawn(payments, refunds)) <==> |payments| == 1
  {
    hide Resolve, BackBy, Split, SumOf;
    AcceptedPayments(sent, paymentMethod, total);
    var payments := Resolve(sent, paymentMethod, total).payments;
    if |payments| == 1 {
      forall refunds
        ensures NoWayOverdrawn(payments, refunds)
      {
        if forall r :: r in refunds ==> r > 0 {
          OneWayTakesAll(payments, refunds);
          UpToThree(payments);
        }
      }
    } else {
      SeveralWaysOverdraw(payments);
    }
  }

  /** Three ways, a hundred tenge each. */
  const THREE_WAYS: seq<PaymentLine> := [PaymentLine(Cash, 100), PaymentLine(Card, 100), PaymentLine(Kaspi, 100)]

  /** The register's request that records them. */
  const THREE_SENT: seq<RawPayment> :=
    [RawPayment(Text("cash"), Some(100.0)), RawPayment(Text("card"), Some(100.0)),
     RawPayment(Text("kaspi"), Some(100.0))]

  lemma ThreeWaysAreRead()
    ensures Read(THREE_SENT) == Ok(THREE_WAYS)
  {
    assert Read([]) == Ok([]);
    hide Read, ReadOne, Uses;
    var sent := THREE_SENT;
    var one, two := [PaymentLine(Cash, 100)], [PaymentLine(Cash, 100), PaymentLine(Card, 100)];
    assert sent[..0] == [] && sent[..3] == sent;
    OneLineMore(sent, 0);
    HundredRead([], sent[0], Cash);
    assert [] + one == one;
    OneLineMore(sent, 1);
    HundredRead(one, sent[1], Card);
    assert one + [PaymentLine(Card, 100)] == two;
    OneLineMore(sent, 2);
    HundredRead(two, sent[2], Kaspi);
    assert two + [PaymentLine(Kaspi, 100)] == THREE_WAYS;
  }

  lemma ThreeWaysAreAccepted()
    ensures Resolve(THREE_SENT, Absent, 300) == Paid(THREE_WAYS, "mixed")
  {
    ThreeWaysAreRead();
    hide Read;
    UpToThree(THREE_WAYS);
  }

  lemma HundredRead(lines: seq<PaymentLine>, sent: RawPayment, means: Method)
    requires Parse(sent.means) == Some(means) && sent.amount == Some(100.0)
    requires forall line :: line in lines ==> line.means != means
    ensures ReadOne(lines, sent) == Ok(lines + [PaymentLine(means, 100)])
  {
  }

  /** Refunds need not be of a tenge each: a sale the register may send, paid three ways by a hundred
      tenge each, returns a hundred and two in cash after three refunds of a hundred. */
  lemma ThreeRefundsDrift()
    ensures Resolve(THREE_SENT, Absent, 300) == Paid(THREE_WAYS, "mixed")
    ensures Total(THREE_WAYS) == 300 && BackBy(THREE_WAYS, [100, 100, 100], Cash) == 102
  {
    ThreeWaysAreAccepted();
    hide Exact, Round, Split, Resolve;
    var p := THREE_WAYS;
    UpToThree(p);
    HundredBack();
    var refunds := [100, 100, 100];
    assert refunds[1..] == [100, 100] && refunds[1..][1..] == [100] && [100][1..] == [];
    assert BackBy(p, [100], Cash) == 34;
    assert BackBy(p, [100, 100], Cash) == 68;
  }

  lemma HundredBack()
    ensures AmountBy(Split(THREE_WAYS, 100), Cash) == 34
  {
    hide Exact, Round, Split, AmountBy;
    var p := THREE_WAYS;
    UpToThree(p);
    SharesLength(p, 300, 100);
    FirstOfEqual(p, 3);
    assert Round(Exact(100, 300, 100)) == 33 by {
      AThird();
    }
    UpToThree(Shares(p, 300, 100));
    SplitBy(p, 100, 0);
  }

  lemma AThird()
    ensures Round(Exact(100, 300, 100)) == 33
  {
    assert 100.0 / 300.0 * 100.0 == 10000.0 / 300.0;
  }
}
