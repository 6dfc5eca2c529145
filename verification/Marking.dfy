/** What a scanner sends for a marked pack (apps/api/src/marking.ts): a GS1 element string, that is
    two-digit identifiers and values, where values of unknown length end with a separator. */
module Marking {
  import opened Lists
  import opened JsText

  datatype MarkedCode = MarkedCode(gtin: Text, serial: Text)

  datatype Reason = Empty | NoGtin | NoSerial | Malformed

  datatype Element = Element(ai: Text, value: Text)

  /** The group separator, U+001D. */
  const GS: CodeUnit := 0x1D

  const COLON: CodeUnit := 58

  /** `01` and `21` */
  const AI_GTIN: Text := [48, 49]
  const AI_SERIAL: Text := [50, 49]

  const Bracket: CodeUnit -> bool := (u: CodeUnit) => u == 40 || u == 41

  predicate IsDigit(u: CodeUnit) { 48 <= u <= 57 }

  predicate IsIdentifier(ai: Text) {
    |ai| == 2 && IsDigit(ai[0]) && IsDigit(ai[1])
  }

  /** Identifiers whose values have a length known beforehand. */
  function FixedLength(ai: Text): Option<nat>
    requires IsIdentifier(ai)
  {
    match 10 * (ai[0] - 48) + (ai[1] - 48)
    case 0 => Some(18)
    case 1 => Some(14)
    case 2 => Some(14)
    case 11 => Some(6)
    case 12 => Some(6)
    case 13 => Some(6)
    case 15 => Some(6)
    case 17 => Some(6)
    case 20 => Some(2)
    case _ => None
  }

  function Pair(first: char, second: char): Text
    requires '0' <= first <= '9' && '0' <= second <= '9'
  {
    [first as int, second as int]
  }

  /** Two digits make an identifier and nothing else does; nine of them announce a value of known length. */
  lemma IdentifiersAre(ai: Text)
    ensures IsIdentifier(ai) <==>
      exists a: char, b: char :: '0' <= a <= '9' && '0' <= b <= '9' && ai == Pair(a, b)
    ensures AI_GTIN == Pair('0', '1') && AI_SERIAL == Pair('2', '1')
    ensures FixedLength(Pair('0', '0')) == Some(18)
    ensures FixedLength(Pair('0', '1')) == FixedLength(Pair('0', '2')) == Some(14)
    ensures FixedLength(Pair('1', '1')) == FixedLength(Pair('1', '2')) == FixedLength(Pair('1', '3')) == Some(6)
    ensures FixedLength(Pair('1', '5')) == FixedLength(Pair('1', '7')) == Some(6)
    ensures FixedLength(Pair('2', '0')) == Some(2)
    ensures
      IsIdentifier(ai) && FixedLength(ai).Some? ==>
        ai in {Pair('0', '0'), Pair('0', '1'), Pair('0', '2'), Pair('1', '1'), Pair('1', '2'), Pair('1', '3'),
               Pair('1', '5'), Pair('1', '7'), Pair('2', '0')}
  {
    if IsIdentifier(ai) {
      assert ai == Pair(ai[0] as char, ai[1] as char);
    }
  }

  // ------------------------------------------------------- printing elements

  predicate WellFormed(e: Element) {
    && IsIdentifier(e.ai)
    && match FixedLength(e.ai)
       case Some(n) => |e.value| == n
       case None => GS !in e.value
  }

  ghost predicate AllWellFormed(els: seq<Element>) {
    forall i :: 0 <= i < |els| ==> WellFormed(els[i])
  }

  /** One element; `closed` when a separator follows a value of variable length. */
  function PrintOne(e: Element, closed: bool): Text
    requires WellFormed(e)
  {
    e.ai + e.value + if FixedLength(e.ai).None? && closed then [GS] else []
  }

  /** The element string; the last value may do without its separator. */
  function Print(els: seq<Element>, closed: bool): Text
    requires AllWellFormed(els)
  {
    if els == [] then [] else PrintOne(els[0], |els| > 1 || closed) + Print(els[1..], closed)
  }

  /** The value of the last element with this identifier. */
  function LastValue(els: seq<Element>, ai: Text): Option<Text> {
    if els == [] then None
    else if els[|els| - 1].ai == ai then Some(els[|els| - 1].value)
    else LastValue(els[..|els| - 1], ai)
  }

  // --------------------------------------------------------- reading elements

  /** `text.indexOf(GS)` */
  function IndexOfGs(text: Text): (r: Option<nat>)
    ensures r.Some? ==> r.value < |text| && text[r.value] == GS && GS !in text[..r.value]
    ensures r.None? ==> GS !in text
  {
    if text == [] then None
    else if text[0] == GS then Some(0)
    else
      match IndexOfGs(text[1..])
      case None => None
      case Some(k) =>
        assert text[..k + 1] == [text[0]] + text[1..][..k];
        Some(k + 1)
  }

  /** The first element of a text and where the next one starts. */
  function ScanOne(text: Text): (r: Option<(Element, nat)>)
    ensures r.Some? ==> WellFormed(r.value.0) && 2 <= r.value.1 <= |text|
  {
    if |text| < 2 || !IsIdentifier(text[..2]) then None
    else
      var ai, rest := text[..2], text[2..];
      match FixedLength(ai)
      case Some(n) => if |rest| < n then None else Some((Element(ai, rest[..n]), 2 + n))
      case None =>
        match IndexOfGs(rest)
        case None => Some((Element(ai, rest), |text|))
        case Some(k) => Some((Element(ai, rest[..k]), 2 + k + 1))
  }

  function Scan(text: Text): (r: Option<seq<Element>>)
    ensures r.Some? ==> AllWellFormed(r.value)
  {
    if text == [] then Some([])
    else
      match ScanOne(text)
      case None => None
      case Some((e, next)) =>
        match Scan(text[next..])
        case None => None
        case Some(rest) => Some([e] + rest)
  }

  /** What the elements say about one package. */
  function Verdict(els: seq<Element>): Result<MarkedCode, Reason> {
    var gtin, serial := LastValue(els, AI_GTIN), LastValue(els, AI_SERIAL);
    if gtin.None? || gtin.value == [] then Err(NoGtin)
    else if serial.None? || serial.value == [] then Err(NoSerial)
    else if |serial.value| > 20 then Err(Malformed)
    else Ok(MarkedCode(gtin.value, serial.value))
  }

  function Cleaned(raw: Text): Text {
    Strip(Trim(raw, Space), Bracket)
  }

  function Parse(raw: Text): Result<MarkedCode, Reason> {
    if Cleaned(raw) == [] then Err(Empty)
    else
      match Scan(Cleaned(raw))
      case None => Err(Malformed)
      case Some(els) => Verdict(els)
  }

  method ParseMarkedCode(raw: Text) returns (r: Result<MarkedCode, Reason>)
    ensures r == Parse(raw)
  {
    hide Scan, LastValue, Cleaned, WellFormed, FixedLength;
    var text := Cleaned(raw);
    if text == [] {
      return Err(Empty);
    }
    NothingRead();
    var gtin: Option<Text>, serial: Option<Text> := None, None;
    ghost var seen: seq<Element> := [];
    var i := 0;
    assert text[0..] == text;
    PrependNothing(Scan(text));
    while i < |text|
      invariant i <= |text|
      invariant Scan(text) == Prepend(seen, Scan(text[i..]))
      invariant gtin == LastValue(seen, AI_GTIN) && serial == LastValue(seen, AI_SERIAL)
    {
      var rest := text[i..];
      StuckElement(rest);
      if |rest| < 2 || !IsIdentifier(rest[..2]) {
        return Err(Malformed);
      }
      var ai := rest[..2];
      var fixed := FixedLength(ai);
      if fixed.Some? {
        var value := rest[2..];
        if |value| < fixed.value {
          return Err(Malformed);
        }
        NextElement(text, i, seen);
        seen := seen + [Element(ai, value[..fixed.value])];
        i := i + 2 + fixed.value;
        if ai == AI_GTIN {
          gtin := Some(value[..fixed.value]);
        }
        continue;
      }
      var end := IndexOfGs(rest[2..]);
      var value := if end.None? then rest[2..] else rest[2..][..end.value];
      NextElement(text, i, seen);
      seen := seen + [Element(ai, value)];
      i := if end.None? then |text| else i + 2 + end.value + 1;
      if ai == AI_SERIAL {
        serial := Some(value);
      }
    }
    assert text[i..] == [];
    assert seen + [] == seen;
    if gtin.None? || gtin.value == [] {
      return Err(NoGtin);
    }
    if serial.None? || serial.value == [] {
      return Err(NoSerial);
    }
    if |serial.value| > 20 {
      return Err(Malformed);
    }
    r := Ok(MarkedCode(gtin.value, serial.value));
  }

  function Prepend(seen: seq<Element>, rest: Option<seq<Element>>): Option<seq<Element>> {
    match rest
    case None => None
    case Some(els) => Some(seen + els)
  }

  lemma NothingRead()
    ensures Scan([]) == Some([]) && LastValue([], AI_GTIN) == None && LastValue([], AI_SERIAL) == None
    ensures FixedLength(AI_GTIN) == Some(14) && FixedLength(AI_SERIAL) == None
  {
  }

  lemma StuckElement(rest: Text)
    ensures rest != [] && ScanOne(rest).None? ==> Scan(rest).None?
  {
  }

  lemma PrependNothing(rest: Option<seq<Element>>)
    ensures Prepend([], rest) == rest
  {
    if rest.Some? {
      assert [] + rest.value == rest.value;
    }
  }

  lemma LastValueAppend(seen: seq<Element>, e: Element, ai: Text)
    ensures LastValue(seen + [e], ai) == if e.ai == ai then Some(e.value) else LastValue(seen, ai)
  {
    assert (seen + [e])[..|seen|] == seen;
  }

  /** One step of the scan, counted from the start of the text. */
  lemma NextElement(text: Text, i: nat, seen: seq<Element>)
    requires i < |text| && ScanOne(text[i..]).Some?
    ensures
      var (e, next) := ScanOne(text[i..]).value;
      && i + next <= |text|
      && Prepend(seen, Scan(text[i..])) == Prepend(seen + [e], Scan(text[i + next..]))
      && LastValue(seen + [e], AI_GTIN) == (if e.ai == AI_GTIN then Some(e.value) else LastValue(seen, AI_GTIN))
      && LastValue(seen + [e], AI_SERIAL) == (if e.ai == AI_SERIAL then Some(e.value) else LastValue(seen, AI_SERIAL))
  {
    hide ScanOne, LastValue, WellFormed;
    var (e, next) := ScanOne(text[i..]).value;
    assert text[i..][next..] == text[i + next..];
    LastValueAppend(seen, e, AI_GTIN);
    LastValueAppend(seen, e, AI_SERIAL);
    if Scan(text[i + next..]).Some? {
      var els := Scan(text[i + next..]).value;
      assert seen + ([e] + els) == seen + [e] + els;
    }
  }

  // -------------------------------------------------- reading what was printed

  lemma {:induction false} FirstGs(value: Text, tail: Text)
    requires GS !in value
    ensures IndexOfGs(value + [GS] + tail) == Some(|value|)
    ensures IndexOfGs(value) == None
  {
    if value == [] {
      assert (value + [GS] + tail)[0] == GS;
    } else {
      assert (value + [GS] + tail)[1..] == value[1..] + [GS] + tail;
      FirstGs(value[1..], tail);
    }
  }

  /** One printed element is read back, whatever follows a value that ends by itself or by a separator. */
  lemma ScanPrinted(e: Element, closed: bool, tail: Text)
    requires WellFormed(e) && (FixedLength(e.ai).None? && !closed ==> tail == [])
    ensures ScanOne(PrintOne(e, closed) + tail) == Some((e, |PrintOne(e, closed)|))
  {
    hide FixedLength, IndexOfGs;
    var text := PrintOne(e, closed) + tail;
    assert text[..2] == e.ai;
    if FixedLength(e.ai).Some? {
      assert text[2..] == e.value + tail;
      assert text[2..][..|e.value|] == e.value;
    } else if closed {
      FirstGs(e.value, tail);
      assert text[2..] == e.value + [GS] + tail;
      assert text[2..][..|e.value|] == e.value;
    } else {
      FirstGs(e.value, []);
      assert text[2..] == e.value;
    }
  }

  /** Reading inverts printing, whatever the fields, their order and their number. */
  lemma {:induction false} ScanInvertsPrint(els: seq<Element>, closed: bool)
    requires AllWellFormed(els)
    ensures Scan(Print(els, closed)) == Some(els)
  {
    hide ScanOne, WellFormed, FixedLength;
    if els != [] {
      var first := PrintOne(els[0], |els| > 1 || closed);
      ScanPrinted(els[0], |els| > 1 || closed, Print(els[1..], closed));
      assert Print(els, closed)[|first|..] == Print(els[1..], closed);
      ScanInvertsPrint(els[1..], closed);
      assert [els[0]] + els[1..] == els;
    }
  }

  /** What was read is what the text prints: nothing is lost and nothing is made up. */
  lemma {:induction false} PrintInvertsScan(text: Text)
    requires Scan(text).Some?
    ensures Print(Scan(text).value, EndsWithGs(text)) == text
    decreases |text|
  {
    if text != [] {
      var (e, next) := ScanOne(text).value;
      PrintInvertsScan(text[next..]);
      PrintedOne(text);
      var els := Scan(text).value;
      assert els[1..] == Scan(text[next..]).value;
    }
  }

  predicate EndsWithGs(text: Text) {
    text != [] && text[|text| - 1] == GS
  }

  /** The part of a text its first element was read from is that element, printed. */
  lemma PrintedOne(text: Text)
    requires text != [] && ScanOne(text).Some?
    ensures
      var (e, next) := ScanOne(text).value;
      && (next < |text| ==> EndsWithGs(text[next..]) == EndsWithGs(text))
      && text == PrintOne(e, next < |text| || EndsWithGs(text)) + text[next..]
  {
    hide FixedLength;
    var (e, next) := ScanOne(text).value;
    if FixedLength(e.ai).None? && IndexOfGs(text[2..]).Some? {
      var k := IndexOfGs(text[2..]).value;
      assert text == e.ai + e.value + [GS] + text[next..];
    } else {
      assert text == e.ai + e.value + text[next..];
    }
  }

  // ------------------------------------------------------------- the parse

  /** `raw` shows these elements, and they name this pack. */
  ghost predicate Names(raw: Text, els: seq<Element>, closed: bool, code: MarkedCode) {
    && els != [] && AllWellFormed(els) && Cleaned(raw) == Print(els, closed)
    && LastValue(els, AI_GTIN) == Some(code.gtin)
    && LastValue(els, AI_SERIAL) == Some(code.serial)
    && 1 <= |code.serial| <= 20
  }

  lemma {:induction false} LastValueIsOne(els: seq<Element>, ai: Text)
    requires AllWellFormed(els) && LastValue(els, ai).Some?
    ensures exists i :: 0 <= i < |els| && els[i].ai == ai && els[i].value == LastValue(els, ai).value
  {
    if els[|els| - 1].ai != ai {
      LastValueIsOne(els[..|els| - 1], ai);
      var i :| 0 <= i < |els| - 1 && els[..|els| - 1][i].ai == ai
        && els[..|els| - 1][i].value == LastValue(els, ai).value;
      assert els[i].ai == ai;
    }
  }

  /** A GTIN that was read has fourteen characters. */
  lemma GtinLength(els: seq<Element>)
    requires AllWellFormed(els) && LastValue(els, AI_GTIN).Some?
    ensures |LastValue(els, AI_GTIN).value| == 14
  {
    LastValueIsOne(els, AI_GTIN);
    var i :| 0 <= i < |els| && els[i].ai == AI_GTIN && els[i].value == LastValue(els, AI_GTIN).value;
    assert WellFormed(els[i]) && FixedLength(AI_GTIN) == Some(14);
  }

  /** The parse accepts exactly the texts that print a list of fields naming a pack, and says which. */
  lemma ParsesIff(raw: Text, code: MarkedCode)
    ensures Parse(raw) == Ok(code) <==> exists els, closed :: Names(raw, els, closed, code)
    ensures Parse(raw) == Ok(code) ==> |code.gtin| == 14
  {
    hide ScanOne, Cleaned, WellFormed;
    var text := Cleaned(raw);
    if Parse(raw) == Ok(code) {
      PrintInvertsScan(text);
      GtinLength(Scan(text).value);
      assert Names(raw, Scan(text).value, EndsWithGs(text), code);
    }
    if exists els, closed :: Names(raw, els, closed, code) {
      var els, closed :| Names(raw, els, closed, code);
      ScanInvertsPrint(els, closed);
      GtinLength(els);
    }
  }

  lemma {:induction false} TheOnlyOne(els: seq<Element>, e: Element)
    requires e in els && forall x :: x in els && x.ai == e.ai ==> x == e
    ensures LastValue(els, e.ai) == Some(e.value)
  {
    var last := els[|els| - 1];
    assert last in els;
    if last.ai != e.ai {
      TheOnlyOne(els[..|els| - 1], e);
    }
  }

  /** The value that counts is that of the last field with the identifier. */
  lemma {:induction false} LastValueIs(els: seq<Element>, ai: Text, i: nat)
    requires i <= |els| && forall j :: i <= j < |els| ==> els[j].ai != ai
    ensures i == 0 ==> LastValue(els, ai) == None
    ensures i > 0 && els[i - 1].ai == ai ==> LastValue(els, ai) == Some(els[i - 1].value)
  {
    if i < |els| {
      LastValueIs(els[..|els| - 1], ai, i);
    }
  }

  /** Why a text is refused: there is nothing in it, it does not fall into fields, no field names the goods,
      no serial follows, or it is too long. */
  lemma RefusalSays(raw: Text)
    ensures Parse(raw) == Err(Empty) <==> Cleaned(raw) == []
    ensures Cleaned(raw) != [] && (forall els, closed :: !Shows(raw, els, closed)) ==> Parse(raw) == Err(Malformed)
    ensures forall els, closed :: Shows(raw, els, closed) && els != [] ==>
      var serial := LastValue(els, AI_SERIAL);
      && ((forall e :: e in els ==> e.ai != AI_GTIN) ==> Parse(raw) == Err(NoGtin))
      && ((exists e :: e in els && e.ai == AI_GTIN) ==>
            && (serial == None || serial == Some([]) ==> Parse(raw) == Err(NoSerial))
            && (serial.Some? && |serial.value| > 20 ==> Parse(raw) == Err(Malformed)))
  {
    hide ScanOne, Cleaned, WellFormed, LastValue;
    if Scan(Cleaned(raw)).Some? {
      PrintInvertsScan(Cleaned(raw));
      assert Shows(raw, Scan(Cleaned(raw)).value, EndsWithGs(Cleaned(raw)));
    }
    forall els, closed | Shows(raw, els, closed) && els != []
      ensures Parse(raw) == Verdict(els)
      ensures (exists e :: e in els && e.ai == AI_GTIN) <==> LastValue(els, AI_GTIN).Some?
      ensures LastValue(els, AI_GTIN).Some? ==> LastValue(els, AI_GTIN).value != []
    {
      ScanInvertsPrint(els, closed);
      LastValueSome(els, AI_GTIN);
      if LastValue(els, AI_GTIN).Some? {
        GtinLength(els);
      }
      SomethingPrinted(els, closed);
    }
  }

  /** The text, cleaned, is what these fields print. */
  ghost predicate Shows(raw: Text, els: seq<Element>, closed: bool) {
    AllWellFormed(els) && Cleaned(raw) == Print(els, closed)
  }

  lemma SomethingPrinted(els: seq<Element>, closed: bool)
    requires AllWellFormed(els) && els != []
    ensures Print(els, closed) != []
  {
    assert |PrintOne(els[0], |els| > 1 || closed)| >= 2;
  }

  lemma {:induction false} LastValueSome(els: seq<Element>, ai: Text)
    ensures LastValue(els, ai).Some? <==> exists e :: e in els && e.ai == ai
  {
    if els != [] {
      var front, last := els[..|els| - 1], els[|els| - 1];
      LastValueSome(front, ai);
      assert forall e :: e in els <==> e in front || e == last;
    }
  }

  /** One GTIN and one serial are found in whatever order the fields come and whatever follows them. */
  lemma FieldsInAnyOrder(raw: Text, els: seq<Element>, closed: bool, gtin: Element, serial: Element)
    requires AllWellFormed(els) && Cleaned(raw) == Print(els, closed)
    requires gtin in els && gtin.ai == AI_GTIN && (forall x :: x in els && x.ai == AI_GTIN ==> x == gtin)
    requires serial in els && serial.ai == AI_SERIAL && (forall x :: x in els && x.ai == AI_SERIAL ==> x == serial)
    requires 1 <= |serial.value| <= 20
    ensures Parse(raw) == Ok(MarkedCode(gtin.value, serial.value))
  {
    TheOnlyOne(els, gtin);
    TheOnlyOne(els, serial);
    assert Names(raw, els, closed, MarkedCode(gtin.value, serial.value));
    ParsesIff(raw, MarkedCode(gtin.value, serial.value));
  }

  // ------------------------------------------------------- how it is printed

  lemma {:induction false} TrimStartDrops(before: Text, text: Text)
    requires (forall u :: u in before ==> IsSpace(u)) && text != [] && !IsSpace(text[0])
    ensures TrimStart(before + text, Space) == text
  {
    if before == [] {
      assert before + text == text;
    } else {
      assert (before + text)[1..] == before[1..] + text;
      TrimStartDrops(before[1..], text);
    }
  }

  lemma {:induction false} TrimEndDrops(text: Text, after: Text)
    requires (forall u :: u in after ==> IsSpace(u)) && text != [] && !IsSpace(text[|text| - 1])
    ensures TrimEnd(text + after, Space) == text
  {
    if after == [] {
      assert text + after == text;
    } else {
      assert (text + after)[..|text + after| - 1] == text + after[..|after| - 1];
      TrimEndDrops(text, after[..|after| - 1]);
    }
  }

  /** White space around a code and brackets inside it do not change what it says. */
  lemma CleanedShown(before: Text, shown: Text, after: Text)
    requires forall u :: u in before + after ==> IsSpace(u)
    requires shown != [] && !IsSpace(shown[0]) && !IsSpace(shown[|shown| - 1])
    ensures Cleaned(before + shown + after) == Strip(shown, Bracket)
  {
    forall u | u in before || u in after
      ensures u in before + after
    {
    }
    assert before + shown + after == before + (shown + after);
    TrimStartDrops(before, shown + after);
    TrimEndDrops(shown, after);
  }

  /** The form printed for people: `(01)04607177813628(21)...`. */
  function PrintBracketed(els: seq<Element>, closed: bool): Text
    requires AllWellFormed(els)
  {
    if els == [] then []
    else [40] + els[0].ai + [41] + PrintOne(els[0], |els| > 1 || closed)[2..] + PrintBracketed(els[1..], closed)
  }

  lemma BracketsComeOffOne(e: Element, closed: bool)
    requires WellFormed(e) && forall u :: u in e.value ==> !Bracket(u)
    ensures Strip([40] + e.ai + [41] + PrintOne(e, closed)[2..], Bracket) == PrintOne(e, closed)
  {
    hide FixedLength, Strip;
    var tail := e.value + if FixedLength(e.ai).None? && closed then [GS] else [];
    assert PrintOne(e, closed) == e.ai + tail;
    assert PrintOne(e, closed)[2..] == tail;
    assert forall u :: u in tail ==> u in e.value || u == GS;
    AroundIdentifier(e.ai, tail);
  }

  lemma AroundIdentifier(ai: Text, tail: Text)
    requires IsIdentifier(ai) && forall u :: u in tail ==> !Bracket(u)
    ensures Strip([40] + ai + [41] + tail, Bracket) == ai + tail
  {
    hide Strip;
    StripConcat([40] + ai + [41], tail, Bracket);
    StripConcat([40] + ai, [41], Bracket);
    StripConcat([40], ai, Bracket);
    StripNothing(ai, Bracket);
    StripAll([40], Bracket);
    StripAll([41], Bracket);
    StripNothing(tail, Bracket);
    assert [] + ai + [] == ai;
  }

  lemma {:induction false} BracketsComeOff(els: seq<Element>, closed: bool)
    requires AllWellFormed(els) && forall e, u :: e in els && u in e.value ==> !Bracket(u)
    ensures Strip(PrintBracketed(els, closed), Bracket) == Print(els, closed)
  {
    hide FixedLength;
    if els != [] {
      var e, more := els[0], |els| > 1 || closed;
      assert e in els;
      BracketsComeOff(els[1..], closed);
      BracketsComeOffOne(e, more);
      StripConcat([40] + e.ai + [41] + PrintOne(e, more)[2..], PrintBracketed(els[1..], closed), Bracket);
    }
  }

  // -------------------------------------------------------- where it is cut

  /** A serial ends at a separator or at the end of the text and nowhere else. The comment at
      marking.ts:61-63 promises a cut at the next known identifier too; the loop makes none. */
  lemma SerialIsCutOnlyAtSeparator(serial: Text, tail: Text)
    requires GS !in serial
    ensures ScanOne(AI_SERIAL + serial + tail).Some?
    ensures ScanOne(AI_SERIAL + serial + tail).value.0.value == serial <==> tail == [] || tail[0] == GS
  {
    var text := AI_SERIAL + serial + tail;
    assert text[..2] == AI_SERIAL && text[2..] == serial + tail;
    if tail == [] {
      assert serial + tail == serial;
      FirstGs(serial, []);
    } else if tail[0] == GS {
      assert serial + tail == serial + [GS] + tail[1..];
      FirstGs(serial, tail[1..]);
      assert (serial + tail)[..|serial|] == serial;
    } else {
      match IndexOfGs(serial + tail) {
        case None => assert |serial + tail| > |serial|;
        case Some(k) => assert k > |serial|;
      }
    }
  }

  /** So when the scanner sends no separator, the fields after the serial become part of it, and
      the package gets the identity of another or is refused. */
  lemma WithoutSeparatorTheTailIsSerial(raw: Text, gtin: Text, serial: Text, tail: Text)
    requires |gtin| == 14 && serial != [] && GS !in serial + tail
    requires Cleaned(raw) == AI_GTIN + gtin + AI_SERIAL + serial + tail
    ensures Parse(raw) == if |serial| + |tail| <= 20 then Ok(MarkedCode(gtin, serial + tail)) else Err(Malformed)
  {
    hide Cleaned, Scan, Print, WellFormed;
    var els := [Element(AI_GTIN, gtin), Element(AI_SERIAL, serial + tail)];
    TwoFields(gtin, serial + tail);
    assert Cleaned(raw) == AI_GTIN + gtin + (AI_SERIAL + (serial + tail));
    ScanInvertsPrint(els, false);
    assert els[..1] == [els[0]];
    assert LastValue(els[..1], AI_GTIN) == Some(gtin);
    assert LastValue(els, AI_GTIN) == Some(gtin) && LastValue(els, AI_SERIAL) == Some(serial + tail);
  }

  lemma TwoFields(gtin: Text, serial: Text)
    requires |gtin| == 14 && GS !in serial
    ensures
      var els := [Element(AI_GTIN, gtin), Element(AI_SERIAL, serial)];
      AllWellFormed(els) && Print(els, false) == AI_GTIN + gtin + (AI_SERIAL + serial)
  {
    var a, b := Element(AI_GTIN, gtin), Element(AI_SERIAL, serial);
    assert WellFormed(a) && WellFormed(b);
    var els, last := [a, b], [b];
    assert els[1..] == last && last[1..] == [];
    assert PrintOne(a, true) == AI_GTIN + gtin && PrintOne(b, false) == AI_SERIAL + serial;
    assert Print(last, false) == AI_SERIAL + serial + [];
  }

  // ------------------------------------------------------------- the key

  function MarkedCodeKey(code: MarkedCode): Text {
    code.gtin + [COLON] + code.serial
  }

  /** Two packs the parse tells apart never share a key, because a GTIN always has fourteen characters. */
  lemma KeyInjective(raw1: Text, raw2: Text, a: MarkedCode, b: MarkedCode)
    requires Parse(raw1) == Ok(a) && Parse(raw2) == Ok(b)
    ensures MarkedCodeKey(a) == MarkedCodeKey(b) <==> a == b
    ensures MarkedCodeKey(a) == a.gtin + [':' as int] + a.serial
  {
    ParsesIff(raw1, a);
    ParsesIff(raw2, b);
    SameKey(a, b);
  }

  lemma SameKey(a: MarkedCode, b: MarkedCode)
    requires |a.gtin| == |b.gtin|
    ensures MarkedCodeKey(a) == MarkedCodeKey(b) <==> a == b
  {
    var x, y := MarkedCodeKey(a), MarkedCodeKey(b);
    assert x[..|a.gtin|] == a.gtin && y[..|b.gtin|] == b.gtin;
    assert x[|a.gtin| + 1..] == a.serial && y[|b.gtin| + 1..] == b.serial;
  }
}
