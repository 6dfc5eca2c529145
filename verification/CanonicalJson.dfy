/** The canonical text a request is hashed over (apps/api/src/idempotency.ts): object keys
    sorted at every depth, so the text depends on what the request says and not on how it
    was built. Strings are sequences of UTF-16 code units, compared unit by unit. */
module CanonicalJson {
  import opened Lists
  import opened JsText

  /** A number is known by the text it prints as, which is the same for 0 and -0
      and different for any other two finite numbers. */
  datatype Json =
    | Undefined
    | Null
    | Bool(b: bool)
    | Number(token: Text)
    | Str(s: Text)
    | Arr(items: seq<Json>)
    | Obj(fields: seq<Field>)

  datatype Field = Field(key: Text, value: Json)

  const QUOTE: CodeUnit := 34
  const COMMA: CodeUnit := 44
  const COLON: CodeUnit := 58
  const OPEN_BRACKET: CodeUnit := 91
  const BACKSLASH: CodeUnit := 92
  const CLOSE_BRACKET: CodeUnit := 93
  const OPEN_BRACE: CodeUnit := 123
  const CLOSE_BRACE: CodeUnit := 125
  const LETTER_U: CodeUnit := 117

  /** `null`, `true`, `false` */
  const NULL: Text := [110, 117, 108, 108]
  const TRUE: Text := [116, 114, 117, 101]
  const FALSE: Text := [102, 97, 108, 115, 101]

  // ------------------------------------------------------------ string tokens

  predicate IsHigh(u: CodeUnit) { 0xD800 <= u < 0xDC00 }

  predicate IsLow(u: CodeUnit) { 0xDC00 <= u < 0xE000 }

  function HexDigit(n: int): CodeUnit
    requires 0 <= n < 16
  {
    if n < 10 then 48 + n else 87 + n
  }

  /** The letter after the backslash, for units with a short escape. */
  function ShortEscape(u: CodeUnit): Option<CodeUnit> {
    if u == QUOTE || u == BACKSLASH then Some(u)
    else if u == 8 then Some(98)
    else if u == 9 then Some(116)
    else if u == 10 then Some(110)
    else if u == 12 then Some(102)
    else if u == 13 then Some(114)
    else None
  }

  function EscapeUnit(u: CodeUnit): Text {
    if ShortEscape(u).Some? then [BACKSLASH, ShortEscape(u).value]
    else if u < 0x20 || IsHigh(u) || IsLow(u) then
      [BACKSLASH, LETTER_U, HexDigit(u / 4096), HexDigit(u / 256 % 16), HexDigit(u / 16 % 16), HexDigit(u % 16)]
    else [u]
  }

  /** `JSON.stringify` on a string: surrogate pairs stand, lone surrogates are escaped. */
  function Escape(s: Text): Text {
    if s == [] then []
    else if |s| > 1 && IsHigh(s[0]) && IsLow(s[1]) then [s[0], s[1]] + Escape(s[2..])
    else EscapeUnit(s[0]) + Escape(s[1..])
  }

  function Quoted(s: Text): Text {
    [QUOTE] + Escape(s) + [QUOTE]
  }

  // ------------------------------------------------------------ stableStringify

  predicate KeyLess(a: Text, b: Text) {
    b != [] && (a == [] || a[0] < b[0] || (a[0] == b[0] && KeyLess(a[1..], b[1..])))
  }

  /** Keys are compared unit by unit: the first that differs decides, and a prefix comes first. */
  lemma {:induction false} KeyLessIff(a: Text, b: Text)
    ensures KeyLess(a, b) <==>
      exists k: nat :: k <= |a| && k < |b| && a[..k] == b[..k] && (k < |a| ==> a[k] < b[k])
  {
    if a == [] {
      assert b != [] ==> a[..0] == b[..0];
    } else if b != [] {
      KeyLessIff(a[1..], b[1..]);
      if a[0] == b[0] && KeyLess(a, b) {
        var k: nat :| k <= |a[1..]| && k < |b[1..]| && a[1..][..k] == b[1..][..k]
          && (k < |a[1..]| ==> a[1..][k] < b[1..][k]);
        assert a[..k + 1] == [a[0]] + a[1..][..k] && b[..k + 1] == [b[0]] + b[1..][..k];
      } else if a[0] < b[0] {
        assert a[..0] == b[..0];
      }
      forall k: nat | 0 < k <= |a| && k < |b| && a[..k] == b[..k] && (k < |a| ==> a[k] < b[k])
        ensures KeyLess(a, b)
      {
        assert a[..k][0] == a[0] && b[..k][0] == b[0];
        assert a[1..][..k - 1] == a[..k][1..] && b[1..][..k - 1] == b[..k][1..];
      }
    }
  }

  const KeyLe: (Field, Field) -> bool := (f: Field, g: Field) => !KeyLess(g.key, f.key)

  const Defined: Field -> bool := (f: Field) => f.value != Undefined

  const KeyOf: Field -> Text := (f: Field) => f.key

  function Entries(fields: seq<Field>): seq<Field> {
    StableSort(Filter(fields, Defined), KeyLe)
  }

  function Stringify(v: Json): Text
    decreases v
  {
    match v
    case Undefined => NULL
    case Null => NULL
    case Bool(b) => if b then TRUE else FALSE
    case Number(token) => token
    case Str(s) => Quoted(s)
    case Arr(items) => [OPEN_BRACKET] + JoinItems(v, items) + [CLOSE_BRACKET]
    case Obj(fields) =>
      var entries := Entries(fields);
      assert forall i :: 0 <= i < |entries| ==> entries[i] in fields;
      [OPEN_BRACE] + JoinFields(v, entries) + [CLOSE_BRACE]
  }

  /** The items of an array are smaller than the array; so are the values of an object's fields. */
  ghost predicate Inside(items: seq<Json>, parent: Json) {
    forall i :: 0 <= i < |items| ==> items[i] < parent
  }

  ghost predicate FieldsInside(fields: seq<Field>, parent: Json) {
    forall i :: 0 <= i < |fields| ==> fields[i].value < parent
  }

  function JoinItems(ghost parent: Json, items: seq<Json>): Text
    requires Inside(items, parent)
    decreases parent, |items|
  {
    if items == [] then []
    else if |items| == 1 then Stringify(items[0])
    else Stringify(items[0]) + [COMMA] + JoinItems(parent, items[1..])
  }

  function JoinFields(ghost parent: Json, fields: seq<Field>): Text
    requires FieldsInside(fields, parent)
    decreases parent, |fields|
  {
    if fields == [] then []
    else if |fields| == 1 then Quoted(fields[0].key) + [COLON] + Stringify(fields[0].value)
    else Quoted(fields[0].key) + [COLON] + Stringify(fields[0].value) + [COMMA] + JoinFields(parent, fields[1..])
  }

  // ------------------------------------------------------------ request meaning

  predicate NumberUnit(u: CodeUnit) {
    48 <= u <= 57 || u in {43, 45, 46, 101}
  }

  predicate NumberToken(t: Text) {
    t != [] && (48 <= t[0] <= 57 || t[0] == 45) && forall i :: 0 <= i < |t| ==> NumberUnit(t[i])
  }

  /** The units a printed number is made of, an exponent included. */
  lemma NumberTokenIff(t: Text)
    ensures NumberToken(t) <==>
      && t != [] && t[0] in {45, 48, 49, 50, 51, 52, 53, 54, 55, 56, 57}
      && forall i :: 0 <= i < |t| ==> t[i] in {43, 45, 46, 48, 49, 50, 51, 52, 53, 54, 55, 56, 57, 101}
  {
  }

  /** What a JavaScript value guarantees: objects never carry one key twice. */
  ghost predicate WellFormed(v: Json)
    decreases v
  {
    match v
    case Number(token) => NumberToken(token)
    case Arr(items) => forall i :: 0 <= i < |items| ==> WellFormed(items[i])
    case Obj(fields) => Distinct(fields, KeyOf) && forall f :: f in fields ==> WellFormed(f.value)
    case _ => true
  }

  ghost function Keys(fields: seq<Field>): set<Text> {
    set f | f in fields :: f.key
  }

  ghost function DefinedKeys(fields: seq<Field>): set<Text> {
    set f | f in fields && f.value != Undefined :: f.key
  }

  /** Two values say the same: equal up to the order of object keys at every depth, an
      undefined field counting as absent and an undefined item as null. */
  ghost predicate Same(v: Json, w: Json)
    decreases v
  {
    match v
    case Undefined => w.Undefined? || w.Null?
    case Null => w.Undefined? || w.Null?
    case Arr(items) =>
      w.Arr? && |items| == |w.items| && forall i :: 0 <= i < |items| ==> Same(items[i], w.items[i])
    case Obj(fields) =>
      && w.Obj? && DefinedKeys(fields) == DefinedKeys(w.fields)
      && forall f, g :: f in fields && g in w.fields && !f.value.Undefined? && !g.value.Undefined? && f.key == g.key ==>
           Same(f.value, g.value)
    case _ => v == w
  }

  // ------------------------------------------------------------ string tokens decode

  function HexValue(u: CodeUnit): int {
    if u < 87 then u - 48 else u - 87
  }

  /** The unit a short escape stands for. */
  function ShortUnit(c: CodeUnit): CodeUnit {
    if c == 98 then 8
    else if c == 116 then 9
    else if c == 110 then 10
    else if c == 102 then 12
    else if c == 114 then 13
    else c
  }

  /** Reads a string token up to its closing quote: the string, and what follows. */
  function Unescape(text: Text): Option<(Text, Text)> {
    if text == [] then None
    else if text[0] == QUOTE then Some(([], text[1..]))
    else if text[0] != BACKSLASH then Push(text[0], Unescape(text[1..]))
    else if |text| < 2 then None
    else if text[1] != LETTER_U then Push(ShortUnit(text[1]), Unescape(text[2..]))
    else if |text| < 6 then None
    else
      var n := 4096 * HexValue(text[2]) + 256 * HexValue(text[3]) + 16 * HexValue(text[4]) + HexValue(text[5]);
      if 0 <= n < 0x10000 then Push(n, Unescape(text[6..])) else None
  }

  function Push(u: CodeUnit, rest: Option<(Text, Text)>): Option<(Text, Text)> {
    match rest
    case None => None
    case Some(r) => Some(([u] + r.0, r.1))
  }

  /** Which units stand as they are, and how the others are written: section 7 of RFC 8259, with every
      surrogate that is not part of a pair escaped. */
  lemma UnitsAreWritten(u: CodeUnit)
    ensures EscapeUnit(u) == [u] <==> u >= 32 && u != 34 && u != 92 && !(55296 <= u <= 57343)
    ensures u == 34 || u == 92 ==> EscapeUnit(u) == [92, u]
    ensures u == 8 ==> EscapeUnit(u) == [92, 98]
    ensures u == 9 ==> EscapeUnit(u) == [92, 116]
    ensures u == 10 ==> EscapeUnit(u) == [92, 110]
    ensures u == 12 ==> EscapeUnit(u) == [92, 102]
    ensures u == 13 ==> EscapeUnit(u) == [92, 114]
    ensures (u < 32 && u !in {8, 9, 10, 12, 13}) || 55296 <= u <= 57343 ==>
      EscapeUnit(u) ==
        [92, 117, HexDigit(u / 4096), HexDigit(u / 256 % 16), HexDigit(u / 16 % 16), HexDigit(u % 16)]
  {
    hide HexDigit;
  }

  lemma HexDigitIs(n: int)
    requires 0 <= n < 16
    ensures HexDigit(n) == "0123456789abcdef"[n] as int
  {
  }

  /** A pair stands as it is; a surrogate without its other half does not. */
  lemma PairsStand(high: CodeUnit, low: CodeUnit, s: Text)
    ensures 55296 <= high <= 56319 && 56320 <= low <= 57343 ==> Escape([high, low] + s) == [high, low] + Escape(s)
    ensures s == [] || !(55296 <= high <= 56319 && 56320 <= s[0] <= 57343) ==>
      Escape([high] + s) == EscapeUnit(high) + Escape(s)
  {
    assert ([high, low] + s)[2..] == s && ([high] + s)[1..] == s;
  }

  lemma HexDigits(u: CodeUnit)
    ensures 4096 * HexValue(HexDigit(u / 4096)) + 256 * HexValue(HexDigit(u / 256 % 16))
      + 16 * HexValue(HexDigit(u / 16 % 16)) + HexValue(HexDigit(u % 16)) == u
  {
    assert forall n :: 0 <= n < 16 ==> HexValue(HexDigit(n)) == n;
    assert u / 256 == u / 16 / 16 && u / 4096 == u / 256 / 16;
  }

  lemma UnescapeRaw(u: CodeUnit, rest: Text)
    requires u != QUOTE && u != BACKSLASH
    ensures Unescape([u] + rest) == Push(u, Unescape(rest))
  {
    assert ([u] + rest)[1..] == rest;
  }

  lemma UnescapeUnit(u: CodeUnit, rest: Text)
    ensures Unescape(EscapeUnit(u) + rest) == Push(u, Unescape(rest))
  {
    var text := EscapeUnit(u) + rest;
    if ShortEscape(u).Some? {
      assert text[2..] == rest;
    } else if u < 0x20 || IsHigh(u) || IsLow(u) {
      HexDigits(u);
      assert text[6..] == rest;
    } else {
      assert text[1..] == rest;
    }
  }

  /** An escaped string with its closing quote and what follows. */
  function Token(s: Text, rest: Text): Text {
    if s == [] then [QUOTE] + rest
    else if |s| > 1 && IsHigh(s[0]) && IsLow(s[1]) then [s[0]] + ([s[1]] + Token(s[2..], rest))
    else EscapeUnit(s[0]) + Token(s[1..], rest)
  }

  lemma Joined(a: Text, b: Text, rest: Text)
    ensures a + (b + [QUOTE] + rest) == a + b + [QUOTE] + rest
  {
  }

  lemma {:induction false} TokenIsEscape(s: Text, rest: Text)
    ensures Token(s, rest) == Escape(s) + [QUOTE] + rest
  {
    hide EscapeUnit;
    if s == [] {
    } else if |s| > 1 && IsHigh(s[0]) && IsLow(s[1]) {
      TokenIsEscape(s[2..], rest);
      Joined([s[0], s[1]], Escape(s[2..]), rest);
      assert [s[0], s[1]] + Token(s[2..], rest) == [s[0]] + ([s[1]] + Token(s[2..], rest));
    } else {
      TokenIsEscape(s[1..], rest);
      Joined(EscapeUnit(s[0]), Escape(s[1..]), rest);
    }
  }

  /** A string token can be read back, whatever follows it. */
  lemma {:induction false} UnescapeToken(s: Text, rest: Text)
    ensures Unescape(Token(s, rest)) == Some((s, rest))
  {
    if s == [] {
      assert ([QUOTE] + rest)[1..] == rest;
    } else if |s| > 1 && IsHigh(s[0]) && IsLow(s[1]) {
      UnescapeToken(s[2..], rest);
      UnescapeRaw(s[1], Token(s[2..], rest));
      UnescapeRaw(s[0], [s[1]] + Token(s[2..], rest));
      assert s == [s[0]] + ([s[1]] + s[2..]);
    } else {
      UnescapeToken(s[1..], rest);
      UnescapeUnit(s[0], Token(s[1..], rest));
      assert s == [s[0]] + s[1..];
    }
  }

  lemma QuotedIsToken(s: Text, rest: Text)
    ensures Quoted(s) + rest == [QUOTE] + Token(s, rest)
  {
    TokenIsEscape(s, rest);
  }

  lemma QuotedInjective(s: Text, t: Text, r: Text, q: Text)
    requires Quoted(s) + r == Quoted(t) + q
    ensures s == t && r == q
  {
    QuotedIsToken(s, r);
    QuotedIsToken(t, q);
    Cut([QUOTE], Token(s, r), [QUOTE], Token(t, q), 1);
    assert [QUOTE][1..] + Token(s, r) == Token(s, r) && [QUOTE][1..] + Token(t, q) == Token(t, q);
    UnescapeToken(s, r);
    UnescapeToken(t, q);
  }

  // ------------------------------------------------------- the text decodes uniquely

  /** What can follow a value inside the text: nothing, or a separator. */
  predicate Ends(rest: Text) {
    rest == [] || rest[0] in {COMMA, CLOSE_BRACKET, CLOSE_BRACE}
  }

  lemma NumberInjective(a: Text, b: Text, r: Text, q: Text)
    requires NumberToken(a) && NumberToken(b) && Ends(r) && Ends(q) && a + r == b + q
    ensures a == b && r == q
  {
    var text := a + r;
    assert forall i :: 0 <= i < |a| ==> text[i] == a[i];
    assert forall i :: 0 <= i < |b| ==> text[i] == b[i];
    assert r != [] ==> text[|a|] == r[0];
    assert q != [] ==> text[|b|] == q[0];
    assert text[..|a|] == a && text[..|b|] == b;
    assert text[|a|..] == r && text[|b|..] == q;
  }

  /** The first unit of a value's text says what kind of value it is. */
  lemma FirstUnit(v: Json)
    requires WellFormed(v)
    ensures Stringify(v) != []
    ensures
      var u := Stringify(v)[0];
      match v
      case Undefined => u == 110
      case Null => u == 110
      case Bool(b) => u == (if b then 116 else 102)
      case Number(_) => NumberUnit(u)
      case Str(_) => u == QUOTE
      case Arr(_) => u == OPEN_BRACKET
      case Obj(_) => u == OPEN_BRACE
  {
  }

  lemma Cut(a: Text, r: Text, b: Text, q: Text, k: nat)
    requires k <= |a| && k <= |b| && a + r == b + q
    ensures a[k..] + r == b[k..] + q
  {
    assert (a + r)[k..] == a[k..] + r && (b + q)[k..] == b[k..] + q;
  }

  /** Same first unit, same kind of value. */
  predicate SameKind(v: Json, w: Json) {
    match v
    case Undefined => w.Undefined? || w.Null?
    case Null => w.Undefined? || w.Null?
    case Bool(b) => w.Bool? && w.b == b
    case Number(_) => w.Number?
    case Str(_) => w.Str?
    case Arr(_) => w.Arr?
    case Obj(_) => w.Obj?
  }

  lemma AgreeingKinds(v: Json, w: Json, r: Text, q: Text)
    requires WellFormed(v) && WellFormed(w) && Stringify(v) + r == Stringify(w) + q
    ensures SameKind(v, w)
  {
    FirstUnit(v);
    FirstUnit(w);
    assert (Stringify(v) + r)[0] == Stringify(v)[0] && (Stringify(w) + q)[0] == Stringify(w)[0];
  }

  /** Texts that agree, followed by separators, come from values that say the same. */
  lemma {:induction false} Injective(v: Json, w: Json, r: Text, q: Text)
    requires WellFormed(v) && WellFormed(w) && Ends(r) && Ends(q)
    requires Stringify(v) + r == Stringify(w) + q
    ensures Same(v, w) && r == q
    decreases v
  {
    AgreeingKinds(v, w, r, q);
    match v
    case Number(a) => NumberInjective(a, w.token, r, q);
    case Str(s) => QuotedInjective(s, w.s, r, q);
    case Arr(items) =>
      Bracketed(v, w, JoinItems(v, items), JoinItems(w, w.items), r, q, OPEN_BRACKET, CLOSE_BRACKET);
      ItemsInjective(v, w, items, w.items, r, q);
    case Obj(fields) =>
      EntriesFacts(v);
      EntriesFacts(w);
      Bracketed(v, w, JoinFields(v, Entries(fields)), JoinFields(w, Entries(w.fields)), r, q, OPEN_BRACE, CLOSE_BRACE);
      FieldsInjective(v, w, Entries(fields), Entries(w.fields), r, q);
      SameByEntries(v, w);
    case _ =>
      var token := Stringify(v);
      Cut(token, r, token, q, |token|);
      assert token[|token|..] + r == r && token[|token|..] + q == q;
  }

  lemma Bracketed(v: Json, w: Json, x: Text, y: Text, r: Text, q: Text, open: CodeUnit, close: CodeUnit)
    requires Stringify(v) == [open] + x + [close] && Stringify(w) == [open] + y + [close]
    requires Stringify(v) + r == Stringify(w) + q
    ensures x + ([close] + r) == y + ([close] + q)
  {
    hide Stringify;
    Cut(Stringify(v), r, Stringify(w), q, 1);
    Unbracketed([open], x, [close], r);
    Unbracketed([open], y, [close], q);
  }

  lemma Unbracketed(open: Text, x: Text, close: Text, r: Text)
    requires |open| == 1
    ensures (open + x + close)[1..] + r == x + (close + r)
  {
    assert (open + x + close)[1..] == x + close;
  }

  lemma SameCons(xs: seq<Json>, ys: seq<Json>)
    requires xs != [] && |xs| == |ys| && Same(xs[0], ys[0])
    requires forall i :: 0 <= i < |xs[1..]| ==> Same(xs[1..][i], ys[1..][i])
    ensures forall i :: 0 <= i < |xs| ==> Same(xs[i], ys[i])
  {
    hide Same;
    forall i | 0 <= i < |xs|
      ensures Same(xs[i], ys[i])
    {
      if i > 0 {
        assert xs[i] == xs[1..][i - 1] && ys[i] == ys[1..][i - 1];
      }
    }
  }

  lemma {:induction false} ItemsInjective(v: Json, w: Json, xs: seq<Json>, ys: seq<Json>, r: Text, q: Text)
    requires Inside(xs, v) && Inside(ys, w)
    requires forall i :: 0 <= i < |xs| ==> WellFormed(xs[i])
    requires forall i :: 0 <= i < |ys| ==> WellFormed(ys[i])
    requires JoinItems(v, xs) + ([CLOSE_BRACKET] + r) == JoinItems(w, ys) + ([CLOSE_BRACKET] + q)
    ensures |xs| == |ys| && (forall i :: 0 <= i < |xs| ==> Same(xs[i], ys[i])) && r == q
    decreases v, |xs|
  {
    hide JoinItems, Stringify, Same;
    if xs == [] || ys == [] {
      EmptyItems(v, w, xs, ys, r, q);
    } else {
      var a := ItemsTail(v, xs, [CLOSE_BRACKET] + r);
      var b := ItemsTail(w, ys, [CLOSE_BRACKET] + q);
      Injective(xs[0], ys[0], a, b);
      assert a[0] == b[0];
      if |xs| == 1 {
        assert a[1..] == r && b[1..] == q;
      } else {
        assert a[1..] == JoinItems(v, xs[1..]) + ([CLOSE_BRACKET] + r);
        assert b[1..] == JoinItems(w, ys[1..]) + ([CLOSE_BRACKET] + q);
        ItemsInjective(v, w, xs[1..], ys[1..], r, q);
        SameCons(xs, ys);
      }
    }
  }

  lemma EmptyItems(v: Json, w: Json, xs: seq<Json>, ys: seq<Json>, r: Text, q: Text)
    requires Inside(xs, v) && Inside(ys, w) && (xs == [] || ys == [])
    requires forall i :: 0 <= i < |xs| ==> WellFormed(xs[i])
    requires forall i :: 0 <= i < |ys| ==> WellFormed(ys[i])
    requires JoinItems(v, xs) + ([CLOSE_BRACKET] + r) == JoinItems(w, ys) + ([CLOSE_BRACKET] + q)
    ensures xs == [] && ys == [] && r == q
  {
    ItemsStart(v, xs, [CLOSE_BRACKET] + r);
    ItemsStart(w, ys, [CLOSE_BRACKET] + q);
    assert ([CLOSE_BRACKET] + r)[1..] == r && ([CLOSE_BRACKET] + q)[1..] == q;
    assert [] + ([CLOSE_BRACKET] + r) == [CLOSE_BRACKET] + r;
    assert [] + ([CLOSE_BRACKET] + q) == [CLOSE_BRACKET] + q;
  }

  /** Only an empty list is closed at once. */
  lemma ItemsStart(v: Json, xs: seq<Json>, after: Text)
    requires Inside(xs, v) && (forall i :: 0 <= i < |xs| ==> WellFormed(xs[i]))
    requires after != [] && after[0] == CLOSE_BRACKET
    ensures JoinItems(v, xs) + after != []
    ensures (JoinItems(v, xs) + after)[0] == CLOSE_BRACKET <==> xs == []
  {
    if xs != [] {
      FirstUnit(xs[0]);
      assert JoinItems(v, xs)[0] == Stringify(xs[0])[0];
    }
  }

  /** What follows the first item of a nonempty list. */
  lemma ItemsTail(v: Json, xs: seq<Json>, after: Text) returns (tail: Text)
    requires xs != [] && Inside(xs, v) && Ends(after)
    ensures JoinItems(v, xs) + after == Stringify(xs[0]) + tail
    ensures tail == if |xs| == 1 then after else [COMMA] + (JoinItems(v, xs[1..]) + after)
    ensures Ends(tail)
  {
    tail := if |xs| == 1 then after else [COMMA] + (JoinItems(v, xs[1..]) + after);
    if |xs| > 1 {
      assert JoinItems(v, xs) + after == Stringify(xs[0]) + [COMMA] + JoinItems(v, xs[1..]) + after;
    }
  }

  /** The entries are the defined fields, smaller than the object, in strictly rising key order. */
  lemma EntriesFacts(v: Json)
    requires v.Obj? && WellFormed(v)
    ensures forall f :: f in Entries(v.fields) <==> f in v.fields && Defined(f)
    ensures FieldsInside(Entries(v.fields), v)
    ensures forall i :: 0 <= i < |Entries(v.fields)| ==> WellFormed(Entries(v.fields)[i].value)
    ensures Rising(Entries(v.fields))
  {
    var es := Entries(v.fields);
    assert forall i :: 0 <= i < |es| ==> es[i] in v.fields;
    KeyLeIsAnOrder();
    StableSortSorts(Filter(v.fields, Defined), KeyLe);
    DistinctFilter(v.fields, KeyOf, Defined);
    DistinctSort(Filter(v.fields, Defined), KeyLe, KeyOf);
    forall i, j | 0 <= i < j < |es|
      ensures KeyLess(es[i].key, es[j].key)
    {
      DistinctAt(es, i, j);
      KeyLessTotal(es[i].key, es[j].key);
    }
  }

  ghost predicate Rising(fields: seq<Field>) {
    forall i, j :: 0 <= i < j < |fields| ==> KeyLess(fields[i].key, fields[j].key)
  }

  lemma {:induction false} DistinctAt(fields: seq<Field>, i: nat, j: nat)
    requires Distinct(fields, KeyOf) && i < j < |fields|
    ensures fields[i].key != fields[j].key
  {
    if i == 0 {
      assert fields[j] == fields[1..][j - 1];
      assert KeyOf(fields[1..][j - 1]) != KeyOf(fields[0]);
    } else {
      DistinctAt(fields[1..], i - 1, j - 1);
    }
  }

  lemma {:induction false} KeyLessTotal(a: Text, b: Text)
    ensures KeyLess(a, b) || KeyLess(b, a) || a == b
    ensures !(KeyLess(a, b) && KeyLess(b, a)) && !KeyLess(a, a)
  {
    if a != [] && b != [] {
      KeyLessTotal(a[1..], b[1..]);
      assert a == [a[0]] + a[1..] && b == [b[0]] + b[1..];
    } else if a != [] {
      KeyLessTotal(a[1..], []);
    }
  }

  lemma {:induction false} KeyLessTransitive(a: Text, b: Text, c: Text)
    requires KeyLess(a, b) && KeyLess(b, c)
    ensures KeyLess(a, c)
  {
    if a != [] && a[0] == b[0] && b[0] == c[0] {
      KeyLessTransitive(a[1..], b[1..], c[1..]);
    }
  }

  lemma KeyLeIsAnOrder()
    ensures TotalPreorder(KeyLe)
  {
    forall x: Field, y: Field
      ensures KeyLe(x, y) || KeyLe(y, x)
    {
      KeyLessTotal(x.key, y.key);
    }
    forall x: Field, y: Field, z: Field | KeyLe(x, y) && KeyLe(y, z)
      ensures KeyLe(x, z)
    {
      KeyLessTotal(x.key, y.key);
      KeyLessTotal(y.key, z.key);
      KeyLessTotal(x.key, z.key);
      if KeyLess(x.key, y.key) && KeyLess(y.key, z.key) {
        KeyLessTransitive(x.key, y.key, z.key);
      }
    }
  }

  /** What follows the first value of a nonempty list of fields. */
  lemma FieldsTail(v: Json, fs: seq<Field>, after: Text) returns (tail: Text)
    requires fs != [] && FieldsInside(fs, v) && Ends(after)
    ensures JoinFields(v, fs) + after == Quoted(fs[0].key) + ([COLON] + (Stringify(fs[0].value) + tail))
    ensures tail == if |fs| == 1 then after else [COMMA] + (JoinFields(v, fs[1..]) + after)
    ensures Ends(tail)
  {
    hide Stringify, Quoted;
    tail := if |fs| == 1 then after else [COMMA] + (JoinFields(v, fs[1..]) + after);
    var key, value := Quoted(fs[0].key), Stringify(fs[0].value);
    if |fs| == 1 {
      Regroup(key, [COLON], value, after);
    } else {
      var rest := JoinFields(v, fs[1..]);
      Regroup(key + [COLON] + value, [COMMA], rest, after);
      Regroup(key, [COLON], value, [COMMA] + (rest + after));
    }
  }

  lemma Regroup(a: Text, b: Text, c: Text, d: Text)
    ensures a + b + c + d == a + (b + (c + d))
  {
  }

  /** Entry by entry, the same keys with values that say the same. */
  ghost predicate PairwiseSame(fs: seq<Field>, gs: seq<Field>) {
    |fs| == |gs| && forall i :: 0 <= i < |fs| ==> fs[i].key == gs[i].key && Same(fs[i].value, gs[i].value)
  }

  lemma PairwiseCons(fs: seq<Field>, gs: seq<Field>)
    requires fs != [] && gs != [] && PairwiseSame([fs[0]], [gs[0]]) && PairwiseSame(fs[1..], gs[1..])
    ensures PairwiseSame(fs, gs)
  {
    hide Same;
    forall i | 0 <= i < |fs|
      ensures fs[i].key == gs[i].key && Same(fs[i].value, gs[i].value)
    {
      if i == 0 {
        assert [fs[0]][0] == fs[0] && [gs[0]][0] == gs[0];
      } else {
        assert fs[i] == fs[1..][i - 1] && gs[i] == gs[1..][i - 1];
      }
    }
  }

  lemma {:induction false} FieldsInjective(v: Json, w: Json, fs: seq<Field>, gs: seq<Field>, r: Text, q: Text)
    requires FieldsInside(fs, v) && FieldsInside(gs, w)
    requires forall i :: 0 <= i < |fs| ==> WellFormed(fs[i].value)
    requires forall i :: 0 <= i < |gs| ==> WellFormed(gs[i].value)
    requires JoinFields(v, fs) + ([CLOSE_BRACE] + r) == JoinFields(w, gs) + ([CLOSE_BRACE] + q)
    ensures PairwiseSame(fs, gs) && r == q
    decreases v, |fs|, 1
  {
    hide JoinFields, Stringify, Quoted, Same;
    if fs == [] || gs == [] {
      EmptyFields(v, w, fs, gs, r, q);
    } else {
      var a := FieldsTail(v, fs, [CLOSE_BRACE] + r);
      var b := FieldsTail(w, gs, [CLOSE_BRACE] + q);
      FirstFieldInjective(v, w, fs, gs, a, b);
      assert a[0] == b[0];
      if |fs| == 1 {
        assert a[1..] == r && b[1..] == q;
      } else {
        assert a[1..] == JoinFields(v, fs[1..]) + ([CLOSE_BRACE] + r);
        assert b[1..] == JoinFields(w, gs[1..]) + ([CLOSE_BRACE] + q);
        FieldsInjective(v, w, fs[1..], gs[1..], r, q);
        PairwiseCons(fs, gs);
      }
    }
  }

  lemma {:induction false} FirstFieldInjective(v: Json, w: Json, fs: seq<Field>, gs: seq<Field>, a: Text, b: Text)
    requires fs != [] && gs != [] && FieldsInside(fs, v) && WellFormed(fs[0].value) && WellFormed(gs[0].value)
    requires Quoted(fs[0].key) + ([COLON] + (Stringify(fs[0].value) + a))
      == Quoted(gs[0].key) + ([COLON] + (Stringify(gs[0].value) + b))
    requires Ends(a) && Ends(b)
    ensures fs[0].key == gs[0].key && Same(fs[0].value, gs[0].value) && a == b
    decreases v, |fs|, 0
  {
    var x, y := Stringify(fs[0].value) + a, Stringify(gs[0].value) + b;
    QuotedInjective(fs[0].key, gs[0].key, [COLON] + x, [COLON] + y);
    assert ([COLON] + x)[1..] == x && ([COLON] + y)[1..] == y;
    Injective(fs[0].value, gs[0].value, a, b);
  }

  lemma EmptyFields(v: Json, w: Json, fs: seq<Field>, gs: seq<Field>, r: Text, q: Text)
    requires FieldsInside(fs, v) && FieldsInside(gs, w) && (fs == [] || gs == [])
    requires JoinFields(v, fs) + ([CLOSE_BRACE] + r) == JoinFields(w, gs) + ([CLOSE_BRACE] + q)
    ensures fs == [] && gs == [] && r == q
  {
    FieldsStart(v, fs, [CLOSE_BRACE] + r);
    FieldsStart(w, gs, [CLOSE_BRACE] + q);
    assert [] + ([CLOSE_BRACE] + r) == [CLOSE_BRACE] + r && [] + ([CLOSE_BRACE] + q) == [CLOSE_BRACE] + q;
    assert ([CLOSE_BRACE] + r)[1..] == r && ([CLOSE_BRACE] + q)[1..] == q;
  }

  lemma FieldsStart(v: Json, fs: seq<Field>, after: Text)
    requires FieldsInside(fs, v) && after != [] && after[0] == CLOSE_BRACE
    ensures JoinFields(v, fs) + after != []
    ensures (JoinFields(v, fs) + after)[0] == CLOSE_BRACE <==> fs == []
  {
    if fs != [] {
      assert JoinFields(v, fs)[0] == QUOTE;
    }
  }

  /** Objects whose sorted entries agree say the same. */
  lemma SameByEntries(v: Json, w: Json)
    requires v.Obj? && w.Obj? && WellFormed(v) && WellFormed(w)
    requires PairwiseSame(Entries(v.fields), Entries(w.fields))
    ensures Same(v, w)
  {
    var es, gs := Entries(v.fields), Entries(w.fields);
    EntriesFacts(v);
    EntriesFacts(w);
    EntryKeys(v);
    EntryKeys(w);
    assert Keys(es) == Keys(gs) by {
      PairwiseKeys(es, gs);
    }
    forall f, g | f in v.fields && g in w.fields && Defined(f) && Defined(g) && f.key == g.key
      ensures Same(f.value, g.value)
    {
      var i :| 0 <= i < |es| && es[i] == f;
      assert gs[i] in gs;
      SameKeySameElement(w.fields, KeyOf, g, gs[i]);
    }
  }

  lemma PairwiseKeys(es: seq<Field>, gs: seq<Field>)
    requires |es| == |gs| && forall i :: 0 <= i < |es| ==> es[i].key == gs[i].key
    ensures Keys(es) == Keys(gs)
  {
    forall k | k in Keys(es)
      ensures k in Keys(gs)
    {
      var i :| 0 <= i < |es| && es[i].key == k;
      assert gs[i] in gs;
    }
    forall k | k in Keys(gs)
      ensures k in Keys(es)
    {
      var i :| 0 <= i < |gs| && gs[i].key == k;
      assert es[i] in es;
    }
  }

  lemma EntryKeys(v: Json)
    requires v.Obj?
    ensures Keys(Entries(v.fields)) == DefinedKeys(v.fields)
  {
  }

  // ------------------------------------------------- equal meaning, equal text

  /** Rising lists with the same keys have the same key at every place. */
  lemma {:induction false} SameKeysInOrder(fs: seq<Field>, gs: seq<Field>)
    requires Rising(fs) && Rising(gs) && Keys(fs) == Keys(gs)
    ensures |fs| == |gs| && forall i :: 0 <= i < |fs| ==> fs[i].key == gs[i].key
  {
    if fs == [] || gs == [] {
      assert fs != [] ==> fs[0].key in Keys(fs);
      assert gs != [] ==> gs[0].key in Keys(gs);
    } else {
      LeastKey(fs, gs[0].key);
      LeastKey(gs, fs[0].key);
      KeyLessTotal(fs[0].key, gs[0].key);
      TailKeys(fs);
      TailKeys(gs);
      SameKeysInOrder(fs[1..], gs[1..]);
      assert forall i :: 1 <= i < |fs| ==> fs[i] == fs[1..][i - 1] && gs[i] == gs[1..][i - 1];
    }
  }

  lemma LeastKey(fs: seq<Field>, key: Text)
    requires fs != [] && Rising(fs)
    ensures fs[0].key in Keys(fs)
    ensures key in Keys(fs) ==> key == fs[0].key || KeyLess(fs[0].key, key)
  {
    if key in Keys(fs) {
      var f :| f in fs && f.key == key;
      var i :| 0 <= i < |fs| && fs[i] == f;
    }
  }

  lemma TailKeys(fs: seq<Field>)
    requires fs != [] && Rising(fs)
    ensures Rising(fs[1..]) && Keys(fs[1..]) == Keys(fs) - {fs[0].key}
  {
    forall f | f in fs[1..]
      ensures f.key != fs[0].key
    {
      var i :| 0 <= i < |fs[1..]| && fs[1..][i] == f;
      assert KeyLess(fs[0].key, fs[i + 1].key);
      KeyLessTotal(fs[0].key, fs[0].key);
    }
    assert fs == [fs[0]] + fs[1..];
  }

  /** Values that say the same print the same. */
  lemma {:induction false} SamePrints(v: Json, w: Json)
    requires WellFormed(v) && WellFormed(w) && Same(v, w)
    ensures Stringify(v) == Stringify(w)
    decreases v
  {
    match v
    case Arr(items) => SameItemsPrint(v, w, items, w.items);
    case Obj(fields) =>
      var es, gs := Entries(fields), Entries(w.fields);
      EntriesFacts(v);
      EntriesFacts(w);
      EntriesAgree(v, w);
      SameFieldsPrint(v, w, es, gs);
    case _ =>
  }

  lemma {:induction false} SameItemsPrint(v: Json, w: Json, xs: seq<Json>, ys: seq<Json>)
    requires Inside(xs, v) && Inside(ys, w) && |xs| == |ys|
    requires forall i :: 0 <= i < |xs| ==> WellFormed(xs[i]) && WellFormed(ys[i]) && Same(xs[i], ys[i])
    ensures JoinItems(v, xs) == JoinItems(w, ys)
    decreases v, |xs|
  {
    if xs != [] {
      SamePrints(xs[0], ys[0]);
      if |xs| > 1 {
        assert forall i :: 0 <= i < |xs[1..]| ==> xs[1..][i] == xs[i + 1] && ys[1..][i] == ys[i + 1];
        SameItemsPrint(v, w, xs[1..], ys[1..]);
      }
    }
  }

  lemma {:induction false} SameFieldsPrint(v: Json, w: Json, fs: seq<Field>, gs: seq<Field>)
    requires FieldsInside(fs, v) && FieldsInside(gs, w) && PairwiseSame(fs, gs)
    requires forall i :: 0 <= i < |fs| ==> WellFormed(fs[i].value) && WellFormed(gs[i].value)
    ensures JoinFields(v, fs) == JoinFields(w, gs)
    decreases v, |fs|
  {
    if fs != [] {
      SamePrints(fs[0].value, gs[0].value);
      if |fs| > 1 {
        assert forall i :: 0 <= i < |fs[1..]| ==> fs[1..][i] == fs[i + 1] && gs[1..][i] == gs[i + 1];
        SameFieldsPrint(v, w, fs[1..], gs[1..]);
      }
    }
  }

  /** Objects that say the same have pairwise agreeing sorted entries. */
  lemma EntriesAgree(v: Json, w: Json)
    requires v.Obj? && w.Obj? && WellFormed(v) && WellFormed(w) && Same(v, w)
    ensures PairwiseSame(Entries(v.fields), Entries(w.fields))
  {
    var es, gs := Entries(v.fields), Entries(w.fields);
    EntriesFacts(v);
    EntriesFacts(w);
    EntryKeys(v);
    EntryKeys(w);
    SameKeysInOrder(es, gs);
    forall i | 0 <= i < |es|
      ensures Same(es[i].value, gs[i].value)
    {
      assert es[i] in es && gs[i] in gs;
    }
  }

  /** The canonical text is the request's meaning: two values print the same exactly when
      they are equal up to the order of object keys at every depth. */
  lemma CanonicalText(v: Json, w: Json)
    requires WellFormed(v) && WellFormed(w)
    ensures Stringify(v) == Stringify(w) <==> Same(v, w)
  {
    if Stringify(v) == Stringify(w) {
      assert Stringify(v) + [] == Stringify(w) + [];
      Injective(v, w, [], []);
    }
    if Same(v, w) {
      SamePrints(v, w);
    }
  }

  // ---------------------------------------------------------------- the notation

  /** Words and punctuation, in ASCII: nothing and what is not there are `null`, a list stands in square
      brackets, an object in braces with a colon after each key, and a comma between two. */
  lemma NotationIs(v: Json, w: Json, k: Text)
    ensures Stringify(Null) == Stringify(Undefined) == [110, 117, 108, 108]
    ensures Stringify(Bool(true)) == [116, 114, 117, 101]
    ensures Stringify(Bool(false)) == [102, 97, 108, 115, 101]
    ensures Stringify(Str(k)) == [34] + Escape(k) + [34]
    ensures Stringify(Arr([])) == [91, 93]
    ensures Stringify(Arr([v, w])) == [91] + Stringify(v) + [44] + Stringify(w) + [93]
    ensures Stringify(Obj([])) == [123, 125]
    ensures Stringify(Obj([Field(k, v)])) ==
      if v == Undefined then Stringify(Obj([]))
      else [123] + Stringify(Str(k)) + [58] + Stringify(v) + [125]
  {
    hide Escape;
    ListOfTwo(v, w);
    ObjectOfOne(k, v);
  }

  lemma ListOfTwo(v: Json, w: Json)
    ensures Stringify(Arr([v, w])) == [91] + Stringify(v) + [44] + Stringify(w) + [93]
  {
    var list := Arr([v, w]);
    assert [v, w][1..] == [w];
    TwoJoined(list, v, w);
  }

  lemma TwoJoined(list: Json, v: Json, w: Json)
    requires Inside([v, w], list)
    ensures JoinItems(list, [v, w]) == Stringify(v) + [COMMA] + Stringify(w)
  {
    hide Stringify;
    assert [v, w][1..] == [w] && [w][1..] == [];
    assert w == [v, w][1];
    assert JoinItems(list, [w]) == Stringify(w);
  }

  lemma ObjectOfOne(k: Text, v: Json)
    ensures Stringify(Obj([Field(k, v)])) ==
      if v == Undefined then [123, 125]
      else [123] + ([34] + Escape(k) + [34]) + [58] + Stringify(v) + [125]
  {
    hide Escape, Entries;
    var f := Field(k, v);
    OneEntry(f);
    var o := Obj([f]);
    assert FieldsInside([f], o);
    OneJoined(o, f);
    assert Stringify(o) == [OPEN_BRACE] + JoinFields(o, Entries([f])) + [CLOSE_BRACE];
  }

  lemma OneEntry(f: Field)
    ensures Entries([f]) == if f.value == Undefined then [] else [f]
  {
    var one := [f];
    assert one[1..] == [];
    assert Filter(one, Defined) == if Defined(f) then one else [];
    assert StableSort(one, KeyLe) == one by {
      assert StableSort(one[1..], KeyLe) == [];
      assert StableSort(one, KeyLe) == Insert(f, [], KeyLe);
    }
  }

  lemma OneJoined(o: Json, f: Field)
    requires FieldsInside([f], o)
    ensures JoinFields(o, [f]) == Quoted(f.key) + [COLON] + Stringify(f.value) && JoinFields(o, []) == []
  {
    hide Stringify, Quoted;
  }
}
