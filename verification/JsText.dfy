/** Text as JavaScript holds it: a sequence of UTF-16 code units. */
module JsText {

  type CodeUnit = u: int | 0 <= u < 0x10000

  type Text = seq<CodeUnit>

  /** What `\s` matches and `trim` removes. */
  predicate IsSpace(u: CodeUnit) {
    || 0x09 <= u <= 0x0D
    || u in {0x20, 0xA0, 0x1680, 0x2028, 0x2029, 0x202F, 0x205F, 0x3000, 0xFEFF}
    || 0x2000 <= u <= 0x200A
  }

  /** Tab, line feed, vertical tab, form feed, carriage return, the spaces of Unicode, the line and
      paragraph separators and the byte order mark. */
  lemma SpacesAre(u: CodeUnit)
    ensures IsSpace(u) <==>
      || u in {9, 10, 11, 12, 13, 32, 160, 5760, 8232, 8233, 8239, 8287, 12288, 65279}
      || u in {8192, 8193, 8194, 8195, 8196, 8197, 8198, 8199, 8200, 8201, 8202}
  {
  }

  const Space: CodeUnit -> bool := (u: CodeUnit) => IsSpace(u)

  function TrimStart<T>(text: seq<T>, blank: T -> bool): seq<T> {
    if text != [] && blank(text[0]) then TrimStart(text[1..], blank) else text
  }

  function TrimEnd<T>(text: seq<T>, blank: T -> bool): seq<T> {
    if text != [] && blank(text[|text| - 1]) then TrimEnd(text[..|text| - 1], blank) else text
  }

  /** `trim()`: what is blank at either end goes. */
  function Trim<T>(text: seq<T>, blank: T -> bool): seq<T> {
    TrimEnd(TrimStart(text, blank), blank)
  }

  /** `text.replace(/[...]/g, '')`: every unit of the class is removed. */
  function Strip(text: Text, dropped: CodeUnit -> bool): Text {
    if text == [] then []
    else (if dropped(text[0]) then [] else [text[0]]) + Strip(text[1..], dropped)
  }

  lemma {:induction false} StripConcat(a: Text, b: Text, dropped: CodeUnit -> bool)
    ensures Strip(a + b, dropped) == Strip(a, dropped) + Strip(b, dropped)
  {
    if a == [] {
      assert a + b == b;
    } else {
      assert (a + b)[1..] == a[1..] + b;
      StripConcat(a[1..], b, dropped);
    }
  }

  lemma {:induction false} StripNothing(text: Text, dropped: CodeUnit -> bool)
    requires forall u :: u in text ==> !dropped(u)
    ensures Strip(text, dropped) == text
  {
    if text != [] {
      StripNothing(text[1..], dropped);
    }
  }

  lemma {:induction false} StripAll(text: Text, dropped: CodeUnit -> bool)
    requires forall u :: u in text ==> dropped(u)
    ensures Strip(text, dropped) == []
  {
    if text != [] {
      StripAll(text[1..], dropped);
    }
  }
}
