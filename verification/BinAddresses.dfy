/** The address of a shelf and the code written on it (apps/api/src/bins.ts). */
module BinAddresses {
  import opened JsText
  import Reconciliation

  datatype BinAddress = BinAddress(zone: string, rack: string, shelf: string, bin: string)

  datatype Resolution = Resolved(address: BinAddress, code: string) | Missing | Invalid

  const Blank: char -> bool := (c: char) => (c as int) < 0x10000 && IsSpace(c as int)

  function Trimmed(s: string): string {
    Trim(s, Blank)
  }

  /** Latin and Cyrillic letters and digits. */
  predicate PartChar(c: char) {
    || 'A' <= c <= 'Z' || 'a' <= c <= 'z' || '0' <= c <= '9'
    || 0x410 <= c as int <= 0x44F
  }

  predicate IsPart(s: string) {
    1 <= |s| <= 8 && forall c :: c in s ==> PartChar(c)
  }

  /** `toUpperCase` on the characters a part may hold. */
  function Upper(c: char): char {
    if 'a' <= c <= 'z' || 0x430 <= c as int <= 0x44F then ((c as int) - 32) as char else c
  }

  function UpperText(s: string): string {
    if s == [] then [] else [Upper(s[0])] + UpperText(s[1..])
  }

  function NonEmpty(parts: seq<string>): seq<string> {
    if parts == [] then [] else (if parts[0] == "" then [] else [parts[0]]) + NonEmpty(parts[1..])
  }

  function Join(parts: seq<string>): string {
    if parts == [] then "" else if |parts| == 1 then parts[0] else parts[0] + "-" + Join(parts[1..])
  }

  function Levels(a: BinAddress): seq<string> {
    NonEmpty([Trimmed(a.zone), Trimmed(a.rack), Trimmed(a.shelf), Trimmed(a.bin)])
  }

  function FormatBinCode(a: BinAddress): string {
    UpperText(Join(Levels(a)))
  }

  function ResolveBinAddress(input: BinAddress): Resolution {
    var a := BinAddress(Trimmed(input.zone), Trimmed(input.rack), Trimmed(input.shelf), Trimmed(input.bin));
    if a.zone == "" then Missing
    else if exists part :: part in [a.zone, a.rack, a.shelf, a.bin] && part != "" && !IsPart(part) then Invalid
    else if a.bin != "" && a.shelf == "" then Invalid
    else if a.shelf != "" && a.rack == "" then Invalid
    else Resolved(a, FormatBinCode(a))
  }

  // --------------------------------------------------------------- the alphabet

  lemma {:induction false} UpperChars(s: string)
    requires forall c :: c in s ==> PartChar(c) || c == '-'
    ensures |UpperText(s)| == |s|
    ensures forall c :: c in UpperText(s) ==> PartChar(c) || c == '-'
    ensures '-' !in s ==> '-' !in UpperText(s)
  {
    if s != [] {
      UpperChars(s[1..]);
    }
  }

  lemma {:induction false} JoinChars(parts: seq<string>)
    requires forall p :: p in parts ==> IsPart(p)
    ensures forall c :: c in Join(parts) ==> PartChar(c) || c == '-'
  {
    if parts != [] {
      assert parts[0] in parts;
      JoinChars(parts[1..]);
    }
  }

  lemma {:induction false} UpperConcat(a: string, b: string)
    ensures UpperText(a + b) == UpperText(a) + UpperText(b)
  {
    if a == [] {
      assert a + b == b;
    } else {
      assert (a + b)[1..] == a[1..] + b;
      UpperConcat(a[1..], b);
    }
  }

  function UpperParts(parts: seq<string>): seq<string> {
    if parts == [] then [] else [UpperText(parts[0])] + UpperParts(parts[1..])
  }

  lemma {:induction false} UpperJoin(parts: seq<string>)
    ensures UpperText(Join(parts)) == Join(UpperParts(parts)) && |UpperParts(parts)| == |parts|
  {
    if |parts| == 1 {
      assert parts[1..] == [];
    } else if |parts| > 1 {
      UpperJoin(parts[1..]);
      UpperConcat(parts[0] + "-", Join(parts[1..]));
      UpperConcat(parts[0], "-");
      assert "-"[1..] == "";
      assert UpperText("-") == "-";
    }
  }

  /** Parts that hold no dash can be read back from the joined text. */
  lemma {:induction false} JoinInjective(a: seq<string>, b: seq<string>)
    requires a != [] && b != [] && (forall p :: p in a ==> '-' !in p) && (forall p :: p in b ==> '-' !in p)
    requires Join(a) == Join(b)
    ensures a == b
  {
    assert a[0] in a && b[0] in b;
    SameHead(a, b);
    if |a| > 1 {
      assert Join(a)[|a[0]| + 1..] == Join(a[1..]);
      assert Join(b)[|b[0]| + 1..] == Join(b[1..]);
      JoinInjective(a[1..], b[1..]);
      assert a == [a[0]] + a[1..] && b == [b[0]] + b[1..];
    }
  }

  lemma SameHead(a: seq<string>, b: seq<string>)
    requires a != [] && b != [] && '-' !in a[0] && '-' !in b[0] && Join(a) == Join(b)
    ensures a[0] == b[0] && (|a| == 1 <==> |b| == 1)
  {
    var text := Join(a);
    assert forall i :: 0 <= i < |a[0]| ==> text[i] == a[0][i];
    assert forall i :: 0 <= i < |b[0]| ==> text[i] == b[0][i];
    assert |a| > 1 ==> text[|a[0]|] == '-';
    assert |b| > 1 ==> text[|b[0]|] == '-';
    assert text[..|a[0]|] == a[0] && text[..|b[0]|] == b[0];
  }

  // ------------------------------------------------------- one code, one place

  /** Trimming twice is trimming once. */
  lemma {:induction false} TrimEndTwice(s: string)
    ensures TrimEnd(TrimEnd(s, Blank), Blank) == TrimEnd(s, Blank)
    ensures TrimEnd(s, Blank) == [] || !Blank(TrimEnd(s, Blank)[|TrimEnd(s, Blank)| - 1])
    ensures s != [] && !Blank(s[0]) ==> TrimEnd(s, Blank) != [] && TrimEnd(s, Blank)[0] == s[0]
  {
    if s != [] && Blank(s[|s| - 1]) {
      TrimEndTwice(s[..|s| - 1]);
    }
  }

  lemma {:induction false} TrimStartFirst(s: string)
    ensures TrimStart(s, Blank) == [] || !Blank(TrimStart(s, Blank)[0])
  {
    if s != [] && Blank(s[0]) {
      TrimStartFirst(s[1..]);
    }
  }

  lemma TrimmedTwice(s: string)
    ensures Trimmed(Trimmed(s)) == Trimmed(s)
  {
    TrimStartFirst(s);
    TrimEndTwice(TrimStart(s, Blank));
  }

  /** The levels of an accepted address, from the zone inwards, with no gap. */
  function Path(a: BinAddress): seq<string> {
    if a.rack == "" then [a.zone]
    else if a.shelf == "" then [a.zone, a.rack]
    else if a.bin == "" then [a.zone, a.rack, a.shelf]
    else [a.zone, a.rack, a.shelf, a.bin]
  }

  lemma LevelsArePath(a: BinAddress)
    requires Trimmed(a.zone) == a.zone && Trimmed(a.rack) == a.rack
    requires Trimmed(a.shelf) == a.shelf && Trimmed(a.bin) == a.bin
    requires a.zone != "" && (a.bin != "" ==> a.shelf != "") && (a.shelf != "" ==> a.rack != "")
    ensures Levels(a) == Path(a)
  {
    hide Trimmed;
    var all := [a.zone, a.rack, a.shelf, a.bin];
    assert all[1..] == [a.rack, a.shelf, a.bin] && all[1..][1..] == [a.shelf, a.bin];
    assert all[1..][1..][1..] == [a.bin] && all[1..][1..][1..][1..] == [];
    assert NonEmpty([a.bin]) == (if a.bin == "" then [] else [a.bin]);
    assert NonEmpty([a.shelf, a.bin]) == (if a.shelf == "" then [] else [a.shelf]) + NonEmpty([a.bin]);
    assert NonEmpty([a.rack, a.shelf, a.bin]) == (if a.rack == "" then [] else [a.rack]) + NonEmpty([a.shelf, a.bin]);
  }

  lemma ResolvedFacts(input: BinAddress)
    requires ResolveBinAddress(input).Resolved?
    ensures
      var r := ResolveBinAddress(input);
      && Levels(r.address) == Path(r.address) && r.code == UpperText(Join(Path(r.address)))
      && (forall p :: p in Path(r.address) ==> IsPart(p))
      && (r.address.bin != "" ==> r.address.shelf != "") && (r.address.shelf != "" ==> r.address.rack != "")
  {
    var a := ResolveBinAddress(input).address;
    TrimmedTwice(input.zone);
    TrimmedTwice(input.rack);
    TrimmedTwice(input.shelf);
    TrimmedTwice(input.bin);
    LevelsArePath(a);
    hide Trimmed, NonEmpty, Join, UpperText, IsPart;
    var all := [a.zone, a.rack, a.shelf, a.bin];
    forall p | p in Path(a)
      ensures IsPart(p)
    {
      assert p in all && p != "";
    }
  }

  /** A code holds letters, digits and dashes only, so the colon that separates it from a product
      in a shelf's key is never part of it. */
  lemma CodesHaveNoColon(input: BinAddress)
    requires ResolveBinAddress(input).Resolved?
    ensures Reconciliation.CodeLike(ResolveBinAddress(input).code)
  {
    ResolvedFacts(input);
    var path := Path(ResolveBinAddress(input).address);
    JoinChars(path);
    UpperChars(Join(path));
  }

  lemma {:induction false} UpperPartsEach(parts: seq<string>)
    ensures |UpperParts(parts)| == |parts|
    ensures forall i :: 0 <= i < |parts| ==> UpperParts(parts)[i] == UpperText(parts[i])
  {
    if parts != [] {
      UpperPartsEach(parts[1..]);
    }
  }

  lemma {:induction false} UpperPartsAt(parts: seq<string>)
    requires forall p :: p in parts ==> IsPart(p)
    ensures forall p :: p in UpperParts(parts) ==> '-' !in p
  {
    if parts != [] {
      assert parts[0] in parts;
      UpperChars(parts[0]);
      UpperPartsAt(parts[1..]);
    }
  }

  /** Two accepted addresses share a code exactly when they are the same place, level by level, up
      to the case of letters. */
  lemma OneCodeOnePlace(x: BinAddress, y: BinAddress)
    requires ResolveBinAddress(x).Resolved? && ResolveBinAddress(y).Resolved?
    ensures
      var a, b := ResolveBinAddress(x), ResolveBinAddress(y);
      a.code == b.code <==>
        && UpperText(a.address.zone) == UpperText(b.address.zone)
        && UpperText(a.address.rack) == UpperText(b.address.rack)
        && UpperText(a.address.shelf) == UpperText(b.address.shelf)
        && UpperText(a.address.bin) == UpperText(b.address.bin)
  {
    hide ResolveBinAddress, Join, IsPart;
    var a, b := ResolveBinAddress(x).address, ResolveBinAddress(y).address;
    ResolvedFacts(x);
    ResolvedFacts(y);
    UpperJoin(Path(a));
    UpperJoin(Path(b));
    UpperPartsEach(Path(a));
    UpperPartsEach(Path(b));
    UpperPartsAt(Path(a));
    UpperPartsAt(Path(b));
    if UpperText(Join(Path(a))) == UpperText(Join(Path(b))) {
      JoinInjective(UpperParts(Path(a)), UpperParts(Path(b)));
      SamePath(a, b);
    } else {
      SamePlaceSameParts(a, b);
    }
  }

  lemma UpperEmpty(s: string)
    ensures UpperText(s) == "" <==> s == ""
  {
  }

  lemma SamePath(a: BinAddress, b: BinAddress)
    requires UpperParts(Path(a)) == UpperParts(Path(b))
    requires |UpperParts(Path(a))| == |Path(a)| && |UpperParts(Path(b))| == |Path(b)|
    requires forall i :: 0 <= i < |Path(a)| ==> UpperParts(Path(a))[i] == UpperText(Path(a)[i])
    requires forall i :: 0 <= i < |Path(b)| ==> UpperParts(Path(b))[i] == UpperText(Path(b)[i])
    requires (a.bin != "" ==> a.shelf != "") && (a.shelf != "" ==> a.rack != "")
    requires (b.bin != "" ==> b.shelf != "") && (b.shelf != "" ==> b.rack != "")
    ensures UpperText(a.zone) == UpperText(b.zone) && UpperText(a.rack) == UpperText(b.rack)
    ensures UpperText(a.shelf) == UpperText(b.shelf) && UpperText(a.bin) == UpperText(b.bin)
  {
    hide UpperText, UpperParts;
    assert UpperText(Path(a)[0]) == UpperText(Path(b)[0]);
    if a.rack != "" {
      assert UpperText(Path(a)[1]) == UpperText(Path(b)[1]);
    }
    if a.shelf != "" {
      assert UpperText(Path(a)[2]) == UpperText(Path(b)[2]);
    }
    if a.bin != "" {
      assert UpperText(Path(a)[3]) == UpperText(Path(b)[3]);
    }
  }

  lemma SamePlaceSameParts(a: BinAddress, b: BinAddress)
    ensures
      && UpperText(a.zone) == UpperText(b.zone) && UpperText(a.rack) == UpperText(b.rack)
      && UpperText(a.shelf) == UpperText(b.shelf) && UpperText(a.bin) == UpperText(b.bin)
      ==> UpperText(Join(Path(a))) == UpperText(Join(Path(b)))
  {
    UpperEmpty(a.rack);
    UpperEmpty(b.rack);
    UpperEmpty(a.shelf);
    UpperEmpty(b.shelf);
    UpperEmpty(a.bin);
    UpperEmpty(b.bin);
    UpperJoin(Path(a));
    UpperJoin(Path(b));
    UpperPartsEach(Path(a));
    UpperPartsEach(Path(b));
    hide UpperText, UpperParts;
    if && UpperText(a.zone) == UpperText(b.zone) && UpperText(a.rack) == UpperText(b.rack)
       && UpperText(a.shelf) == UpperText(b.shelf) && UpperText(a.bin) == UpperText(b.bin) {
      assert UpperParts(Path(a)) == UpperParts(Path(b));
    }
  }

  // -------------------------------------------- what is accepted, what is written

  /** A level as it may be written: one to eight Latin or Cyrillic letters or digits, without `Ё`. */
  predicate Written(s: string) {
    && s != "" && |s| <= 8
    && forall i :: 0 <= i < |s| ==>
         || 'A' <= s[i] <= 'Z' || 'a' <= s[i] <= 'z' || '0' <= s[i] <= '9'
         || '\U{0410}' <= s[i] <= '\U{044F}'
  }

  lemma WrittenIsPart(s: string)
    ensures Written(s) <==> IsPart(s)
  {
    if IsPart(s) {
      forall i | 0 <= i < |s|
        ensures PartChar(s[i])
      {
        assert s[i] in s;
      }
    }
    if Written(s) {
      forall c | c in s
        ensures PartChar(c)
      {
        var i :| 0 <= i < |s| && s[i] == c;
      }
    }
  }

  /** An address without a zone is missing; one is accepted exactly when every level it names is written as
      a level may be and no level is named without the one above it. */
  lemma AddressIff(input: BinAddress)
    ensures
      var zone, rack, shelf, bin := Trimmed(input.zone), Trimmed(input.rack), Trimmed(input.shelf), Trimmed(input.bin);
      && (ResolveBinAddress(input).Missing? <==> zone == "")
      && (ResolveBinAddress(input).Resolved? <==>
            && Written(zone)
            && (rack == "" || Written(rack))
            && (shelf == "" || (Written(shelf) && rack != ""))
            && (bin == "" || (Written(bin) && shelf != "")))
      && (ResolveBinAddress(input).Resolved? ==> ResolveBinAddress(input).address == BinAddress(zone, rack, shelf, bin))
  {
    hide Trimmed, FormatBinCode, IsPart;
    var zone, rack, shelf, bin := Trimmed(input.zone), Trimmed(input.rack), Trimmed(input.shelf), Trimmed(input.bin);
    WrittenIsPart(zone);
    WrittenIsPart(rack);
    WrittenIsPart(shelf);
    WrittenIsPart(bin);
    assert zone in [zone, rack, shelf, bin] && rack in [zone, rack, shelf, bin];
    assert shelf in [zone, rack, shelf, bin] && bin in [zone, rack, shelf, bin];
  }

  /** The code on the shelf: the levels from the zone inwards, in capitals, with a dash between two. */
  lemma CodeReads(input: BinAddress)
    requires ResolveBinAddress(input).Resolved?
    ensures
      var a := ResolveBinAddress(input).address;
      ResolveBinAddress(input).code ==
        Capitals(a.zone) + Below(a.rack) + Below(a.shelf) + Below(a.bin)
  {
    hide ResolveBinAddress, Path, UpperText, Levels, Join;
    ResolvedFacts(input);
    CodeOfPath(ResolveBinAddress(input).address);
  }

  lemma CodeOfPath(a: BinAddress)
    requires (a.bin != "" ==> a.shelf != "") && (a.shelf != "" ==> a.rack != "")
    ensures UpperText(Join(Path(a))) == Capitals(a.zone) + Below(a.rack) + Below(a.shelf) + Below(a.bin)
  {
    hide UpperText, Capitals, Join;
    JoinedPath(a);
    CapitalsAreUpper(a.zone);
    UpperDash(a.rack);
    UpperDash(a.shelf);
    UpperDash(a.bin);
    UpperConcat(a.zone + Dash(a.rack) + Dash(a.shelf), Dash(a.bin));
    UpperConcat(a.zone + Dash(a.rack), Dash(a.shelf));
    UpperConcat(a.zone, Dash(a.rack));
  }

  function Dash(level: string): string {
    if level == "" then "" else "-" + level
  }

  lemma JoinedPath(a: BinAddress)
    requires (a.bin != "" ==> a.shelf != "") && (a.shelf != "" ==> a.rack != "")
    ensures Join(Path(a)) == a.zone + Dash(a.rack) + Dash(a.shelf) + Dash(a.bin)
  {
    var path := Path(a);
    if |path| > 1 {
      assert Join(path) == a.zone + "-" + Join(path[1..]);
    }
    if |path| > 2 {
      assert Join(path[1..]) == a.rack + "-" + Join(path[1..][1..]);
    }
    if |path| > 3 {
      assert Join(path[1..][1..]) == a.shelf + "-" + Join(path[1..][1..][1..]);
    }
  }

  lemma UpperDash(level: string)
    ensures UpperText(Dash(level)) == Below(level)
  {
    CapitalsAreUpper(level);
    if level != "" {
      assert Dash(level)[1..] == level;
    }
  }

  function Capitals(s: string): string {
    seq(|s|, i requires 0 <= i < |s| => Capital(s[i]))
  }

  /** The capital of a letter: as many places before it as the alphabet has capitals. */
  function Capital(c: char): char {
    if 'a' <= c <= 'z' then ('A' as int + (c as int - 'a' as int)) as char
    else if '\U{0430}' <= c <= '\U{044F}' then ('\U{0410}' as int + (c as int - 0x430)) as char
    else c
  }

  function Below(level: string): string {
    if level == "" then "" else "-" + Capitals(level)
  }

  lemma {:induction false} CapitalsAreUpper(s: string)
    ensures UpperText(s) == Capitals(s)
  {
    if s != [] {
      CapitalsAreUpper(s[1..]);
      assert Capitals(s)[1..] == Capitals(s[1..]);
    }
  }
}
