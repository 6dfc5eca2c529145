/** Secrets as text (apps/api/src/totp.ts): the Base 32 encoding of section 6 of RFC 4648,
    without padding characters. */
module Base32 {
  import opened Lists
  import opened JsText
  import opened Bits

  type Byte = b: int | 0 <= b < 256

  lemma PowersUsed()
    ensures Pow2(0) == 1 && Pow2(1) == 2 && Pow2(2) == 4 && Pow2(3) == 8 && Pow2(4) == 16
    ensures Pow2(5) == 32 && Pow2(6) == 64 && Pow2(7) == 128 && Pow2(8) == 256
  {
    assert Pow2(4) == 16;
  }

  // ------------------------------------------------------------ the alphabet

  /** `ABCDEFGHIJKLMNOPQRSTUVWXYZ234567` */
  function Symbol(d: int): CodeUnit
    requires 0 <= d < 32
  {
    if d < 26 then 65 + d else 24 + d
  }

  function IndexOf(u: CodeUnit): (r: Option<int>)
    ensures r.Some? ==> 0 <= r.value < 32 && Symbol(r.value) == u
  {
    if 65 <= u <= 90 then Some(u - 65)
    else if 50 <= u <= 55 then Some(u - 24)
    else None
  }

  function Symbols(digits: seq<int>): (r: Text)
    requires AreDigits(digits, 32)
    ensures |r| == |digits| && forall i :: 0 <= i < |r| ==> r[i] == Symbol(digits[i])
  {
    if digits == [] then []
    else
      Symbols(digits[..|digits| - 1]) + [Symbol(digits[|digits| - 1])]
  }

  const Separator: CodeUnit -> bool := (u: CodeUnit) => IsSpace(u) || u == 61 || u == 45

  /** `toUpperCase` on one unit, as far as the alphabet can see: the letters below and those outside
      ASCII that turn into letters of the alphabet. Every other unit stays outside it. */
  function Upper(u: CodeUnit): Text {
    if 97 <= u <= 122 then [u - 32]
    else if u == 0x131 then [73]
    else if u == 0x17F then [83]
    else if u == 0xDF then [83, 83]
    else if u == 0xFB00 then [70, 70]
    else if u == 0xFB01 then [70, 73]
    else if u == 0xFB02 then [70, 76]
    else if u == 0xFB03 then [70, 70, 73]
    else if u == 0xFB04 then [70, 70, 76]
    else if u == 0xFB05 || u == 0xFB06 then [83, 84]
    else [u]
  }

  function UpperCase(text: Text): Text {
    if text == [] then [] else Upper(text[0]) + UpperCase(text[1..])
  }

  function Clean(input: Text): Text {
    Strip(UpperCase(input), Separator)
  }

  /** The values of the symbols, or nothing when one of them is not in the alphabet. */
  function Values(clean: Text): (r: Option<seq<int>>)
    ensures r.Some? ==> |r.value| == |clean| && AreDigits(r.value, 32)
  {
    if clean == [] then Some([])
    else
      var front := Values(clean[..|clean| - 1]);
      var last := IndexOf(clean[|clean| - 1]);
      if front.Some? && last.Some? then Some(front.value + [last.value]) else None
  }

  // -------------------------------------------------------------- the codec

  /** How many symbols `n` bytes need, and how many zero bits complete the last one. */
  function SymbolCount(n: nat): nat {
    (8 * n + 4) / 5
  }

  function PadBits(n: nat): (r: nat)
    ensures r < 5 && 5 * SymbolCount(n) == 8 * n + r
  {
    5 * SymbolCount(n) - 8 * n
  }

  /** The bytes read as one number, shifted to a whole number of symbols and written in base 32. */
  function Groups(bytes: seq<Byte>): (r: seq<int>)
    ensures AreDigits(r, 32)
  {
    Digits(Number(bytes, 256) * Pow2(PadBits(|bytes|)), SymbolCount(|bytes|), 32)
  }

  function Encode(bytes: seq<Byte>): Text {
    Symbols(Groups(bytes))
  }

  function ByteCount(symbols: nat): nat {
    5 * symbols / 8
  }

  function RestBits(symbols: nat): (r: nat)
    ensures r < 8 && 5 * symbols == 8 * ByteCount(symbols) + r
  {
    5 * symbols % 8
  }

  /** The symbols read as one number, without the bits that do not fill a byte. */
  function BytesOf(values: seq<int>): seq<int> {
    Digits(Number(values, 32) / Pow2(RestBits(|values|)), ByteCount(|values|), 256)
  }

  function Decode(input: Text): Option<seq<int>> {
    match Values(Clean(input))
    case None => None
    case Some(values) => Some(BytesOf(values))
  }

  // -------------------------------------------- the accumulator of 32 bits

  const WORD := 0x1_0000_0000

  /** What 32 bits keep of a number. */
  function Wrap(n: int): int {
    n % WORD
  }

  /** `value << width | low` */
  function ShiftLeft(value: int, width: nat, low: int): int {
    Wrap(value * Pow2(width) + low)
  }

  /** `value >>> k & (size - 1)` */
  function Window(value: int, k: nat, size: int): (r: int)
    requires size > 0
    ensures 0 <= r < size
  {
    Quot(value, Pow2(k)) % size
  }

  /** A word that has wrapped, shifted left, is the true number shifted left and wrapped. */
  lemma WordAppends(n: int, width: nat, low: int)
    ensures ShiftLeft(Wrap(n), width, low) == Wrap(n * Pow2(width) + low)
  {
    var q, scale := n / WORD, Pow2(width);
    var x := n % WORD * scale + low;
    WholeWords(q * scale, x);
    assert n * scale == WORD * (q * scale) + n % WORD * scale by {
      assert n == WORD * q + n % WORD;
    }
  }

  lemma WholeWords(q: int, x: int)
    ensures (WORD * q + x) % WORD == x % WORD
  {
  }

  /** The window lies inside the word, so the bits that fell off its top are not missed. */
  lemma WordSeesWindow(n: int, k: nat)
    requires k <= 24
    ensures Window(Wrap(n), k, 32) == Rem(Quot(n, Pow2(k)), 32)
    ensures Window(Wrap(n), k, 256) == Rem(Quot(n, Pow2(k)), 256)
  {
    hide Pow2, Quot;
    var q, r, d, up := n / WORD, n % WORD, Pow2(k), Pow2(24 - k);
    PowAdd(k, 24 - k);
    Pow24();
    assert q * WORD == (256 * (q * up)) * d by {
      assert WORD == 256 * (d * up);
      assert q * (256 * (d * up)) == (256 * (q * up)) * d;
    }
    QuotShift(256 * (q * up), r, d);
    RemIsMod(256 * (q * up) + Quot(r, d));
    MultiplesDrop(q * up, Quot(r, d));
  }

  lemma Pow24()
    ensures Pow2(24) == 0x100_0000
  {
    assert Pow2(8) == 256;
    assert Pow2(16) == 0x1_0000;
  }

  lemma MultiplesDrop(m: int, x: int)
    ensures (256 * m + x) % 256 == x % 256 && (256 * m + x) % 32 == x % 32
  {
    assert (256 * m + x) % 256 == x % 256;
    Multiples32(8 * m, x);
  }

  lemma Multiples32(m: int, x: int)
    ensures (32 * m + x) % 32 == x % 32
  {
  }

  lemma RemIsMod(n: int)
    ensures Rem(n, 32) == n % 32 && Rem(n, 256) == n % 256
  {
  }

  // -------------------------------------------- what the loops keep

  /** The groups written so far are the number read so far without its last `bits` bits. */
  ghost predicate Written(groups: seq<int>, width: nat, n: int, bits: nat, total: nat) {
    && groups == Digits(Quot(n, Pow2(bits)), |groups|, Pow2(width))
    && width * |groups| + bits == total
  }

  lemma ShiftIn(groups: seq<int>, width: nat, n: int, bits: nat, total: nat, more: nat, digit: int)
    requires Written(groups, width, n, bits, total) && 0 <= digit < Pow2(more)
    ensures Written(groups, width, n * Pow2(more) + digit, bits + more, total + more)
  {
    hide Quot, Pow2, Digits;
    PowAdd(bits, more);
    QuotScaled(n, Pow2(bits), Pow2(more), digit);
  }

  lemma NextGroup(groups: seq<int>, width: nat, n: int, bits: nat, total: nat)
    requires Written(groups, width, n, bits, total) && bits >= width
    ensures Written(groups + [Rem(Quot(n, Pow2(bits - width)), Pow2(width))], width, n, bits - width, total)
  {
    hide Quot, Rem, Pow2;
    PowAdd(bits - width, width);
    QuotTwice(n, Pow2(bits - width), Pow2(width));
    assert width * (|groups| + 1) == width * |groups| + width;
  }

  lemma LastGroup(groups: seq<int>, bytes: seq<Byte>, bits: nat)
    requires 0 < bits < 5 && Written(groups, 5, Number(bytes, 256), bits, 8 * |bytes|)
    ensures Groups(bytes) == groups + [Rem(Number(bytes, 256) * Pow2(5 - bits), 32)]
  {
    hide Quot, Rem, Pow2;
    var n, pad := Number(bytes, 256), Pow2(5 - bits);
    PowersUsed();
    PowAdd(bits, 5 - bits);
    QuotScaled(n, Pow2(bits), pad, 0);
    assert PadBits(|bytes|) == 5 - bits && SymbolCount(|bytes|) == |groups| + 1;
  }

  lemma ReadByte(groups: seq<int>, n: int, bits: nat, total: nat, byte: Byte)
    requires Written(groups, 5, n, bits, total)
    ensures Written(groups, 5, n * 256 + byte, bits + 8, total + 8)
    ensures ShiftLeft(Wrap(n), 8, byte) == Wrap(n * 256 + byte)
  {
    hide Written, ShiftLeft;
    assert Pow2(8) == 256 by { PowersUsed(); }
    ShiftIn(groups, 5, n, bits, total, 8, byte);
    WordAppends(n, 8, byte);
  }

  lemma ReadSymbol(bytes: seq<int>, n: int, bits: nat, total: nat, index: int)
    requires Written(bytes, 8, n, bits, total) && 0 <= index < 32
    ensures Written(bytes, 8, n * 32 + index, bits + 5, total + 5)
    ensures ShiftLeft(Wrap(n), 5, index) == Wrap(n * 32 + index)
  {
    hide Written, ShiftLeft;
    assert Pow2(5) == 32 by { PowersUsed(); }
    ShiftIn(bytes, 8, n, bits, total, 5, index);
    WordAppends(n, 5, index);
  }

  lemma FillUp(n: int, bits: nat)
    requires bits < 5
    ensures ShiftLeft(Wrap(n), 5 - bits, 0) % 32 == Rem(n * Pow2(5 - bits), 32)
  {
    hide ShiftLeft, Rem, Quot, Pow2;
    WordAppends(n, 5 - bits, 0);
    RemIsMod(n * Pow2(5 - bits));
    WordKeepsLow(n * Pow2(5 - bits));
  }

  lemma WordKeepsLow(m: int)
    ensures (m + 0) % WORD % 32 == m % 32
  {
  }

  lemma NothingLeft(groups: seq<int>, bytes: seq<Byte>)
    requires Written(groups, 5, Number(bytes, 256), 0, 8 * |bytes|)
    ensures Groups(bytes) == groups
  {
    assert Pow2(0) == 1;
    assert PadBits(|bytes|) == 0 && SymbolCount(|bytes|) == |groups|;
  }

  // ------------------------------------------------------------ the methods

  method Base32Encode(buffer: seq<Byte>) returns (out: Text)
    ensures out == Encode(buffer)
  {
    hide Pow2, Quot, Rem, Written, Wrap, ShiftLeft, Window;
    PowersUsed();
    var bits, value := 0, 0;
    out := [];
    ghost var n: int, groups: seq<int> := 0, [];
    Start(5);
    WrapZero();
    var i := 0;
    while i < |buffer|
      invariant i <= |buffer| && 0 <= bits < 5
      invariant n == Number(buffer[..i], 256) && n >= 0 && value == Wrap(n)
      invariant Written(groups, 5, n, bits, 8 * i)
      invariant AreDigits(groups, 32) && out == Symbols(groups)
    {
      assert buffer[..i + 1][..i] == buffer[..i];
      ReadByte(groups, n, bits, 8 * i, buffer[i]);
      value := ShiftLeft(value, 8, buffer[i]);
      n := n * 256 + buffer[i];
      out, bits, groups := EmitGroups(out, value, bits + 8, n, groups, 8 * (i + 1));
      i := i + 1;
    }
    assert buffer[..i] == buffer;
    if bits > 0 {
      LastGroup(groups, buffer, bits);
      FillUp(n, bits);
      var group := ShiftLeft(value, 5 - bits, 0) % 32;
      assert (groups + [group])[..|groups|] == groups;
      out := out + [Symbol(group)];
    } else {
      NothingLeft(groups, buffer);
    }
  }

  /** The inner loop: whole groups of five bits leave the accumulator from its high end. */
  method EmitGroups(written: Text, value: int, waiting: nat, ghost n: int, ghost before: seq<int>, ghost total: nat)
    returns (out: Text, bits: nat, ghost groups: seq<int>)
    requires waiting <= 12 && value == Wrap(n)
    requires Written(before, 5, n, waiting, total) && AreDigits(before, 32) && written == Symbols(before)
    ensures bits < 5
    ensures Written(groups, 5, n, bits, total) && AreDigits(groups, 32) && out == Symbols(groups)
  {
    hide Pow2, Quot, Rem, Written, Wrap, Window;
    PowersUsed();
    out, bits, groups := written, waiting, before;
    while bits >= 5
      invariant bits <= 12
      invariant Written(groups, 5, n, bits, total)
      invariant AreDigits(groups, 32) && out == Symbols(groups)
    {
      NextGroup(groups, 5, n, bits, total);
      WordSeesWindow(n, bits - 5);
      var group := Window(value, bits - 5, 32);
      assert (groups + [group])[..|groups|] == groups;
      out := out + [Symbol(group)];
      groups := groups + [group];
      bits := bits - 5;
    }
  }

  lemma Start(width: nat)
    ensures Written([], width, 0, 0, 0)
  {
  }

  lemma WrapZero()
    ensures Wrap(0) == 0
  {
  }

  method Base32Decode(input: Text) returns (r: Option<seq<int>>)
    ensures r == Decode(input)
  {
    hide Clean, Values, BytesOf;
    r := DecodeSymbols(Clean(input));
  }

  /** The loop over the symbols that are left. */
  method DecodeSymbols(clean: Text) returns (r: Option<seq<int>>)
    ensures r == match Values(clean) case None => None case Some(values) => Some(BytesOf(values))
  {
    hide Pow2, Quot, Rem, Written, Wrap, ShiftLeft, Window, Number, Values, IndexOf, BytesOf, Clean, Digits;
    PowersUsed();
    var bits, value := 0, 0;
    var bytes: seq<int> := [];
    ghost var values: seq<int> := [];
    Start(8);
    NoValues();
    WrapZero();
    var i := 0;
    while i < |clean|
      invariant i <= |clean| && 0 <= bits < 8
      invariant Values(clean[..i]) == Some(values) && value == Wrap(Number(values, 32))
      invariant Written(bytes, 8, Number(values, 32), bits, 5 * i)
    {
      OneSymbolMore(clean, i);
      var index := IndexOf(clean[i]);
      if index.None? {
        return None;
      }
      ReadSymbol(bytes, Number(values, 32), bits, 5 * i, index.value);
      NumberAppend(values, 32, index.value);
      value := ShiftLeft(value, 5, index.value);
      values := values + [index.value];
      bits := bits + 5;
      if bits >= 8 {
        NextGroup(bytes, 8, Number(values, 32), bits, 5 * (i + 1));
        WordSeesWindow(Number(values, 32), bits - 8);
        bytes := bytes + [Window(value, bits - 8, 256)];
        bits := bits - 8;
      }
      i := i + 1;
    }
    assert clean[..i] == clean;
    BytesRead(bytes, values, bits);
    r := Some(bytes);
  }

  /** One symbol outside the alphabet refuses the whole text. */
  lemma OneSymbolMore(clean: Text, i: nat)
    requires i < |clean| && Values(clean[..i]).Some?
    ensures IndexOf(clean[i]).None? ==> Values(clean).None?
    ensures IndexOf(clean[i]).Some? ==>
      Values(clean[..i + 1]) == Some(Values(clean[..i]).value + [IndexOf(clean[i]).value])
  {
    assert clean[..i + 1][..i] == clean[..i];
    ValuesOfPrefix(clean, i + 1);
  }

  lemma BytesRead(bytes: seq<int>, values: seq<int>, bits: nat)
    requires bits < 8 && Written(bytes, 8, Number(values, 32), bits, 5 * |values|)
    ensures BytesOf(values) == bytes
  {
    assert Pow2(8) == 256 by { PowersUsed(); }
    assert RestBits(|values|) == bits && ByteCount(|values|) == |bytes|;
  }

  lemma {:induction false} ValuesOfPrefix(clean: Text, i: nat)
    requires i <= |clean|
    ensures Values(clean).Some? ==> Values(clean[..i]) == Some(Values(clean).value[..i])
  {
    if i < |clean| {
      var front := clean[..|clean| - 1];
      ValuesOfPrefix(front, i);
      assert front[..i] == clean[..i];
      if Values(clean).Some? {
        assert Values(clean).value[..i] == Values(front).value[..i];
      }
    } else {
      assert clean[..i] == clean;
      assert Values(clean).Some? ==> Values(clean).value[..i] == Values(clean).value;
    }
  }

  // ------------------------------------------------------------ what it is for

  /** The encoding reads the bits of the bytes from the left in groups of five and fills the
      last group with zeros: section 6 of RFC 4648. */
  lemma EncodingIsTheBitStream(bytes: seq<Byte>, k: nat)
    requires k < 5 * SymbolCount(|bytes|)
    ensures |Groups(bytes)| == SymbolCount(|bytes|)
    ensures BitAt(Groups(bytes), 5, k) == if k < 8 * |bytes| then BitAt(bytes, 8, k) else 0
  {
    hide Quot, Rem, Pow2, BitAt, Digits;
    var n, pad, len := Number(bytes, 256), PadBits(|bytes|), 8 * |bytes|;
    assert Pow2(5) == 32 && Pow2(8) == 256 by { PowersUsed(); }
    BitsOfDigits(n * Pow2(pad), 5, SymbolCount(|bytes|), k);
    if k < len {
      DigitsOfNumber(bytes, 256);
      BitsOfDigits(n, 8, |bytes|, k);
      ShiftedBit(n, pad, len, k);
    } else {
      PaddingBit(n, pad, len, k);
    }
  }

  lemma ShiftedBit(n: int, pad: nat, len: nat, k: nat)
    requires k < len
    ensures NumberBit(n * Pow2(pad), len + pad, k) == NumberBit(n, len, k)
  {
    hide Quot, Rem, Pow2;
    PowAdd(len - 1 - k, pad);
    QuotScaled(n, Pow2(len - 1 - k), Pow2(pad), 0);
  }

  lemma PaddingBit(n: int, pad: nat, len: nat, k: nat)
    requires len <= k < len + pad
    ensures NumberBit(n * Pow2(pad), len + pad, k) == 0
  {
    hide Quot, Rem, Pow2;
    var e := len + pad - 1 - k;
    PowAdd(e, pad - e);
    PowAdd(1, pad - 1 - e);
    PowOne();
    EvenAbove(n, Pow2(e), Pow2(pad - 1 - e));
  }

  lemma EvenAbove(n: int, d: int, up: int)
    requires d > 0
    ensures Rem(Quot(n * (d * (2 * up)), d), 2) == 0
  {
    hide Quot;
    assert n * (d * (2 * up)) == (n * up * 2) * d;
    QuotIs(n * (d * (2 * up)), d, n * up * 2);
    QuotIs(n * up * 2, 2, n * up);
  }

  lemma IndexOfSymbol(d: int)
    requires 0 <= d < 32
    ensures IndexOf(Symbol(d)) == Some(d)
  {
  }

  lemma ValuesAppend(clean: Text, d: int)
    requires Values(clean).Some? && 0 <= d < 32
    ensures Values(clean + [Symbol(d)]) == Some(Values(clean).value + [d])
  {
    hide Symbol, IndexOf;
    IndexOfSymbol(d);
    assert (clean + [Symbol(d)])[..|clean|] == clean;
  }

  lemma {:induction false} ValuesOfSymbols(digits: seq<int>)
    requires AreDigits(digits, 32)
    ensures Values(Symbols(digits)) == Some(digits)
  {
    hide Symbol, Values;
    if digits == [] {
      NoValues();
    } else {
      var front := digits[..|digits| - 1];
      ValuesOfSymbols(front);
      ValuesAppend(Symbols(front), digits[|digits| - 1]);
      assert front + [digits[|digits| - 1]] == digits;
    }
  }

  lemma NoValues()
    ensures Values([]) == Some([]) && Number([], 32) == 0
  {
  }

  lemma {:induction false} SymbolsOfValues(clean: Text)
    requires Values(clean).Some?
    ensures Symbols(Values(clean).value) == clean
  {
    if clean != [] {
      var front := clean[..|clean| - 1];
      SymbolsOfValues(front);
      assert Values(clean).value[..|clean| - 1] == Values(front).value;
    }
  }

  /** The encoding survives being typed: upper-casing and stripping leave it alone. */
  lemma CleanIsStable(digits: seq<int>)
    requires AreDigits(digits, 32)
    ensures Clean(Symbols(digits)) == Symbols(digits)
  {
    var text := Symbols(digits);
    forall u | u in text
      ensures Upper(u) == [u] && !Separator(u)
    {
      var i :| 0 <= i < |text| && text[i] == u;
    }
    AlreadyUpper(text);
    StripNothing(text, Separator);
  }

  lemma {:induction false} AlreadyUpper(text: Text)
    requires forall u :: u in text ==> Upper(u) == [u]
    ensures UpperCase(text) == text
  {
    if text != [] {
      AlreadyUpper(text[1..]);
    }
  }

  lemma {:induction false} UpperCaseConcat(a: Text, b: Text)
    ensures UpperCase(a + b) == UpperCase(a) + UpperCase(b)
  {
    if a == [] {
      assert a + b == b;
    } else {
      assert (a + b)[1..] == a[1..] + b;
      UpperCaseConcat(a[1..], b);
    }
  }

  /** Symbols that encode bytes give the bytes back, although the word they passed through wrapped. */
  lemma BytesOfGroups(bytes: seq<Byte>)
    ensures BytesOf(Groups(bytes)) == bytes
  {
    hide Quot, Digits, Number, Groups, Pow2, SymbolCount, ByteCount, RestBits, PadBits, BytesOf;
    GroupsFit(bytes);
    BytesOfIs(Groups(bytes));
    NoRemainder(Number(bytes, 256), PadBits(|bytes|));
    CountsMatch(|bytes|);
    DigitsOfNumber(bytes, 256);
  }

  lemma BytesOfIs(values: seq<int>)
    ensures BytesOf(values) ==
      Digits(Quot(Number(values, 32), Pow2(RestBits(|values|))), ByteCount(|values|), 256)
  {
    hide Digits, Number, Pow2;
  }

  lemma CountsMatch(n: nat)
    ensures ByteCount(SymbolCount(n)) == n && RestBits(SymbolCount(n)) == PadBits(n)
  {
  }

  lemma NoRemainder(n: int, pad: nat)
    ensures Quot(n * Pow2(pad), Pow2(pad)) == n
  {
    hide Quot, Pow2;
    QuotIs(n * Pow2(pad), Pow2(pad), n);
  }

  /** The groups hold the whole number: none of its bits is cut off. */
  lemma GroupsFit(bytes: seq<Byte>)
    ensures |Groups(bytes)| == SymbolCount(|bytes|)
    ensures Number(Groups(bytes), 32) == Number(bytes, 256) * Pow2(PadBits(|bytes|))
  {
    hide Pow2, Number, Digits, Quot;
    assert Pow2(5) == 32 && Pow2(8) == 256 by { PowersUsed(); }
    var n, pad := Number(bytes, 256), PadBits(|bytes|);
    NumberBounds(bytes, 256);
    PowOfPow2(8, |bytes|);
    ShiftedFits(n, 8 * |bytes|, pad);
    PowOfPow2(5, SymbolCount(|bytes|));
    NumberOfDigits(n * Pow2(pad), SymbolCount(|bytes|), 32);
  }

  lemma ShiftedFits(n: int, len: nat, pad: nat)
    requires 0 <= n < Pow2(len)
    ensures 0 <= n * Pow2(pad) < Pow2(len + pad)
  {
    hide Pow2;
    PowAdd(len, pad);
    MulMono(n + 1, Pow2(len), Pow2(pad));
    MulMono(0, n, Pow2(pad));
    assert (n + 1) * Pow2(pad) == n * Pow2(pad) + Pow2(pad);
  }

  /** Decoding what was encoded gives the same bytes, and any text that reads the same after
      upper-casing and stripping does too. */
  lemma RoundTrip(bytes: seq<Byte>, input: Text)
    requires Clean(input) == Encode(bytes)
    ensures Decode(input) == Some(bytes) && Decode(Encode(bytes)) == Some(bytes)
  {
    ValuesOfSymbols(Groups(bytes));
    CleanIsStable(Groups(bytes));
    BytesOfGroups(bytes);
  }

  lemma CleanConcat(a: Text, b: Text)
    ensures Clean(a + b) == Clean(a) + Clean(b)
  {
    UpperCaseConcat(a, b);
    StripConcat(UpperCase(a), UpperCase(b), Separator);
  }

  lemma CleanSeparators(between: Text)
    requires forall u :: u in between ==> Separator(u)
    ensures Clean(between) == []
  {
    assert forall u :: u in between ==> Upper(u) == [u];
    AlreadyUpper(between);
    StripAll(between, Separator);
  }

  /** A secret typed in lower case, or with a letter whose capital is one or more letters of the
      alphabet, is read as if those capitals stood there. */
  lemma LettersAreFolded(a: Text, u: CodeUnit, b: Text)
    ensures 97 <= u <= 122 ==> Decode(a + [u] + b) == Decode(a + [u - 32] + b)
    ensures u == 0x131 ==> Decode(a + [u] + b) == Decode(a + [73] + b)
    ensures u == 0x17F ==> Decode(a + [u] + b) == Decode(a + [83] + b)
    ensures u == 0xDF ==> Decode(a + [u] + b) == Decode(a + [83, 83] + b)
    ensures u == 0xFB00 ==> Decode(a + [u] + b) == Decode(a + [70, 70] + b)
    ensures u == 0xFB01 ==> Decode(a + [u] + b) == Decode(a + [70, 73] + b)
    ensures u == 0xFB02 ==> Decode(a + [u] + b) == Decode(a + [70, 76] + b)
    ensures u == 0xFB03 ==> Decode(a + [u] + b) == Decode(a + [70, 70, 73] + b)
    ensures u == 0xFB04 ==> Decode(a + [u] + b) == Decode(a + [70, 70, 76] + b)
    ensures u == 0xFB05 || u == 0xFB06 ==> Decode(a + [u] + b) == Decode(a + [83, 84] + b)
  {
    hide Clean, Values, BytesOf;
    UnitIsItsCapitals(u);
    CleanConcat(a + [u], b);
    CleanConcat(a, [u]);
    CleanConcat(a + Upper(u), b);
    CleanConcat(a, Upper(u));
  }

  lemma UnitIsItsCapitals(u: CodeUnit)
    ensures Clean([u]) == Clean(Upper(u))
  {
    assert [u][1..] == [];
    assert UpperCase([u]) == Upper(u);
    forall c | c in Upper(u)
      ensures Upper(c) == [c]
    {
      if 97 <= u <= 122 {
        assert c == u - 32;
      }
    }
    AlreadyUpper(Upper(u));
  }

  /** Texts are refused exactly for a unit that is neither a letter, nor a digit from 2 to 7, nor a
      separator, nor one of the letters above. */
  lemma {:induction false} DecodesIff(input: Text)
    ensures Decode(input).Some? <==>
      forall u :: u in input ==>
        || 65 <= u <= 90 || 97 <= u <= 122 || 50 <= u <= 55
        || IsSpace(u) || u == 61 || u == 45
        || u in {0x131, 0x17F, 0xDF} || 0xFB00 <= u <= 0xFB06
  {
    hide Values, IndexOf;
    ValuesIff(Clean(input));
    CleanedIff(input);
  }

  predicate InAlphabet(u: CodeUnit) { 65 <= u <= 90 || 50 <= u <= 55 }

  lemma {:induction false} ValuesIff(clean: Text)
    ensures Values(clean).Some? <==> forall u :: u in clean ==> InAlphabet(u)
  {
    if clean == [] {
      NoValues();
    } else {
      var front, last := clean[..|clean| - 1], clean[|clean| - 1];
      ValuesIff(front);
      assert Values(clean).Some? <==> Values(front).Some? && IndexOf(last).Some?;
      assert IndexOf(last).Some? <==> InAlphabet(last);
      assert last in clean && forall u :: u in front ==> u in clean;
      assert forall u :: u in clean ==> u in front || u == last;
    }
  }

  lemma {:induction false} CleanedIff(input: Text)
    ensures (forall u :: u in Clean(input) ==> InAlphabet(u)) <==>
      forall u :: u in input ==>
        || 65 <= u <= 90 || 97 <= u <= 122 || 50 <= u <= 55
        || IsSpace(u) || u == 61 || u == 45
        || u in {0x131, 0x17F, 0xDF} || 0xFB00 <= u <= 0xFB06
  {
    hide Clean;
    if input == [] {
      CleanNothing();
    } else {
      assert input == [input[0]] + input[1..];
      CleanConcat([input[0]], input[1..]);
      CleanedIff(input[1..]);
      OneUnitCleaned(input[0]);
    }
  }

  lemma CleanNothing()
    ensures Clean([]) == []
  {
  }

  lemma OneUnitCleaned(u: CodeUnit)
    ensures (forall c :: c in Clean([u]) ==> InAlphabet(c)) <==>
      || 65 <= u <= 90 || 97 <= u <= 122 || 50 <= u <= 55
      || IsSpace(u) || u == 61 || u == 45
      || u in {0x131, 0x17F, 0xDF} || 0xFB00 <= u <= 0xFB06
  {
    assert [u][1..] == [];
    assert UpperCase([u]) == Upper(u);
    if Upper(u) == [u] {
      if Separator(u) {
        StripAll([u], Separator);
      } else {
        StripNothing([u], Separator);
        assert Clean([u]) == [u] && u in [u];
      }
    } else {
      StripNothing(Upper(u), Separator);
      assert forall c :: c in Upper(u) ==> InAlphabet(c);
    }
  }

  lemma Alphabet(d: int)
    requires 0 <= d < 32
    ensures Symbol(d) == "ABCDEFGHIJKLMNOPQRSTUVWXYZ234567"[d] as int
  {
  }

  /** A secret typed in lower case is the same secret. */
  lemma LowerCaseDecodes(bytes: seq<Byte>)
    ensures Decode(Typed(Encode(bytes))) == Some(bytes)
  {
    hide Decode, Strip, Groups, UpperCase, Typed;
    TypedAndBack(Encode(bytes));
    CleanIsStable(Groups(bytes));
    RoundTrip(bytes, Typed(Encode(bytes)));
  }

  function Typed(text: Text): Text {
    if text == [] then [] else [if 65 <= text[0] <= 90 then text[0] + 32 else text[0]] + Typed(text[1..])
  }

  lemma {:induction false} TypedAndBack(text: Text)
    requires forall i :: 0 <= i < |text| ==> InAlphabet(text[i])
    ensures UpperCase(Typed(text)) == text && UpperCase(text) == text
  {
    if text != [] {
      TypedAndBack(text[1..]);
      assert Typed(text)[1..] == Typed(text[1..]);
    }
  }

  /** Spaces, hyphens and `=` may stand anywhere: groups of four, line breaks, padding at the end. */
  lemma SeparatorsDoNotMatter(a: Text, between: Text, b: Text)
    requires forall u :: u in between ==> Separator(u)
    ensures Decode(a + between + b) == Decode(a + b)
  {
    hide Clean, Values, BytesOf;
    CleanConcat(a + between, b);
    CleanConcat(a, between);
    CleanConcat(a, b);
    CleanSeparators(between);
    assert Clean(a + between + b) == Clean(a + b);
  }

  /** What is decoded is the number the symbols write, without its unused bits. */
  lemma DecodedNumber(values: seq<int>)
    requires AreDigits(values, 32)
    ensures Number(BytesOf(values), 256) == Quot(Number(values, 32), Pow2(RestBits(|values|)))
  {
    WholeBytes(values, RestBits(|values|), ByteCount(|values|));
  }

  lemma WholeBytes(values: seq<int>, rest: nat, count: nat)
    requires AreDigits(values, 32) && 5 * |values| == 8 * count + rest
    ensures Number(Digits(Quot(Number(values, 32), Pow2(rest)), count, 256), 256)
      == Quot(Number(values, 32), Pow2(rest))
  {
    hide Quot, Pow2, Number, Digits;
    FiveBitsEach(values, rest + 8 * count);
    TopBits(Number(values, 32), rest, 8 * count);
    EightBitsEach(Quot(Number(values, 32), Pow2(rest)), count);
  }

  lemma FiveBitsEach(values: seq<int>, total: nat)
    requires AreDigits(values, 32) && 5 * |values| == total
    ensures 0 <= Number(values, 32) < Pow2(total)
  {
    assert Pow2(5) == 32 by { PowersUsed(); }
    NumberBounds(values, 32);
    PowOfPow2(5, |values|);
  }

  lemma EightBitsEach(n: int, count: nat)
    requires 0 <= n < Pow2(8 * count)
    ensures Number(Digits(n, count, 256), 256) == n
  {
    assert Pow2(8) == 256 by { PowersUsed(); }
    PowOfPow2(8, count);
    NumberOfDigits(n, count, 256);
  }

  lemma TopBits(n: int, rest: nat, len: nat)
    requires 0 <= n < Pow2(rest + len)
    ensures 0 <= Quot(n, Pow2(rest)) < Pow2(len)
  {
    hide Quot, Pow2;
    PowAdd(rest, len);
    QuotBelow(n, Pow2(rest), Pow2(len));
  }

  /** A text that decodes is the encoding of what it decodes to exactly when its unused bits are
      zero and there is no symbol more than the bytes need. */
  lemma CanonicalIff(input: Text, bytes: seq<Byte>)
    requires Decode(input) == Some(bytes)
    ensures
      var values := Values(Clean(input)).value;
      Encode(bytes) == Clean(input) <==>
        RestBits(|values|) < 5 && Rem(Number(values, 32), Pow2(RestBits(|values|))) == 0
  {
    hide Clean, Quot, Pow2, Number, Digits, BytesOf, Groups;
    var values := Values(Clean(input)).value;
    SymbolsOfValues(Clean(input));
    DecodedNumber(values);
    SameGroupsIff(values, bytes);
    if Encode(bytes) == Clean(input) {
      ValuesOfSymbols(Groups(bytes));
    }
  }

  lemma SameGroupsIff(values: seq<int>, bytes: seq<Byte>)
    requires AreDigits(values, 32) && BytesOf(values) == bytes
    ensures Groups(bytes) == values <==>
      RestBits(|values|) < 5 && Rem(Number(values, 32), Pow2(RestBits(|values|))) == 0
  {
    hide Quot, Pow2, Number, Digits;
    var n, rest := Number(values, 32), RestBits(|values|);
    DecodedNumber(values);
    GroupsFit(bytes);
    if rest < 5 && Rem(n, Pow2(rest)) == 0 {
      DigitsOfNumber(values, 32);
    }
    if Groups(bytes) == values {
      QuotIs(n, Pow2(rest), Number(bytes, 256));
    }
  }
}
