/** Base64 as the session ticket uses it (sections 4 and 5 of RFC 4648): two
    alphabets, padding left out or canonical, no stray trailing bits. */
module Base64 {
  import opened Prelude
  import opened TextOps
  import opened Percent
  import Utf8

  datatype Alphabet = UrlSafe | Standard

  type sextet = v: int | 0 <= v < 64

  function Symbol(a: Alphabet, v: sextet): (b: byte)
    ensures 0x2B <= b < 0x7B && b != DOT && b != EQUALS
  {
    if v < 26 then 0x41 + v
    else if v < 52 then 0x61 + (v - 26)
    else if v < 62 then 0x30 + (v - 52)
    else if v == 62 then (if a.UrlSafe? then DASH else 0x2B)
    else (if a.UrlSafe? then UNDERSCORE else SLASH)
  }

  /** Tables 1 and 2 of RFC 4648, which differ in their last two symbols. */
  function Table(a: Alphabet): string {
    CAPITALS + LETTERS + DIGITS + if a.UrlSafe? then "-_" else "+/"
  }

  lemma SymbolsExactly(a: Alphabet, v: sextet)
    ensures |Table(a)| == 64 && Symbol(a, v) == Table(a)[v] as int
  {
    LetterCodes(0);
    DigitCodes(0);
    if v < 26 {
      LetterCodes(v);
      assert Table(a)[v] == CAPITALS[v];
    } else if v < 52 {
      LetterCodes(v - 26);
      assert Table(a)[v] == LETTERS[v - 26];
    } else if v < 62 {
      DigitCodes(v - 52);
      assert Table(a)[v] == DIGITS[v - 52];
    }
  }

  function SymbolValue(a: Alphabet, b: byte): Option<sextet> {
    if 0x41 <= b <= 0x5A then Some(b - 0x41)
    else if 0x61 <= b <= 0x7A then Some(b - 0x61 + 26)
    else if 0x30 <= b <= 0x39 then Some(b - 0x30 + 52)
    else if b == Symbol(a, 62) then Some(62)
    else if b == Symbol(a, 63) then Some(63)
    else None
  }

  // The bits of three bytes a, b, c in four groups, and back.
  function First(a: byte): sextet { a / 4 }
  function Second(a: byte, b: byte): sextet { a % 4 * 16 + b / 16 }
  function Third(b: byte, c: byte): sextet { b % 16 * 4 + c / 64 }
  function Fourth(c: byte): sextet { c % 64 }

  function FirstByte(w: sextet, x: sextet): byte { w * 4 + x / 16 }
  function SecondByte(x: sextet, y: sextet): byte { x % 16 * 16 + y / 4 }
  function ThirdByte(y: sextet, z: sextet): byte { y % 4 * 64 + z }

  /** The four groups are the digits, most significant first and in base 64, of
      the 24-bit number that the three bytes are in base 256. */
  lemma GroupsExactly(a: byte, b: byte, c: byte)
    ensures (a * 256 + b) * 256 + c
         == ((First(a) * 64 + Second(a, b)) * 64 + Third(b, c)) * 64 + Fourth(c)
  {
    assert a == a / 4 * 4 + a % 4;
    assert b == b / 16 * 16 + b % 16;
    assert c == c / 64 * 64 + c % 64;
  }

  /** Three bytes as four six-bit groups, the last group filled up with zeros. */
  function Sextets(s: Text): seq<sextet> {
    if s == [] then []
    else if |s| == 1 then [First(s[0]), Second(s[0], 0)]
    else if |s| == 2 then [First(s[0]), Second(s[0], s[1]), Third(s[1], 0)]
    else [First(s[0]), Second(s[0], s[1]), Third(s[1], s[2]), Fourth(s[2])] + Sextets(s[3..])
  }

  /** Four six-bit groups as three bytes; a short last group only if the bits
      that were filled up are zero. */
  function Bytes(x: seq<sextet>): Option<Text> {
    if x == [] then Some([])
    else if |x| == 1 then None
    else if |x| == 2 then (if x[1] % 16 == 0 then Some([FirstByte(x[0], x[1])]) else None)
    else if |x| == 3 then
      if x[2] % 4 == 0 then Some([FirstByte(x[0], x[1]), SecondByte(x[1], x[2])]) else None
    else
      Prepend([FirstByte(x[0], x[1]), SecondByte(x[1], x[2]), ThirdByte(x[2], x[3])], Bytes(x[4..]))
  }

  function Symbols(a: Alphabet, x: seq<sextet>): (v: Text)
    ensures |v| == |x|
    ensures forall i :: 0 <= i < |x| ==> v[i] == Symbol(a, x[i])
  {
    if x == [] then [] else [Symbol(a, x[0])] + Symbols(a, x[1..])
  }

  function Values(a: Alphabet, v: Text): Option<seq<sextet>> {
    if v == [] then Some([])
    else
      match (SymbolValue(a, v[0]), Values(a, v[1..]))
      case (Some(w), Some(rest)) => Some([w] + rest)
      case _ => None
  }

  function Encoded(a: Alphabet, s: Text): Text { Symbols(a, Sextets(s)) }

  /** `*_NO_PAD.decode`. */
  function DecodedNoPad(a: Alphabet, v: Text): Option<Text> {
    match Values(a, v)
    case None => None
    case Some(x) => Bytes(x)
  }

  /** The `=` that bring a text up to a multiple of four. */
  function Padding(n: nat): Text {
    if n % 4 == 2 then [EQUALS, EQUALS] else if n % 4 == 3 then [EQUALS] else []
  }

  /** A padded text without its padding. */
  function Core(v: Text): Text {
    if EndsWith(v, [EQUALS, EQUALS]) then v[..|v| - 2]
    else if EndsWith(v, [EQUALS]) then v[..|v| - 1]
    else v
  }

  /** `STANDARD.decode`: padding required, and canonical. */
  function DecodedPadded(v: Text): Option<Text> {
    if |v| % 4 != 0 then None else DecodedNoPad(Standard, Core(v))
  }

  /** The decoder of the session module: each form in turn. */
  function Decode(v: Text): Option<Text> {
    match DecodedNoPad(UrlSafe, v)
    case Some(b) => Some(b)
    case None =>
      match DecodedNoPad(Standard, v)
      case Some(b) => Some(b)
      case None => DecodedPadded(v)
  }

  datatype Form = UrlSafeNoPad | StandardNoPad | StandardPadded

  function Printed(f: Form, s: Text): Text {
    match f
    case UrlSafeNoPad => Encoded(UrlSafe, s)
    case StandardNoPad => Encoded(Standard, s)
    case StandardPadded => Encoded(Standard, s) + Padding(|Encoded(Standard, s)|)
  }

  lemma SymbolInverse(a: Alphabet, b: byte, v: sextet)
    ensures SymbolValue(a, b) == Some(v) <==> b == Symbol(a, v)
  {}

  lemma {:induction false} ValuesExactly(a: Alphabet, v: Text, x: seq<sextet>)
    ensures Values(a, v) == Some(x) <==> v == Symbols(a, x)
    decreases |v|
  {
    if v != [] && x != [] {
      SymbolInverse(a, v[0], x[0]);
      ValuesExactly(a, v[1..], x[1..]);
      ConsEqual(v, Symbol(a, x[0]), Symbols(a, x[1..]));
      if Values(a, v[1..]).Some? && SymbolValue(a, v[0]).Some? {
        ConsEqual(x, SymbolValue(a, v[0]).value, Values(a, v[1..]).value);
      }
    }
  }

  lemma ConsEqual<T>(s: seq<T>, head: T, tail: seq<T>)
    requires s != []
    ensures s == [head] + tail <==> s[0] == head && s[1..] == tail
  {
    assert s == [s[0]] + s[1..];
    assert ([head] + tail)[1..] == tail;
  }

  lemma Packed(a: byte, b: byte, c: byte)
    ensures FirstByte(First(a), Second(a, b)) == a
    ensures SecondByte(Second(a, b), Third(b, c)) == b
    ensures ThirdByte(Third(b, c), Fourth(c)) == c
  {
    Halves(a % 4, b / 16, 16);
    Halves(b % 16, c / 64, 4);
  }

  lemma Unpacked(w: sextet, x: sextet, y: sextet, z: sextet)
    ensures First(FirstByte(w, x)) == w && Second(FirstByte(w, x), SecondByte(x, y)) == x
    ensures Third(SecondByte(x, y), ThirdByte(y, z)) == y && Fourth(ThirdByte(y, z)) == z
  {
    Halves(w, x / 16, 4);
    Halves(x % 16, y / 4, 16);
    Halves(y % 4, z, 64);
  }

  /** Two digits of one number come apart again. */
  lemma Halves(high: nat, low: nat, base: nat)
    requires low < base && base in {4, 16, 64}
    ensures (high * base + low) / base == high && (high * base + low) % base == low
  {
    if base == 4 {
      assert (high * 4 + low) / 4 == high && (high * 4 + low) % 4 == low;
    } else if base == 16 {
      assert (high * 16 + low) / 16 == high && (high * 16 + low) % 16 == low;
    } else {
      assert (high * 64 + low) / 64 == high && (high * 64 + low) % 64 == low;
    }
  }

  lemma Group(a: byte, b: byte, c: byte, w: sextet, x: sextet, y: sextet, z: sextet)
    ensures First(a) == w && Second(a, b) == x && Third(b, c) == y && Fourth(c) == z
       <==> a == FirstByte(w, x) && b == SecondByte(x, y) && c == ThirdByte(y, z)
  {
    Packed(a, b, c);
    Unpacked(w, x, y, z);
  }

  lemma {:induction false} BytesExactly(x: seq<sextet>, s: Text)
    ensures Bytes(x) == Some(s) <==> x == Sextets(s)
    decreases |x|
  {
    if |x| >= 4 && |s| >= 3 {
      Group(s[0], s[1], s[2], x[0], x[1], x[2], x[3]);
      BytesExactly(x[4..], s[3..]);
      assert s == [s[0], s[1], s[2]] + s[3..];
      assert x == [x[0], x[1], x[2], x[3]] + x[4..];
    } else if |x| == 2 && |s| == 1 {
      OneByte(s[0], x[0], x[1]);
      assert x == [x[0], x[1]] && s == [s[0]];
    } else if |x| == 3 && |s| == 2 {
      TwoBytes(s[0], s[1], x[0], x[1], x[2]);
      assert x == [x[0], x[1], x[2]] && s == [s[0], s[1]];
    }
  }

  lemma OneByte(a: byte, w: sextet, x: sextet)
    ensures First(a) == w && Second(a, 0) == x <==> x % 16 == 0 && a == FirstByte(w, x)
  {}

  lemma TwoBytes(a: byte, b: byte, w: sextet, x: sextet, y: sextet)
    ensures First(a) == w && Second(a, b) == x && Third(b, 0) == y
       <==> y % 4 == 0 && a == FirstByte(w, x) && b == SecondByte(x, y)
  {}

  /** The decoder accepts exactly what the encoder prints, and gives it back. */
  lemma DecodesExactly(a: Alphabet, s: Text, v: Text)
    ensures DecodedNoPad(a, v) == Some(s) <==> v == Encoded(a, s)
  {
    ValuesExactly(a, v, Sextets(s));
    BytesExactly(Sextets(s), s);
    if DecodedNoPad(a, v) == Some(s) { BytesExactly(Values(a, v).value, s); }
  }

  lemma {:induction false} Lengths(s: Text)
    ensures |Sextets(s)| % 4 != 1
    decreases |s|
  {
    if |s| >= 3 { Lengths(s[3..]); }
  }

  lemma EncodedSymbols(a: Alphabet, s: Text)
    ensures |Encoded(a, s)| % 4 != 1
    ensures forall i :: 0 <= i < |Encoded(a, s)| ==>
      0x2B <= Encoded(a, s)[i] < 0x7B && Encoded(a, s)[i] != DOT && Encoded(a, s)[i] != EQUALS
  {
    Lengths(s);
  }

  /** Where both alphabets read a text, they read it alike. */
  lemma {:induction false} AlphabetsAgree(v: Text)
    requires Values(UrlSafe, v).Some? && Values(Standard, v).Some?
    ensures Values(UrlSafe, v) == Values(Standard, v)
  {
    if v != [] { AlphabetsAgree(v[1..]); }
  }

  /** Padding is added and taken off without loss. */
  lemma PaddingSeam(e: Text)
    requires |e| % 4 != 1 && EQUALS !in e
    ensures |e + Padding(|e|)| % 4 == 0 && Core(e + Padding(|e|)) == e
  {
    var v := e + Padding(|e|);
    if |e| % 4 == 2 {
      assert v[..|v| - 2] == e && v[|v| - 2..] == [EQUALS, EQUALS];
    } else if |e| % 4 == 3 {
      assert v[..|v| - 1] == e && v[|v| - 1..] == [EQUALS] && v[|v| - 2] == e[|e| - 1];
    } else {
      assert v == e;
      if v != [] { assert v[|v| - 1] == e[|e| - 1] && e[|e| - 1] in e; }
    }
  }

  lemma CoreSeam(v: Text)
    requires |v| % 4 == 0
    ensures v == Core(v) + Padding(|Core(v)|)
  {
    if EndsWith(v, [EQUALS, EQUALS]) {
      assert v == v[..|v| - 2] + [EQUALS, EQUALS];
    } else if EndsWith(v, [EQUALS]) {
      assert v == v[..|v| - 1] + [EQUALS];
    }
  }

  lemma PaddedExactly(s: Text, v: Text)
    ensures DecodedPadded(v) == Some(s) <==> v == Printed(StandardPadded, s)
  {
    var e := Encoded(Standard, s);
    EncodedSymbols(Standard, s);
    PaddingSeam(e);
    if |v| % 4 == 0 {
      CoreSeam(v);
      DecodesExactly(Standard, s, Core(v));
    }
  }

  /** Decode reads the three printed forms, and nothing else. */
  lemma DecodeExactly(s: Text, v: Text)
    ensures Decode(v) == Some(s) <==> exists f :: v == Printed(f, s)
  {
    DecodesExactly(UrlSafe, s, v);
    DecodesExactly(Standard, s, v);
    PaddedExactly(s, v);
    assert v == Printed(UrlSafeNoPad, s) <==> DecodedNoPad(UrlSafe, v) == Some(s);
    assert v == Printed(StandardNoPad, s) <==> DecodedNoPad(Standard, v) == Some(s);
    if v == Printed(StandardPadded, s) { PaddedNeedsPadding(s, v); }
    if Values(UrlSafe, v).Some? && Values(Standard, v).Some? { AlphabetsAgree(v); }
  }

  /** An unpadded decoder reads a padded text only when no padding was due. */
  lemma PaddedNeedsPadding(s: Text, v: Text)
    requires v == Printed(StandardPadded, s)
    ensures DecodedNoPad(UrlSafe, v).Some? || DecodedNoPad(Standard, v).Some? ==> v == Encoded(Standard, s)
  {
    var e := Encoded(Standard, s);
    if v != e {
      assert v[|e|] == EQUALS;
      forall a, t ensures DecodedNoPad(a, v) != Some(t) {
        DecodesExactly(a, t, v);
        EncodedSymbols(a, t);
      }
    }
  }

  /** No printed form holds a `.` or a `|`. */
  lemma PrintedBytes(f: Form, s: Text)
    ensures DOT !in Printed(f, s) && BAR !in Printed(f, s)
    ensures Utf8.Valid(Printed(f, s))
  {
    EncodedSymbols(UrlSafe, s);
    EncodedSymbols(Standard, s);
    Utf8.ValidAscii(Printed(f, s));
  }
}
