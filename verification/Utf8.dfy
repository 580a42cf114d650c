/** `String::from_utf8` and `char::is_control` on bytes: the syntax of section 4
    of RFC 3629, and the Unicode control range U+0000..U+001F, U+007F..U+009F. */
module Utf8 {
  import opened Prelude
  import opened TextOps

  predicate Tail(b: byte) { 0x80 <= b <= 0xBF }

  /** How many bytes the first well-formed character takes; 0 if there is none. */
  function Width(s: Text): (w: nat)
    requires s != []
    ensures w <= |s| && w <= 4
    ensures forall i :: 1 <= i < w ==> Tail(s[i])
  {
    var b := s[0];
    if b < 0x80 then 1
    else if |s| >= 2 && 0xC2 <= b <= 0xDF && Tail(s[1]) then 2
    else if |s| >= 3 && Tail(s[1]) && Tail(s[2]) && (
      || (b == 0xE0 && 0xA0 <= s[1])
      || 0xE1 <= b <= 0xEC
      || (b == 0xED && s[1] <= 0x9F)
      || 0xEE <= b <= 0xEF) then 3
    else if |s| >= 4 && Tail(s[1]) && Tail(s[2]) && Tail(s[3]) && (
      || (b == 0xF0 && 0x90 <= s[1])
      || 0xF1 <= b <= 0xF3
      || (b == 0xF4 && s[1] <= 0x8F)) then 4
    else 0
  }

  /** `String::from_utf8(s).is_ok()`. */
  predicate Valid(s: Text)
    decreases |s|
  {
    s == [] || (Width(s) > 0 && Valid(s[Width(s)..]))
  }

  /** The first character is a control character. */
  predicate ControlFirst(s: Text)
    requires s != []
  {
    s[0] < 0x20 || s[0] == 0x7F || (s[0] == 0xC2 && |s| >= 2 && 0x80 <= s[1] <= 0x9F)
  }

  /** `s.chars().any(char::is_control)`, on well-formed text. */
  predicate HasControl(s: Text)
    decreases |s|
  {
    s != [] && Width(s) > 0 && (ControlFirst(s) || HasControl(s[Width(s)..]))
  }

  /** Well-formed and free of control characters. */
  predicate Printable(s: Text) { Valid(s) && !HasControl(s) }

  /** An ASCII byte never lies inside a longer character, so it is a seam that
      well-formedness does not see across. */
  lemma {:induction false} ValidAround(a: Text, c: byte, b: Text)
    requires c < 0x80
    ensures Valid(a + [c] + b) <==> Valid(a) && Valid(b)
    ensures Printable(a + [c] + b) <==> Printable(a) && Printable(b) && 0x20 <= c != 0x7F
    decreases |a|
  {
    var s := a + [c] + b;
    if a == [] {
      assert s[0] == c && s[1..] == b;
    } else {
      assert forall i :: 0 <= i < |a| ==> s[i] == a[i];
      assert s[|a|] == c;
      var w := Width(s);
      assert Width(a) == w;
      if w > 0 {
        ValidAround(a[w..], c, b);
        assert s[w..] == a[w..] + [c] + b;
      }
    }
  }

  lemma {:induction false} ValidLower(s: Text)
    ensures Valid(Lower(s)) == Valid(s)
    ensures Printable(Lower(s)) == Printable(s)
    decreases |s|
  {
    if s != [] {
      var w := Width(s);
      assert Width(Lower(s)) == w;
      if w > 0 {
        assert Lower(s)[w..] == Lower(s[w..]);
        ValidLower(s[w..]);
      }
    }
  }

  /** ASCII text is well-formed. */
  lemma ValidAscii(s: Text)
    requires forall i :: 0 <= i < |s| ==> s[i] < 0x80
    ensures Valid(s)
  {
    if s != [] { ValidAscii(s[1..]); }
  }

  // --- The same, from the characters ---

  /** The Unicode scalar values: every code point but the surrogates. */
  predicate Scalar(c: int) { 0 <= c <= 0xD7FF || 0xE000 <= c <= 0x10FFFF }

  /** The control characters of the general category Cc. */
  predicate Control(c: int) { 0 <= c <= 0x1F || 0x7F <= c <= 0x9F }

  /** One character in UTF-8: the table of section 3 of RFC 3629. */
  function EncodedChar(c: int): (s: Text)
    requires Scalar(c)
    ensures 1 <= |s| <= 4
  {
    if c <= 0x7F then [c]
    else if c <= 0x7FF then [0xC0 + c / 64, 0x80 + c % 64]
    else if c <= 0xFFFF then [0xE0 + c / 4096, 0x80 + c / 64 % 64, 0x80 + c % 64]
    else [0xF0 + c / 262144, 0x80 + c / 4096 % 64, 0x80 + c / 64 % 64, 0x80 + c % 64]
  }

  ghost predicate Scalars(cs: seq<int>) { forall i :: 0 <= i < |cs| ==> Scalar(cs[i]) }

  function Encoded(cs: seq<int>): Text
    requires Scalars(cs)
  {
    if cs == [] then [] else EncodedChar(cs[0]) + Encoded(cs[1..])
  }

  /** A number of two digits in base 64, and its digits. */
  lemma Digits64(high: nat, low: nat)
    requires low < 64
    ensures (high * 64 + low) / 64 == high && (high * 64 + low) % 64 == low
  {}

  lemma TwoByteChar(x: nat, y: nat) returns (c: int)
    requires 2 <= x < 32 && y < 64
    ensures c == x * 64 + y && EncodedChar(c) == [0xC0 + x, 0x80 + y]
  {
    c := x * 64 + y;
    Digits64(x, y);
  }

  lemma ThreeByteChar(x: nat, y: nat, z: nat) returns (c: int)
    requires x < 16 && y < 64 && z < 64 && (x == 0 ==> y >= 32) && (x == 13 ==> y < 32)
    ensures c == (x * 64 + y) * 64 + z
    ensures Scalar(c) && EncodedChar(c) == [0xE0 + x, 0x80 + y, 0x80 + z]
  {
    c := (x * 64 + y) * 64 + z;
    Digits64(x * 64 + y, z);
    Digits64(x, y);
  }

  lemma FourDigits(w: nat, x: nat, y: nat, z: nat)
    requires x < 64 && y < 64 && z < 64
    ensures var c := ((w * 64 + x) * 64 + y) * 64 + z;
      c / 262144 == w && c / 4096 % 64 == x && c / 64 % 64 == y && c % 64 == z
  {
    var high := w * 64 + x;
    Digits64(high * 64 + y, z);
    Digits64(high, y);
    Digits64(w, x);
    assert ((high * 64 + y) * 64 + z) / 64 == high * 64 + y;
    assert ((high * 64 + y) * 64 + z) / 4096 == high;
  }

  lemma FourByteChar(w: nat, x: nat, y: nat, z: nat) returns (c: int)
    requires w < 5 && x < 64 && y < 64 && z < 64 && (w == 0 ==> x >= 16) && (w == 4 ==> x < 16)
    ensures c == ((w * 64 + x) * 64 + y) * 64 + z
    ensures Scalar(c) && EncodedChar(c) == [0xF0 + w, 0x80 + x, 0x80 + y, 0x80 + z]
  {
    c := ((w * 64 + x) * 64 + y) * 64 + z;
    FourDigits(w, x, y, z);
  }

  /** The character a well-formed start encodes. */
  lemma FirstChar(s: Text) returns (c: int)
    requires s != [] && Width(s) > 0
    ensures Scalar(c) && EncodedChar(c) == s[..Width(s)]
    ensures ControlFirst(s) <==> Control(c)
    ensures s[0] < 0x80 <==> c < 0x80
  {
    var w := Width(s);
    var first: int := s[0];
    if w == 1 {
      c := first;
    } else if w == 2 {
      c := TwoByteChar(first - 0xC0, s[1] - 0x80);
    } else if w == 3 {
      c := ThreeByteChar(first - 0xE0, s[1] - 0x80, s[2] - 0x80);
    } else {
      c := FourByteChar(first - 0xF0, s[1] - 0x80, s[2] - 0x80, s[3] - 0x80);
    }
  }

  /** And back: an encoded character is a well-formed start of its own length. */
  lemma WidthOfChar(c: int, rest: Text)
    requires Scalar(c)
    ensures Width(EncodedChar(c) + rest) == |EncodedChar(c)|
    ensures ControlFirst(EncodedChar(c) + rest) <==> Control(c)
  {
    var e := EncodedChar(c);
    var s := e + rest;
    assert forall i :: 0 <= i < |e| ==> s[i] == e[i];
  }

  /** Well-formed text is exactly text that encodes scalar values. */
  lemma ValidExactly(s: Text)
    ensures Valid(s) <==> exists cs :: Scalars(cs) && s == Encoded(cs)
  {
    if Valid(s) {
      var cs := CharsOf(s);
    }
    forall cs | Scalars(cs) && s == Encoded(cs) ensures Valid(s) {
      EncodedValid(cs);
    }
  }

  lemma {:induction false} CharsOf(s: Text) returns (cs: seq<int>)
    requires Valid(s)
    ensures Scalars(cs) && s == Encoded(cs)
    decreases |s|
  {
    if s == [] {
      cs := [];
    } else {
      var c := FirstChar(s);
      var rest := CharsOf(s[Width(s)..]);
      cs := [c] + rest;
      assert cs[1..] == rest;
      assert s == s[..Width(s)] + s[Width(s)..];
    }
  }

  /** And its control characters are those of the range. */
  lemma {:induction false} EncodedValid(cs: seq<int>)
    requires Scalars(cs)
    ensures Valid(Encoded(cs))
    ensures HasControl(Encoded(cs)) <==> exists i :: 0 <= i < |cs| && Control(cs[i])
    decreases |cs|
  {
    if cs != [] {
      var c, rest := cs[0], cs[1..];
      var e := EncodedChar(c);
      EncodedValid(rest);
      WidthOfChar(c, Encoded(rest));
      assert (e + Encoded(rest))[|e|..] == Encoded(rest);
      assert forall i :: 0 <= i < |rest| ==> rest[i] == cs[i + 1];
      assert forall i :: 1 <= i < |cs| ==> cs[i] == rest[i - 1];
    }
  }

  /** An ASCII byte is in encoded text exactly as the character it is. */
  lemma {:induction false} AsciiEncoded(cs: seq<int>, b: byte)
    requires Scalars(cs) && b < 0x80
    ensures b in Encoded(cs) <==> b in cs
    decreases |cs|
  {
    if cs != [] {
      AsciiEncoded(cs[1..], b);
      AsciiChar(cs[0], b);
      assert cs == [cs[0]] + cs[1..];
    }
  }

  lemma AsciiChar(c: int, b: byte)
    requires Scalar(c) && b < 0x80
    ensures b in EncodedChar(c) <==> b == c
  {}
}
