/** Percent-decoding (section 2.1 of RFC 3986): one round, strict. */
module Percent {
  import opened Prelude
  import opened TextOps
  import Utf8

  /** `char::to_digit(16)`. */
  function HexValue(b: byte): (v: Option<int>)
    ensures v.Some? ==> 0 <= v.value < 16
  {
    if 0x30 <= b <= 0x39 then Some(b - 0x30)
    else if 0x41 <= b <= 0x46 then Some(b - 0x37)
    else if 0x61 <= b <= 0x66 then Some(b - 0x57)
    else None
  }

  const CAPITAL_DIGITS := "0123456789ABCDEF"
  const SMALL_DIGITS := "0123456789abcdef"

  /** The sixteen digits, in capitals or not, and no other byte. */
  lemma HexValueExactly(b: byte, v: int)
    ensures |CAPITAL_DIGITS| == |SMALL_DIGITS| == 16
    ensures HexValue(b) == Some(v) <==>
      0 <= v < 16 && (b == CAPITAL_DIGITS[v] as int || b == SMALL_DIGITS[v] as int)
  {}

  predicate IsHex(b: byte) { HexValue(b).Some? }

  function EscapeValue(hi: byte, lo: byte): byte
    requires IsHex(hi) && IsHex(lo)
  {
    HexValue(hi).value * 16 + HexValue(lo).value
  }

  /** The decoded bytes, or None where a `%` does not begin a complete escape. */
  function Decoded(s: Text): Option<Text>
    decreases |s|
  {
    if s == [] then Some([])
    else if s[0] != PERCENT then Prepend([s[0]], Decoded(s[1..]))
    else if |s| >= 3 && IsHex(s[1]) && IsHex(s[2]) then
      Prepend([EscapeValue(s[1], s[2])], Decoded(s[3..]))
    else None
  }

  function Prepend(a: Text, b: Option<Text>): Option<Text> {
    match b
    case None => None
    case Some(t) => Some(a + t)
  }

  /** The decoder as it runs: an index walking the bytes, pushing as it goes. */
  method PercentDecode(raw: Text) returns (r: Option<Text>)
    ensures r == Decoded(raw)
  {
    var out: Text := [];
    var i := 0;
    assert raw[0..] == raw;
    PrependAssoc([], [], Decoded(raw));
    while i < |raw|
      invariant 0 <= i <= |raw|
      invariant Decoded(raw) == Prepend(out, Decoded(raw[i..]))
    {
      var rest := raw[i..];
      if raw[i] != PERCENT {
        assert rest[1..] == raw[i + 1..];
        PrependAssoc(out, [raw[i]], Decoded(raw[i + 1..]));
        out := out + [raw[i]];
        i := i + 1;
        continue;
      }
      if i + 3 > |raw| { return None; }
      var hi, lo := HexValue(raw[i + 1]), HexValue(raw[i + 2]);
      if hi.None? || lo.None? { return None; }
      assert rest[3..] == raw[i + 3..];
      PrependAssoc(out, [EscapeValue(raw[i + 1], raw[i + 2])], Decoded(raw[i + 3..]));
      out := out + [hi.value * 16 + lo.value];
      i := i + 3;
    }
    assert raw[i..] == [] && out + [] == out;
    return Some(out);
  }

  lemma PrependAssoc(a: Text, b: Text, c: Option<Text>)
    ensures Prepend(a, Prepend(b, c)) == Prepend(a + b, c)
    ensures Prepend([], c) == c
  {
    if c.Some? {
      assert a + (b + c.value) == (a + b) + c.value;
      assert [] + c.value == c.value;
    }
  }

  /** A prefix that decodes on its own is a seam of the decoding. */
  lemma {:induction false} DecodedConcat(a: Text, b: Text)
    requires Decoded(a).Some?
    ensures Decoded(a + b) == Prepend(Decoded(a).value, Decoded(b))
    decreases |a|
  {
    PrependAssoc([], [], Decoded(b));
    if a == [] {
      assert a + b == b;
    } else {
      var n := if a[0] == PERCENT then 3 else 1;
      assert (a + b)[n..] == a[n..] + b;
      DecodedConcat(a[n..], b);
      var head := if a[0] == PERCENT then [EscapeValue(a[1], a[2])] else [a[0]];
      PrependAssoc(head, Decoded(a[n..]).value, Decoded(b));
    }
  }

  /** An escape never straddles a byte that is neither `%` nor a hex digit, so
      what stands before such a byte decodes on its own. */
  lemma {:induction false} DecodedBefore(a: Text, c: byte, b: Text)
    requires c != PERCENT && !IsHex(c)
    requires Decoded(a + [c] + b).Some?
    ensures Decoded(a).Some?
    decreases |a|
  {
    var s := a + [c] + b;
    if a != [] {
      assert s[0] == a[0];
      assert s[|a|] == c;
      if a[0] == PERCENT {
        assert |a| >= 3 && s[1] == a[1] && s[2] == a[2];
        assert s[3..] == a[3..] + [c] + b;
        DecodedBefore(a[3..], c, b);
      } else {
        assert s[1..] == a[1..] + [c] + b;
        DecodedBefore(a[1..], c, b);
      }
    }
  }

  lemma {:induction false} DecodedAround(a: Text, c: byte, b: Text)
    requires c != PERCENT && !IsHex(c)
    ensures Decoded(a + [c] + b).Some? <==> Decoded(a).Some? && Decoded(b).Some?
    ensures Decoded(a + [c] + b).Some? ==>
      Decoded(a + [c] + b).value == Decoded(a).value + [c] + Decoded(b).value
  {
    assert ([c] + b)[1..] == b;
    if Decoded(a + [c] + b).Some? { DecodedBefore(a, c, b); }
    if Decoded(a).Some? {
      assert a + [c] + b == a + ([c] + b);
      DecodedConcat(a, [c] + b);
    }
  }

  lemma DecodedPlain(s: Text)
    requires PERCENT !in s
    ensures Decoded(s) == Some(s)
  {
    if s != [] {
      DecodedPlain(s[1..]);
      assert [s[0]] + s[1..] == s;
    }
  }

  /** A byte written as an escape, its digits in either case, decodes to itself. */
  lemma EscapeRoundTrip(v: byte, hi: byte, lo: byte)
    requires hi == CAPITAL_DIGITS[v / 16] as int || hi == SMALL_DIGITS[v / 16] as int
    requires lo == CAPITAL_DIGITS[v % 16] as int || lo == SMALL_DIGITS[v % 16] as int
    ensures Decoded([PERCENT, hi, lo]) == Some([v])
  {
    HexValueExactly(hi, v / 16);
    HexValueExactly(lo, v % 16);
    assert [PERCENT, hi, lo][3..] == [];
    assert [v] + [] == [v];
  }

  /** What both later readings need of a piece of the URI: it decodes, and what
      it decodes to is text. */
  predicate Sound(s: Text) {
    Decoded(s).Some? && Utf8.Valid(Decoded(s).value)
  }

  lemma SoundAround(a: Text, c: byte, b: Text)
    requires c != PERCENT && !IsHex(c) && c < 0x80
    ensures Sound(a + [c] + b) <==> Sound(a) && Sound(b)
  {
    DecodedAround(a, c, b);
    if Decoded(a).Some? && Decoded(b).Some? {
      Utf8.ValidAround(Decoded(a).value, c, Decoded(b).value);
    }
  }

  /** Soundness of a joined text is soundness of every piece. */
  lemma {:induction false} SoundJoin(parts: seq<Text>, c: byte)
    requires c != PERCENT && !IsHex(c) && c < 0x80
    ensures Sound(Join(parts, c)) <==> forall p :: p in parts ==> Sound(p)
  {
    if |parts| > 1 {
      SoundJoin(parts[1..], c);
      SoundAround(parts[0], c, Join(parts[1..], c));
      assert forall p :: p in parts <==> p == parts[0] || p in parts[1..];
    }
  }
}
