/** Hexadecimal text as the Python and the Rust side read and write it. */
module HexText {
  import opened Bytes

  predicate IsHexDigit(c: char) {
    '0' <= c <= '9' || 'a' <= c <= 'f' || 'A' <= c <= 'F'
  }

  function HexValue(c: char): (v: nat)
    requires IsHexDigit(c)
    ensures v < 16
  {
    if c <= '9' then c as int - '0' as int
    else if c <= 'F' then c as int - 'A' as int + 10
    else c as int - 'a' as int + 10
  }

  function HexChar(v: nat): (c: char)
    requires v < 16
    ensures IsHexDigit(c) && HexValue(c) == v && IsLowerHexDigit(c)
  {
    if v < 10 then ('0' as int + v) as char else ('a' as int + v - 10) as char
  }

  predicate IsLowerHexDigit(c: char) {
    '0' <= c <= '9' || 'a' <= c <= 'f'
  }

  predicate IsSpace(c: char) {
    c == ' ' || '\t' <= c <= '\r'
  }

  /** The digits in order, in both cases. */
  lemma DigitsByValue(v: nat)
    requires v < 16
    ensures HexChar(v) == "0123456789abcdef"[v]
    ensures var upper := "0123456789ABCDEF"[v]; IsHexDigit(upper) && HexValue(upper) == v
  {
  }

  /** There are no other digits, and six characters may stand between two bytes. */
  lemma DigitsAndSpaces(c: char)
    ensures IsHexDigit(c) <==> c in "0123456789abcdefABCDEF"
    ensures IsLowerHexDigit(c) <==> c in "0123456789abcdef"
    ensures IsSpace(c) <==> c in " \t\n\U{B}\U{C}\r"
  {
    var lower, upper := "0123456789abcdef", "ABCDEF";
    assert "0123456789abcdefABCDEF" == lower + upper;
    assert '0' <= c <= '9' ==> lower[c as int - '0' as int] == c;
    assert 'a' <= c <= 'f' ==> lower[c as int - 'a' as int + 10] == c;
    assert 'A' <= c <= 'F' ==> upper[c as int - 'A' as int] == c;
  }

  predicate HasPrefix(s: string) {
    |s| >= 2 && s[0] == '0' && s[1] == 'x'
  }

  /** Two lower-case digits a byte: Python's bytes.hex(). */
  function ToHex(s: seq<Byte>): string {
    if s == [] then "" else [HexChar(s[0] / 16), HexChar(s[0] % 16)] + ToHex(s[1..])
  }

  /** Every byte is written as its two digits, the high one first. */
  lemma {:induction false} ToHexAt(s: seq<Byte>, i: nat)
    requires i < |s|
    ensures |ToHex(s)| == 2 * |s|
    ensures ToHex(s)[2 * i] == "0123456789abcdef"[s[i] / 16] && ToHex(s)[2 * i + 1] == "0123456789abcdef"[s[i] % 16]
  {
    hide HexChar;
    if i == 0 {
      DigitsByValue(s[0] / 16);
      DigitsByValue(s[0] % 16);
      ToHexLength(s);
    } else {
      ToHexAt(s[1..], i - 1);
      assert ToHex(s)[2..] == ToHex(s[1..]);
    }
  }

  lemma {:induction false} ToHexLength(s: seq<Byte>)
    ensures |ToHex(s)| == 2 * |s|
  {
    if s != [] {
      ToHexLength(s[1..]);
    }
  }

  /** Rust's hex::decode: digit pairs of either case and nothing else. */
  function DecodeStrict(s: string): Option<seq<Byte>> {
    if s == "" then Some([])
    else if |s| < 2 || !IsHexDigit(s[0]) || !IsHexDigit(s[1]) then None
    else
      match DecodeStrict(s[2..])
      case None => None
      case Some(rest) => Some([16 * HexValue(s[0]) + HexValue(s[1])] + rest)
  }

  /** Python's bytes.fromhex: digit pairs of either case, with white space allowed between pairs. */
  function DecodeSpaced(s: string): Option<seq<Byte>> {
    if s == "" then Some([])
    else if IsSpace(s[0]) then DecodeSpaced(s[1..])
    else if |s| < 2 || !IsHexDigit(s[0]) || !IsHexDigit(s[1]) then None
    else
      match DecodeSpaced(s[2..])
      case None => None
      case Some(rest) => Some([16 * HexValue(s[0]) + HexValue(s[1])] + rest)
  }

  /** 0x and lower-case digits only: the one spelling that bytes.hex() produces. */
  predicate Canonical(s: string) {
    HasPrefix(s) && forall i :: 2 <= i < |s| ==> IsLowerHexDigit(s[i])
  }

  function Lower(c: char): char {
    if 'A' <= c <= 'Z' then (c as int + 32) as char else c
  }

  function LowerText(s: string): string {
    if s == "" then "" else [Lower(s[0])] + LowerText(s[1..])
  }

  lemma {:induction false} LowerTextLength(s: string)
    ensures |LowerText(s)| == |s|
  {
    if s != "" {
      LowerTextLength(s[1..]);
    }
  }

  lemma ByteDigits(x: Byte)
    ensures 16 * HexValue(HexChar(x / 16)) + HexValue(HexChar(x % 16)) == x
    ensures !IsSpace(HexChar(x / 16))
  {
  }

  /** What a pair of digits in front adds to a decoding. */
  lemma DecodePair(a: char, b: char, rest: string)
    requires IsHexDigit(a) && IsHexDigit(b) && !IsSpace(a)
    ensures DecodeStrict([a, b] + rest)
            == (match DecodeStrict(rest) case None => None case Some(t) => Some([16 * HexValue(a) + HexValue(b)] + t))
    ensures DecodeSpaced([a, b] + rest)
            == (match DecodeSpaced(rest) case None => None case Some(t) => Some([16 * HexValue(a) + HexValue(b)] + t))
  {
    assert ([a, b] + rest)[2..] == rest;
  }

  lemma {:induction false} ToHexReadsBack(s: seq<Byte>)
    ensures DecodeStrict(ToHex(s)) == Some(s) && DecodeSpaced(ToHex(s)) == Some(s)
  {
    if s != [] {
      ToHexReadsBack(s[1..]);
      NextByteReadsBack(s[0], s[1..]);
      assert [s[0]] + s[1..] == s;
    }
  }

  lemma NextByteReadsBack(x: Byte, s: seq<Byte>)
    requires DecodeStrict(ToHex(s)) == Some(s) && DecodeSpaced(ToHex(s)) == Some(s)
    ensures DecodeStrict(ToHex([x] + s)) == Some([x] + s) && DecodeSpaced(ToHex([x] + s)) == Some([x] + s)
  {
    hide HexValue, HexChar, IsLowerHexDigit, IsHexDigit, IsSpace, DecodeStrict, DecodeSpaced;
    var a, b := HexChar(x / 16), HexChar(x % 16);
    ByteDigits(x);
    DecodePair(a, b, ToHex(s));
    assert ([x] + s)[1..] == s;
  }

  lemma {:induction false} ToHexIsLower(s: seq<Byte>)
    ensures forall i :: 0 <= i < |ToHex(s)| ==> IsLowerHexDigit(ToHex(s)[i])
  {
    hide HexValue, HexChar, IsLowerHexDigit, IsHexDigit;
    if s != [] {
      ToHexIsLower(s[1..]);
    }
  }

  lemma LowerDigits(a: char, b: char)
    requires IsLowerHexDigit(a) && IsLowerHexDigit(b)
    ensures IsHexDigit(a) && IsHexDigit(b) && !IsSpace(a)
    ensures var x := 16 * HexValue(a) + HexValue(b);
            x < 256 && HexChar(x / 16) == a && HexChar(x % 16) == b
  {
    var x := 16 * HexValue(a) + HexValue(b);
    assert x / 16 == HexValue(a) && x % 16 == HexValue(b);
  }

  /** A lower-case spelling without spaces is what bytes.hex() gives back. */
  lemma {:induction false} CanonicalReadsBack(s: string)
    requires forall i :: 0 <= i < |s| ==> IsLowerHexDigit(s[i])
    ensures DecodeSpaced(s).Some? ==> ToHex(DecodeSpaced(s).value) == s
  {
    hide HexValue, IsLowerHexDigit, IsHexDigit, IsSpace, HexChar;
    if |s| >= 2 && DecodeSpaced(s).Some? {
      LowerDigits(s[0], s[1]);
      var rest := s[2..];
      CanonicalReadsBack(rest);
      assert s == [s[0], s[1]] + rest;
      DecodePair(s[0], s[1], rest);
      var b := DecodeSpaced(s).value;
      assert b[1..] == DecodeSpaced(rest).value;
    } else if |s| == 1 {
      OneDigit(s);
    }
  }

  lemma OneDigit(s: string)
    requires |s| == 1 && IsLowerHexDigit(s[0])
    ensures DecodeSpaced(s).None?
  {
  }

  lemma PrefixedHexCanonical(b: seq<Byte>)
    ensures Canonical("0x" + ToHex(b))
    ensures ("0x" + ToHex(b))[2..] == ToHex(b)
  {
    ToHexIsLower(b);
  }

  lemma {:induction false} LowerTextUnchanged(s: string)
    requires forall i :: 0 <= i < |s| ==> Lower(s[i]) == s[i]
    ensures LowerText(s) == s
  {
    if s != "" {
      LowerTextUnchanged(s[1..]);
    }
  }

  lemma CanonicalIsLower(s: string)
    requires Canonical(s)
    ensures LowerText(s) == s
  {
    forall i | 0 <= i < |s|
      ensures Lower(s[i]) == s[i]
    {
      if i >= 2 {
        assert IsLowerHexDigit(s[i]);
      }
    }
    LowerTextUnchanged(s);
  }

  // ---- white space ----

  function NoSpaces(s: string): string {
    if s == "" then "" else if IsSpace(s[0]) then NoSpaces(s[1..]) else [s[0]] + NoSpaces(s[1..])
  }

  lemma AnyDigits(a: char, b: char)
    requires IsHexDigit(a) && IsHexDigit(b)
    ensures !IsSpace(a) && !IsSpace(b)
    ensures var x := 16 * HexValue(a) + HexValue(b);
            x < 256 && HexChar(x / 16) == Lower(a) && HexChar(x % 16) == Lower(b)
  {
    var x := 16 * HexValue(a) + HexValue(b);
    assert x / 16 == HexValue(a) && x % 16 == HexValue(b);
    DigitLowers(a);
    DigitLowers(b);
  }

  lemma DigitLowers(a: char)
    requires IsHexDigit(a)
    ensures HexChar(HexValue(a)) == Lower(a)
  {
  }

  lemma TwoInFront(a: char, b: char, s: string)
    requires !IsSpace(a) && !IsSpace(b)
    ensures LowerText(NoSpaces([a, b] + s)) == [Lower(a), Lower(b)] + LowerText(NoSpaces(s))
  {
    hide IsSpace, Lower;
    assert ([a, b] + s)[1..] == [b] + s && ([b] + s)[1..] == s;
    var t := NoSpaces(s);
    assert NoSpaces([a, b] + s) == [a] + ([b] + t);
    assert ([a] + ([b] + t))[1..] == [b] + t && ([b] + t)[1..] == t;
  }

  /** A text that reads as bytes spells them, once white space is dropped and letters are lowered. */
  lemma {:induction false} SpacedTextSpells(s: string)
    requires DecodeSpaced(s).Some?
    ensures ToHex(DecodeSpaced(s).value) == LowerText(NoSpaces(s))
  {
    hide HexValue, HexChar, IsHexDigit, IsSpace, Lower;
    if s == "" {
    } else if IsSpace(s[0]) {
      SpacedTextSpells(s[1..]);
    } else {
      var a, b, rest := s[0], s[1], s[2..];
      AnyDigits(a, b);
      SpacedTextSpells(rest);
      assert s == [a, b] + rest;
      TwoInFront(a, b, rest);
      var bytes := DecodeSpaced(s).value;
      assert bytes[1..] == DecodeSpaced(rest).value;
    }
  }

  // ---- strict decoding ----

  /** A text reads as bytes exactly when it spells them in digits of either case. */
  lemma {:induction false} DecodeStrictExactly(s: string, raw: seq<Byte>)
    ensures DecodeStrict(s) == Some(raw) <==> LowerText(s) == ToHex(raw)
  {
    hide HexValue, HexChar, IsHexDigit, Lower;
    LowerTextLength(s);
    ToHexLength(raw);
    if |s| >= 2 && raw != [] {
      var a, b, x := s[0], s[1], raw[0];
      DigitReads(a, x / 16);
      DigitReads(b, x % 16);
      DecodeStrictExactly(s[2..], raw[1..]);
      LowerTwo(s);
      assert raw == [x] + raw[1..];
      assert LowerText(s) == ToHex(raw)
          <==> Lower(a) == HexChar(x / 16) && Lower(b) == HexChar(x % 16) && LowerText(s[2..]) == ToHex(raw[1..])
      by {
        PairsEqual(Lower(a), Lower(b), LowerText(s[2..]), HexChar(x / 16), HexChar(x % 16), ToHex(raw[1..]));
      }
    }
  }

  lemma LowerTwo(s: string)
    requires |s| >= 2
    ensures LowerText(s) == [Lower(s[0]), Lower(s[1])] + LowerText(s[2..])
  {
    assert s[1..][1..] == s[2..];
  }

  lemma PairsEqual(a: char, b: char, s: string, c: char, d: char, t: string)
    ensures [a, b] + s == [c, d] + t <==> a == c && b == d && s == t
  {
    if [a, b] + s == [c, d] + t {
      assert ([a, b] + s)[0] == ([c, d] + t)[0] && ([a, b] + s)[1] == ([c, d] + t)[1];
      assert ([a, b] + s)[2..] == s && ([c, d] + t)[2..] == t;
    }
  }

  lemma DigitReads(c: char, v: nat)
    requires v < 16
    ensures Lower(c) == HexChar(v) <==> IsHexDigit(c) && HexValue(c) == v
  {
  }
}
