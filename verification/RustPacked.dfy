/** The Rust side of the packed batch: number parsing, the encoder, and the byte-level validator. */
module RustPacked {
  import opened Bytes
  import opened HexText

  // ---- numerals: what a text of digits means ----

  predicate AllDecimal(s: string) {
    forall i :: 0 <= i < |s| ==> '0' <= s[i] <= '9'
  }

  predicate AllHex(s: string) {
    forall i :: 0 <= i < |s| ==> IsHexDigit(s[i])
  }

  function DecimalValue(s: string): nat
    requires AllDecimal(s)
  {
    if s == "" then 0 else 10 * DecimalValue(s[..|s| - 1]) + (s[|s| - 1] as int - '0' as int)
  }

  function HexadecimalValue(s: string): nat
    requires AllHex(s)
  {
    if s == "" then 0 else 16 * HexadecimalValue(s[..|s| - 1]) + HexValue(s[|s| - 1])
  }

  /** The number a text stands for: 0x and hexadecimal digits, or decimal digits; no digits at all is zero. */
  function NumeralValue(s: string): Option<nat> {
    if HasPrefix(s) then
      if AllHex(s[2..]) then Some(HexadecimalValue(s[2..])) else None
    else if AllDecimal(s) then Some(DecimalValue(s)) else None
  }

  // ---- decimal_to_be_bytes ----

  /** No leading zero byte, except that zero itself is one zero byte. */
  predicate Minimal(s: seq<Byte>) {
    s == [0] || (s != [] && s[0] != 0)
  }

  /** One digit: every byte times ten plus the carry, from the last byte to the first, in place. */
  method MultiplyAdd(bytes: seq<Byte>, digit: nat) returns (out: seq<Byte>, carry: nat)
    requires digit <= 9
    ensures |out| == |bytes| && carry <= 9
    ensures carry * Pow256(|out|) + FromBE(out) == 10 * FromBE(bytes) + digit
  {
    out, carry := bytes, digit;
    var i := |out|;
    assert out[i..] == [];
    while i > 0
      invariant 0 <= i <= |out| == |bytes|
      invariant carry <= 9
      invariant out[..i] == bytes[..i]
      invariant carry * Pow256(|out| - i) + FromBE(out[i..]) == 10 * FromBE(bytes[i..]) + digit
    {
      i := i - 1;
      var byte: nat := out[i];
      var v := byte * 10 + carry;
      MultiplyAddStep(bytes[i + 1..], out[i + 1..], byte, digit, carry, v / 256, v % 256);
      assert bytes[i..] == [byte] + bytes[i + 1..];
      assert out[i + 1..] == out[i := v % 256][i + 1..];
      assert out[i := v % 256][i..] == [v % 256] + out[i + 1..];
      out := out[i := v % 256];
      carry := v / 256;
    }
    assert out[0..] == out && bytes[0..] == bytes;
  }

  lemma MultiplyAddStep(before: seq<Byte>, after: seq<Byte>, b: Byte, digit: nat, carry: nat, q: nat, r: Byte)
    requires |before| == |after|
    requires carry * Pow256(|after|) + FromBE(after) == 10 * FromBE(before) + digit
    requires b * 10 + carry == 256 * q + r
    ensures q * Pow256(|after| + 1) + FromBE([r] + after) == 10 * FromBE([b] + before) + digit
  {
    hide *;
    FromBEPrepend(b, before);
    FromBEPrepend(r, after);
    Pow256Next(|after|);
    Distribute(q, r, b, carry, Pow256(|after|));
  }

  lemma Distribute(q: nat, r: nat, b: nat, carry: nat, p: nat)
    requires b * 10 + carry == 256 * q + r
    ensures q * (256 * p) + r * p == 10 * (b * p) + carry * p
  {
    calc {
      q * (256 * p) + r * p;
      (256 * q + r) * p;
      (b * 10 + carry) * p;
      10 * (b * p) + carry * p;
    }
  }

  /** A minimal string of more than n bytes spells at least 256^n. */
  lemma MinimalIsLarge(s: seq<Byte>, n: nat)
    requires Minimal(s) && n >= 1 && |s| > n
    ensures FromBE(s) >= Pow256(n)
  {
    assert s == [s[0]] + s[1..];
    FromBEPrepend(s[0], s[1..]);
    Pow256Monotone(n, |s| - 1);
    TimesAtLeast(s[0], Pow256(|s| - 1));
  }

  lemma TimesAtLeast(a: nat, p: nat)
    requires a >= 1
    ensures a * p >= p
  {
    assert a * p == (a - 1) * p + p;
  }

  lemma MinimalIsSmall(s: seq<Byte>, n: nat)
    requires |s| <= n
    ensures FromBE(s) < Pow256(n)
  {
    ToFromBE(s);
    Pow256Monotone(|s|, n);
  }

  lemma {:induction false} DecimalValueGrows(s: string, k: nat)
    requires AllDecimal(s) && k <= |s|
    ensures DecimalValue(s[..k]) <= DecimalValue(s)
  {
    if k == |s| {
      assert s[..k] == s;
    } else {
      var t := s[..|s| - 1];
      assert t[..k] == s[..k];
      DecimalValueGrows(t, k);
    }
  }

  /** Growing by the carry keeps the string minimal. */
  lemma StaysMinimal(bytes: seq<Byte>, out: seq<Byte>, carry: nat, digit: nat)
    requires Minimal(bytes) && |out| == |bytes| && carry <= 9 && digit <= 9
    requires carry * Pow256(|out|) + FromBE(out) == 10 * FromBE(bytes) + digit
    ensures Minimal(if carry > 0 then [carry] + out else out)
  {
    if carry == 0 && |out| > 1 && out[0] == 0 {
      assert bytes == [bytes[0]] + bytes[1..] && out == [out[0]] + out[1..];
      FromBEPrepend(bytes[0], bytes[1..]);
      FromBEPrepend(0, out[1..]);
      ToFromBE(out[1..]);
      TimesAtLeast(bytes[0], Pow256(|out| - 1));
    }
  }

  /** decimal_to_be_bytes: the digits so far are always held as their minimal big-endian bytes. */
  method DecimalToBeBytes(value: string, n: nat) returns (r: Option<seq<Byte>>)
    ensures r.Some? <==> n > 0 && value != "" && AllDecimal(value) && DecimalValue(value) < Pow256(n)
    ensures r.Some? ==> Minimal(r.value) && |r.value| <= n && FromBE(r.value) == DecimalValue(value)
  {
    if value == "" || !AllDecimal(value) { return None; }
    var out: seq<Byte> := [0];
    assert FromBE([0]) == FromBE([]) * 256 + 0;
    for i := 0 to |value|
      invariant Minimal(out) && (i > 0 || n > 0 ==> |out| <= n)
      invariant FromBE(out) == DecimalValue(value[..i])
    {
      var digit := value[i] as int - '0' as int;
      var next, carry := MultiplyAdd(out, digit);
      assert value[..i + 1][..i] == value[..i];
      StaysMinimal(out, next, carry, digit);
      FromBEPrepend(carry, next);
      out := if carry > 0 then [carry] + next else next;
      if |out| > n {
        if n > 0 {
          MinimalIsLarge(out, n);
          DecimalValueGrows(value, i + 1);
        }
        return None;
      }
    }
    assert value[..|value|] == value;
    MinimalIsSmall(out, n);
    return Some(out);
  }

  // ---- parse_uint ----

  lemma {:induction false} DecodeStrictValue(s: string)
    requires |s| % 2 == 0
    ensures DecodeStrict(s).Some? <==> AllHex(s)
    ensures AllHex(s) ==> FromBE(DecodeStrict(s).value) == HexadecimalValue(s) && 2 * |DecodeStrict(s).value| == |s|
  {
    if s == "" {
    } else {
      DecodeStrictValue(s[2..]);
      if AllHex(s) {
        var rest := DecodeStrict(s[2..]).value;
        FromBEPrepend(16 * HexValue(s[0]) + HexValue(s[1]), rest);
        HexPairInFront(s);
        Pow16Pairs(|rest|);
      } else if IsHexDigit(s[0]) && IsHexDigit(s[1]) {
        var i :| 0 <= i < |s| && !IsHexDigit(s[i]);
        assert s[2..][i - 2] == s[i];
      }
    }
  }

  function Pow16(k: nat): nat {
    if k == 0 then 1 else 16 * Pow16(k - 1)
  }

  lemma {:induction false} Pow16Pairs(k: nat)
    ensures Pow16(2 * k) == Pow256(k)
  {
    if k > 0 {
      Pow16Pairs(k - 1);
      assert Pow16(2 * k) == 16 * Pow16(2 * k - 1) == 16 * (16 * Pow16(2 * (k - 1)));
    }
  }

  lemma Pow16Next(k: nat)
    ensures Pow16(k + 1) == 16 * Pow16(k)
  {
  }

  lemma LastDigit(s: string)
    requires s != "" && AllHex(s)
    ensures HexadecimalValue(s) == 16 * HexadecimalValue(s[..|s| - 1]) + HexValue(s[|s| - 1])
  {
  }

  lemma {:induction false} HexDigitInFront(s: string)
    requires s != "" && AllHex(s)
    ensures AllHex(s[1..])
    ensures HexadecimalValue(s) == HexValue(s[0]) * Pow16(|s| - 1) + HexadecimalValue(s[1..])
  {
    hide HexadecimalValue, Pow16, HexValue;
    LastDigit(s);
    if |s| == 1 {
      assert s[..0] == "" && s[1..] == "";
      EmptyNumeral();
    } else {
      var t, u := s[..|s| - 1], s[1..];
      LastDigit(u);
      HexDigitInFront(t);
      assert t[1..] == u[..|u| - 1];
      assert u[|u| - 1] == s[|s| - 1];
      Pow16Next(|t| - 1);
      ShiftDigit(HexValue(s[0]), Pow16(|t| - 1), HexadecimalValue(t[1..]));
    }
  }

  lemma EmptyNumeral()
    ensures HexadecimalValue("") == 0 && Pow16(0) == 1
  {
  }

  lemma ShiftDigit(h: nat, p: nat, rest: nat)
    ensures 16 * (h * p + rest) == h * (16 * p) + 16 * rest
  {
  }

  lemma JoinDigits(a: nat, b: nat, p: nat)
    ensures a * (16 * p) + b * p == (16 * a + b) * p
  {
  }

  lemma HexPairInFront(s: string)
    requires |s| >= 2 && AllHex(s)
    ensures AllHex(s[2..])
    ensures HexadecimalValue(s) == (16 * HexValue(s[0]) + HexValue(s[1])) * Pow16(|s| - 2) + HexadecimalValue(s[2..])
  {
    hide HexadecimalValue, Pow16, HexValue;
    HexDigitInFront(s);
    HexDigitInFront(s[1..]);
    assert s[1..][1..] == s[2..];
    Pow16Next(|s| - 2);
    JoinDigits(HexValue(s[0]), HexValue(s[1]), Pow16(|s| - 2));
  }

  lemma LeadingZeroDigit(s: string)
    requires AllHex(s)
    ensures AllHex("0" + s) && HexadecimalValue("0" + s) == HexadecimalValue(s)
  {
    assert ("0" + s)[1..] == s;
    HexDigitInFront("0" + s);
  }

  /** decoded.remove(0) while the first of several bytes is zero. */
  method StripZeros(bytes: seq<Byte>) returns (out: seq<Byte>)
    ensures FromBE(out) == FromBE(bytes) && |out| <= |bytes|
    ensures bytes != [] ==> Minimal(out)
  {
    out := bytes;
    while |out| > 1 && out[0] == 0
      invariant FromBE(out) == FromBE(bytes) && |out| <= |bytes|
      invariant bytes != [] ==> out != []
    {
      assert out == [out[0]] + out[1..];
      FromBEPrepend(out[0], out[1..]);
      out := out[1..];
    }
  }

  lemma {:induction false} ZeroPadded(k: nat, s: seq<Byte>)
    ensures FromBE(Zeros(k) + s) == FromBE(s)
  {
    if k == 0 {
      assert Zeros(0) + s == s;
    } else {
      ZeroPadded(k - 1, s);
      assert Zeros(k) + s == [0] + (Zeros(k - 1) + s);
      FromBEPrepend(0, Zeros(k - 1) + s);
    }
  }

  function Zeros(k: nat): (s: seq<Byte>)
    ensures |s| == k
  {
    if k == 0 then [] else [0] + Zeros(k - 1)
  }

  function ParsedUint(value: string, n: nat): Option<seq<Byte>> {
    match NumeralValue(value)
    case None => None
    case Some(v) => if n > 0 && Fits(v, n) then Some(ToBE(v, n)) else None
  }

  /** Success is exactly being a numeral below 256^n; in no bytes at all not even zero is written. */
  lemma ParsedUintRange(value: string, n: nat)
    ensures ParsedUint(value, n).Some? <==> n > 0 && NumeralValue(value).Some? && NumeralValue(value).value < Pow256(n)
  {
    if NumeralValue(value).Some? {
      FitsIffBelow(NumeralValue(value).value, n);
    }
  }

  method HexToBeBytes(digits: string) returns (r: Option<seq<Byte>>)
    ensures r.Some? <==> AllHex(digits)
    ensures r.Some? ==> FromBE(r.value) == HexadecimalValue(digits) && r.value != []
  {
    var normalized := if digits == "" then "0" else digits;
    var even := if |normalized| % 2 == 0 then normalized else "0" + normalized;
    DecodeStrictValue(even);
    if AllHex(digits) {
      if digits == "" {
        assert HexadecimalValue("0") == 0 by { assert "0"[..0] == ""; }
        LeadingZeroDigit("0");
      } else {
        LeadingZeroDigit(digits);
      }
    } else {
      var i :| 0 <= i < |digits| && !IsHexDigit(digits[i]);
      assert even[if |digits| % 2 == 0 then i else i + 1] == digits[i];
    }
    r := DecodeStrict(even);
  }

  /** parse_uint succeeds exactly on numerals below 256^n, with the n bytes that Python's _u gives. */
  method ParseUint(value: string, n: nat) returns (r: Option<seq<Byte>>)
    ensures r == ParsedUint(value, n)
  {
    if NumeralValue(value).Some? {
      FitsIffBelow(NumeralValue(value).value, n);
    }
    var decoded;
    if HasPrefix(value) {
      decoded := HexToBeBytes(value[2..]);
    } else {
      var normalized := if value == "" then "0" else value;
      if value == "" {
        assert "0"[..0] == "" && DecimalValue("0") == 0;
        assert Pow256(1) == 256;
        if n > 0 {
          Pow256Monotone(1, n);
        }
      }
      decoded := DecimalToBeBytes(normalized, n);
    }
    if decoded.None? { return None; }
    var stripped := StripZeros(decoded.value);
    if |stripped| > n {
      if n > 0 {
        MinimalIsLarge(stripped, n);
      }
      return None;
    }
    MinimalIsSmall(stripped, n);
    ZeroPadded(n - |stripped|, stripped);
    ToFromBE(Zeros(n - |stripped|) + stripped);
    return Some(Zeros(n - |stripped|) + stripped);
  }
}
