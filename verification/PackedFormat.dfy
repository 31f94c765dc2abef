/**
 The packed batch: what a menu of candidate routes is, the one byte string that stands for
 it, and the reference parser that the three decoders are measured against.
 Addresses, hashes and integers are naturals; their widths are fixed by WellFormed.
 */
module PackedFormat {
  import opened Bytes

  const PACKED_VERSION: Byte := 1
  const MAX_PACKED_CANDIDATES: nat := 8
  const MAX_PACKED_LEGS: nat := 4
  const MAX_PACKED_LEG_DATA: nat := 2048

  datatype Leg = Leg(adapter: nat, tokenIn: nat, tokenOut: nat, minOut: nat, data: seq<Byte>)

  datatype Candidate = Candidate(candidateId: nat, minProfit: nat, legs: seq<Leg>)

  datatype Batch = Batch(asset: nat, amount: nat, targetBlock: nat, deadline: nat, candidates: seq<Candidate>)

  datatype DecodeError = Truncated | UnsupportedVersion | CandidateCount | LegCount | LegData | Trailing

  /** A parser's answer: a value and the bytes not yet read, or the first error met. */
  datatype Parsed<+T> = Got(value: T, rest: seq<Byte>) | Bad(error: DecodeError)

  // ---- what may be packed ----

  predicate WellFormedLeg(l: Leg) {
    && Fits(l.adapter, 20) && Fits(l.tokenIn, 20) && Fits(l.tokenOut, 20)
    && Fits(l.minOut, 32) && |l.data| <= MAX_PACKED_LEG_DATA
  }

  predicate WellFormedCandidate(c: Candidate) {
    && Fits(c.candidateId, 32) && Fits(c.minProfit, 32)
    && 2 <= |c.legs| <= MAX_PACKED_LEGS
    && forall l :: l in c.legs ==> WellFormedLeg(l)
  }

  predicate WellFormed(b: Batch) {
    && Fits(b.asset, 20) && Fits(b.amount, 32)
    && Fits(b.targetBlock, 8) && Fits(b.deadline, 8)
    && 1 <= |b.candidates| <= MAX_PACKED_CANDIDATES
    && forall c :: c in b.candidates ==> WellFormedCandidate(c)
  }

  // ---- the packed layout ----

  function EncodeLeg(l: Leg): seq<Byte> {
    ToBE(l.adapter, 20) + ToBE(l.tokenIn, 20) + ToBE(l.tokenOut, 20) + ToBE(l.minOut, 32) + ToBE(|l.data|, 2) + l.data
  }

  function EncodeLegs(legs: seq<Leg>): seq<Byte> {
    if legs == [] then [] else EncodeLeg(legs[0]) + EncodeLegs(legs[1..])
  }

  function EncodeCandidate(c: Candidate): seq<Byte> {
    ToBE(c.candidateId, 32) + ToBE(c.minProfit, 32) + ToBE(|c.legs|, 1) + EncodeLegs(c.legs)
  }

  function EncodeCandidates(cs: seq<Candidate>): seq<Byte> {
    if cs == [] then [] else EncodeCandidate(cs[0]) + EncodeCandidates(cs[1..])
  }

  function EncodeHeader(b: Batch): seq<Byte> {
    [PACKED_VERSION] + ToBE(|b.candidates|, 1) + ToBE(b.asset, 20) + ToBE(b.amount, 32)
    + ToBE(b.targetBlock, 8) + ToBE(b.deadline, 8)
  }

  function Encode(b: Batch): seq<Byte> {
    EncodeHeader(b) + EncodeCandidates(b.candidates)
  }

  // ---- the reference parser ----

  function ParseLeg(s: seq<Byte>): Parsed<Leg> {
    if |s| < 94 then Bad(Truncated)
    else
      var size := FromBE(s[92..94]);
      if size > MAX_PACKED_LEG_DATA then Bad(LegData)
      else if |s| < 94 + size then Bad(Truncated)
      else
        Got(Leg(FromBE(s[..20]), FromBE(s[20..40]), FromBE(s[40..60]), FromBE(s[60..92]), s[94..94 + size]),
            s[94 + size..])
  }

  /** Puts values already read in front of what the rest of the parse yields. */
  function Prepend<T>(read: seq<T>, p: Parsed<seq<T>>): Parsed<seq<T>> {
    match p
    case Got(more, rest) => Got(read + more, rest)
    case Bad(e) => Bad(e)
  }

  function ParseLegs(n: nat, s: seq<Byte>): Parsed<seq<Leg>> {
    if n == 0 then Got([], s)
    else
      match ParseLeg(s)
      case Bad(e) => Bad(e)
      case Got(l, rest) => Prepend([l], ParseLegs(n - 1, rest))
  }

  function ParseCandidate(s: seq<Byte>): Parsed<Candidate> {
    if |s| < 65 then Bad(Truncated)
    else if !(2 <= s[64] <= MAX_PACKED_LEGS) then Bad(LegCount)
    else
      match ParseLegs(s[64], s[65..])
      case Bad(e) => Bad(e)
      case Got(legs, rest) => Got(Candidate(FromBE(s[..32]), FromBE(s[32..64]), legs), rest)
  }

  function ParseCandidates(n: nat, s: seq<Byte>): Parsed<seq<Candidate>> {
    if n == 0 then Got([], s)
    else
      match ParseCandidate(s)
      case Bad(e) => Bad(e)
      case Got(c, rest) => Prepend([c], ParseCandidates(n - 1, rest))
  }

  function ParseBatch(raw: seq<Byte>): Result<Batch, DecodeError> {
    if |raw| < 1 then Failure(Truncated)
    else if raw[0] != PACKED_VERSION then Failure(UnsupportedVersion)
    else if |raw| < 2 then Failure(Truncated)
    else if !(1 <= raw[1] <= MAX_PACKED_CANDIDATES) then Failure(CandidateCount)
    else if |raw| < 70 then Failure(Truncated)
    else
      match ParseCandidates(raw[1], raw[70..])
      case Bad(e) => Failure(e)
      case Got(cs, rest) =>
        if rest != [] then Failure(Trailing)
        else Success(Batch(FromBE(raw[2..22]), FromBE(raw[22..54]), FromBE(raw[54..62]), FromBE(raw[62..70]), cs))
  }

  // ---- cutting a layout into its fields ----

  lemma LegFields(a: seq<Byte>, b: seq<Byte>, c: seq<Byte>, d: seq<Byte>, e: seq<Byte>, f: seq<Byte>, rest: seq<Byte>)
    requires |a| == 20 && |b| == 20 && |c| == 20 && |d| == 32 && |e| == 2
    ensures var s := a + b + c + d + e + f + rest;
            && s[..20] == a && s[20..40] == b && s[40..60] == c && s[60..92] == d && s[92..94] == e
            && s[94..94 + |f|] == f && s[94 + |f|..] == rest
  {
  }

  lemma CandidateFields(a: seq<Byte>, b: seq<Byte>, c: Byte, rest: seq<Byte>)
    requires |a| == 32 && |b| == 32
    ensures var s := a + b + [c] + rest;
            s[..32] == a && s[32..64] == b && s[64] == c && s[65..] == rest
  {
  }

  lemma HeaderFields(v: Byte, n: Byte, a: seq<Byte>, b: seq<Byte>, c: seq<Byte>, d: seq<Byte>, rest: seq<Byte>)
    requires |a| == 20 && |b| == 32 && |c| == 8 && |d| == 8
    ensures var s := [v] + [n] + a + b + c + d + rest;
            && s[0] == v && s[1] == n && s[2..22] == a && s[22..54] == b
            && s[54..62] == c && s[62..70] == d && s[70..] == rest
  {
  }

  lemma JoinLeg(s: seq<Byte>, size: nat)
    requires 94 + size <= |s|
    ensures s == s[..20] + s[20..40] + s[40..60] + s[60..92] + s[92..94] + s[94..94 + size] + s[94 + size..]
  {
  }

  lemma JoinCandidate(s: seq<Byte>)
    requires 65 <= |s|
    ensures s == s[..32] + s[32..64] + [s[64]] + s[65..]
  {
  }

  lemma JoinHeader(s: seq<Byte>)
    requires 70 <= |s|
    ensures s == [s[0]] + [s[1]] + s[2..22] + s[22..54] + s[54..62] + s[62..70] + s[70..]
  {
  }

  lemma Regroup(a: seq<Byte>, b: seq<Byte>, c: seq<Byte>)
    ensures a + (b + c) == (a + b) + c
  {
  }

  lemma OneByte(b: Byte)
    ensures ToBE(b, 1) == [b]
  {
    ToBELast(b, 1);
  }

  lemma DataLengthFits(n: nat)
    requires n <= MAX_PACKED_LEG_DATA
    ensures FromBE(ToBE(n, 2)) == n
  {
    assert Pow256(2) == 65536;
    FitsIffBelow(n, 2);
  }

  // ---- parsing undoes encoding ----

  lemma ParseEncodeLeg(l: Leg, rest: seq<Byte>)
    requires WellFormedLeg(l)
    ensures ParseLeg(EncodeLeg(l) + rest) == Got(l, rest)
  {
    hide FromBE, ToBE;
    LegFields(ToBE(l.adapter, 20), ToBE(l.tokenIn, 20), ToBE(l.tokenOut, 20), ToBE(l.minOut, 32), ToBE(|l.data|, 2),
        l.data, rest);
    DataLengthFits(|l.data|);
  }

  lemma {:induction false} ParseEncodeLegs(legs: seq<Leg>, rest: seq<Byte>)
    requires forall l :: l in legs ==> WellFormedLeg(l)
    ensures ParseLegs(|legs|, EncodeLegs(legs) + rest) == Got(legs, rest)
  {
    hide ParseLeg, EncodeLeg, WellFormedLeg;
    if legs == [] {
      assert EncodeLegs(legs) + rest == rest;
    } else {
      var tail := EncodeLegs(legs[1..]) + rest;
      var s := EncodeLegs(legs) + rest;
      assert s == EncodeLeg(legs[0]) + tail;
      ParseEncodeLeg(legs[0], tail);
      ParseEncodeLegs(legs[1..], rest);
      assert ParseLegs(|legs|, s) == Prepend([legs[0]], ParseLegs(|legs| - 1, tail));
      assert [legs[0]] + legs[1..] == legs;
    }
  }

  lemma ParseEncodeCandidate(c: Candidate, rest: seq<Byte>)
    requires WellFormedCandidate(c)
    ensures ParseCandidate(EncodeCandidate(c) + rest) == Got(c, rest)
  {
    hide ParseLegs, EncodeLegs, WellFormedLeg, FromBE, ToBE;
    var tail := EncodeLegs(c.legs) + rest;
    OneByte(|c.legs|);
    CandidateFields(ToBE(c.candidateId, 32), ToBE(c.minProfit, 32), |c.legs|, tail);
    assert EncodeCandidate(c) + rest == ToBE(c.candidateId, 32) + ToBE(c.minProfit, 32) + [|c.legs|] + tail;
    ParseEncodeLegs(c.legs, rest);
  }

  lemma {:induction false} ParseEncodeCandidates(cs: seq<Candidate>, rest: seq<Byte>)
    requires forall c :: c in cs ==> WellFormedCandidate(c)
    ensures ParseCandidates(|cs|, EncodeCandidates(cs) + rest) == Got(cs, rest)
  {
    hide ParseCandidate, EncodeCandidate, WellFormedCandidate;
    if cs == [] {
      assert EncodeCandidates(cs) + rest == rest;
    } else {
      var tail := EncodeCandidates(cs[1..]) + rest;
      var s := EncodeCandidates(cs) + rest;
      assert s == EncodeCandidate(cs[0]) + tail;
      ParseEncodeCandidate(cs[0], tail);
      ParseEncodeCandidates(cs[1..], rest);
      assert ParseCandidates(|cs|, s) == Prepend([cs[0]], ParseCandidates(|cs| - 1, tail));
      assert [cs[0]] + cs[1..] == cs;
    }
  }

  /** Round trip: every well-formed batch is read back from its packed bytes. */
  lemma ParseEncode(b: Batch)
    requires WellFormed(b)
    ensures ParseBatch(Encode(b)) == Success(b)
  {
    hide ParseCandidates, EncodeCandidates, WellFormedCandidate, FromBE, ToBE;
    var tail := EncodeCandidates(b.candidates);
    OneByte(|b.candidates|);
    HeaderFields(PACKED_VERSION, |b.candidates|, ToBE(b.asset, 20), ToBE(b.amount, 32), ToBE(b.targetBlock, 8),
        ToBE(b.deadline, 8), tail);
    assert tail + [] == tail;
    ParseEncodeCandidates(b.candidates, []);
  }

  // ---- encoding undoes parsing ----

  lemma EncodeParseLeg(s: seq<Byte>)
    requires ParseLeg(s).Got?
    ensures WellFormedLeg(ParseLeg(s).value)
    ensures s == EncodeLeg(ParseLeg(s).value) + ParseLeg(s).rest
  {
    hide FromBE, ToBE, Fits;
    BytesFit(s[..20], 20);
    BytesFit(s[20..40], 20);
    BytesFit(s[40..60], 20);
    BytesFit(s[60..92], 32);
    BytesFit(s[92..94], 2);
    JoinLeg(s, FromBE(s[92..94]));
  }

  lemma {:induction false} EncodeParseLegs(n: nat, s: seq<Byte>)
    requires ParseLegs(n, s).Got?
    ensures |ParseLegs(n, s).value| == n
    ensures forall l :: l in ParseLegs(n, s).value ==> WellFormedLeg(l)
    ensures s == EncodeLegs(ParseLegs(n, s).value) + ParseLegs(n, s).rest
  {
    hide ParseLeg, EncodeLeg, WellFormedLeg;
    if n > 0 {
      EncodeParseLeg(s);
      var first := ParseLeg(s);
      EncodeParseLegs(n - 1, first.rest);
      var more := ParseLegs(n - 1, first.rest);
      var legs := [first.value] + more.value;
      assert ParseLegs(n, s) == Got(legs, more.rest);
      assert legs[1..] == more.value;
      Regroup(EncodeLeg(first.value), EncodeLegs(more.value), more.rest);
    }
  }

  lemma EncodeParseCandidate(s: seq<Byte>)
    requires ParseCandidate(s).Got?
    ensures WellFormedCandidate(ParseCandidate(s).value)
    ensures s == EncodeCandidate(ParseCandidate(s).value) + ParseCandidate(s).rest
  {
    hide FromBE, ToBE, Fits, ParseLegs, EncodeLegs, WellFormedLeg;
    BytesFit(s[..32], 32);
    BytesFit(s[32..64], 32);
    EncodeParseLegs(s[64], s[65..]);
    OneByte(s[64]);
    JoinCandidate(s);
  }

  lemma {:induction false} EncodeParseCandidates(n: nat, s: seq<Byte>)
    requires ParseCandidates(n, s).Got?
    ensures |ParseCandidates(n, s).value| == n
    ensures forall c :: c in ParseCandidates(n, s).value ==> WellFormedCandidate(c)
    ensures s == EncodeCandidates(ParseCandidates(n, s).value) + ParseCandidates(n, s).rest
  {
    hide ParseCandidate, EncodeCandidate, WellFormedCandidate;
    if n > 0 {
      EncodeParseCandidate(s);
      var first := ParseCandidate(s);
      EncodeParseCandidates(n - 1, first.rest);
      var more := ParseCandidates(n - 1, first.rest);
      var cs := [first.value] + more.value;
      assert ParseCandidates(n, s) == Got(cs, more.rest);
      assert cs[1..] == more.value;
      Regroup(EncodeCandidate(first.value), EncodeCandidates(more.value), more.rest);
    }
  }

  /** Canonicity: the only bytes that parse to a batch are that batch's own encoding. */
  lemma EncodeParse(raw: seq<Byte>)
    requires ParseBatch(raw).Success?
    ensures WellFormed(ParseBatch(raw).value)
    ensures Encode(ParseBatch(raw).value) == raw
  {
    hide FromBE, ToBE, Fits, ParseCandidates, EncodeCandidates, WellFormedCandidate;
    BytesFit(raw[2..22], 20);
    BytesFit(raw[22..54], 32);
    BytesFit(raw[54..62], 8);
    BytesFit(raw[62..70], 8);
    EncodeParseCandidates(raw[1], raw[70..]);
    OneByte(raw[1]);
    JoinHeader(raw);
  }

  /** The accepted byte strings are exactly the encodings of well-formed batches, one string a batch. */
  lemma AcceptedExactlyEncodings(raw: seq<Byte>)
    ensures ParseBatch(raw).Success? <==> exists b :: WellFormed(b) && Encode(b) == raw
    ensures forall b, b' :: WellFormed(b) && WellFormed(b') && Encode(b) == Encode(b') ==> b == b'
  {
    if ParseBatch(raw).Success? {
      EncodeParse(raw);
    }
    forall b | WellFormed(b)
      ensures ParseBatch(Encode(b)) == Success(b)
    {
      ParseEncode(b);
    }
  }

  /** Two accepted byte strings that read the same are the same. */
  lemma DecodingInjective(raw: seq<Byte>, raw': seq<Byte>)
    requires ParseBatch(raw).Success? && ParseBatch(raw) == ParseBatch(raw')
    ensures raw == raw'
  {
    EncodeParse(raw);
    EncodeParse(raw');
  }

  // ---- length ----

  function LegsLength(legs: seq<Leg>): nat {
    if legs == [] then 0 else 94 + |legs[0].data| + LegsLength(legs[1..])
  }

  function CandidatesLength(cs: seq<Candidate>): nat {
    if cs == [] then 0 else 65 + LegsLength(cs[0].legs) + CandidatesLength(cs[1..])
  }

  lemma {:induction false} EncodeLegsLength(legs: seq<Leg>)
    requires forall l :: l in legs ==> WellFormedLeg(l)
    ensures |EncodeLegs(legs)| == LegsLength(legs)
    ensures 94 * |legs| <= LegsLength(legs) <= 2142 * |legs|
  {
    if legs != [] {
      assert legs[0] in legs;
      EncodeLegsLength(legs[1..]);
    }
  }

  lemma {:induction false} EncodeCandidatesLength(cs: seq<Candidate>)
    requires forall c :: c in cs ==> WellFormedCandidate(c)
    ensures |EncodeCandidates(cs)| == CandidatesLength(cs)
    ensures 253 * |cs| <= CandidatesLength(cs) <= 8633 * |cs|
  {
    if cs != [] {
      assert cs[0] in cs;
      EncodeLegsLength(cs[0].legs);
      EncodeCandidatesLength(cs[1..]);
    }
  }

  /** The length is 70 + sum(65 + sum(94 + data length)), and lies between 323 and 69134 bytes. */
  lemma EncodedLength(b: Batch)
    requires WellFormed(b)
    ensures |Encode(b)| == 70 + CandidatesLength(b.candidates)
    ensures 323 <= |Encode(b)| <= 69134
  {
    EncodeCandidatesLength(b.candidates);
  }

  // ---- growing an encoding, or a partial parse, at its end ----

  lemma PrependNothing<T>(p: Parsed<seq<T>>)
    ensures Prepend([], p) == p
  {
    if p.Got? {
      assert [] + p.value == p.value;
    }
  }

  lemma ParseLegsStep(read: seq<Leg>, n: nat, s: seq<Byte>)
    requires n > 0
    ensures match ParseLeg(s)
            case Bad(e) => Prepend(read, ParseLegs(n, s)) == Bad(e)
            case Got(l, rest) => Prepend(read, ParseLegs(n, s)) == Prepend(read + [l], ParseLegs(n - 1, rest))
  {
    if ParseLeg(s).Got? {
      var p := ParseLegs(n - 1, ParseLeg(s).rest);
      if p.Got? {
        assert read + ([ParseLeg(s).value] + p.value) == (read + [ParseLeg(s).value]) + p.value;
      }
    }
  }

  lemma ParseCandidatesStep(read: seq<Candidate>, n: nat, s: seq<Byte>)
    requires n > 0
    ensures match ParseCandidate(s)
            case Bad(e) => Prepend(read, ParseCandidates(n, s)) == Bad(e)
            case Got(c, rest) =>
              Prepend(read, ParseCandidates(n, s)) == Prepend(read + [c], ParseCandidates(n - 1, rest))
  {
    if ParseCandidate(s).Got? {
      var p := ParseCandidates(n - 1, ParseCandidate(s).rest);
      if p.Got? {
        assert read + ([ParseCandidate(s).value] + p.value) == (read + [ParseCandidate(s).value]) + p.value;
      }
    }
  }

  lemma {:induction false} EncodeLegsAppend(legs: seq<Leg>, l: Leg)
    ensures EncodeLegs(legs + [l]) == EncodeLegs(legs) + EncodeLeg(l)
  {
    if legs == [] {
      assert legs + [l] == [l];
      assert EncodeLegs([l]) == EncodeLeg(l) + EncodeLegs([]);
    } else {
      assert (legs + [l])[1..] == legs[1..] + [l];
      EncodeLegsAppend(legs[1..], l);
    }
  }

  lemma {:induction false} EncodeCandidatesAppend(cs: seq<Candidate>, c: Candidate)
    ensures EncodeCandidates(cs + [c]) == EncodeCandidates(cs) + EncodeCandidate(c)
  {
    if cs == [] {
      assert cs + [c] == [c];
      assert EncodeCandidates([c]) == EncodeCandidate(c) + EncodeCandidates([]);
    } else {
      assert (cs + [c])[1..] == cs[1..] + [c];
      EncodeCandidatesAppend(cs[1..], c);
    }
  }
}
