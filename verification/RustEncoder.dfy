/** Rust's encode_batch and validate_batch_bytes. */
module RustEncoder {
  import opened Bytes
  import opened HexText
  import opened PackedFormat
  import opened RustPacked

  datatype RsLeg = RsLeg(adapter: string, tokenIn: string, tokenOut: string, minOut: string, data: string)

  datatype RsCandidate = RsCandidate(candidateId: string, minProfit: string, legs: seq<RsLeg>)

  type U64 = n: nat | n < 0x1_0000_0000_0000_0000

  datatype RsBatch = RsBatch(asset: string, amount: string, targetBlock: U64, deadline: U64,
      candidates: seq<RsCandidate>)

  // ---- field readers ----

  function FixedHex(value: string, size: nat): Option<seq<Byte>> {
    if !HasPrefix(value) then None
    else
      match DecodeStrict(value[2..])
      case None => None
      case Some(raw) => if |raw| == size then Some(raw) else None
  }

  function LegData(value: string): Option<seq<Byte>> {
    if !HasPrefix(value) then None
    else
      match DecodeStrict(value[2..])
      case None => None
      case Some(raw) => if |raw| <= MAX_PACKED_LEG_DATA then Some(raw) else None
  }

  function HexNumber(value: string, size: nat): nat {
    match FixedHex(value, size)
    case Some(raw) => FromBE(raw)
    case None => 0
  }

  function UintNumber(value: string): nat {
    match NumeralValue(value)
    case Some(v) => v
    case None => 0
  }

  // ---- which requests encode, and as what ----

  predicate EncodableLeg(l: RsLeg) {
    && LowerText(l.tokenIn) != LowerText(l.tokenOut)
    && FixedHex(l.adapter, 20).Some? && FixedHex(l.tokenIn, 20).Some? && FixedHex(l.tokenOut, 20).Some?
    && ParsedUint(l.minOut, 32).Some? && LegData(l.data).Some?
  }

  predicate EncodableCandidate(c: RsCandidate) {
    && 2 <= |c.legs| <= MAX_PACKED_LEGS
    && FixedHex(c.candidateId, 32).Some? && ParsedUint(c.minProfit, 32).Some?
    && forall k :: 0 <= k < |c.legs| ==> EncodableLeg(c.legs[k])
  }

  predicate Encodable(b: RsBatch) {
    && 1 <= |b.candidates| <= MAX_PACKED_CANDIDATES
    && FixedHex(b.asset, 20).Some? && ParsedUint(b.amount, 32).Some?
    && forall k :: 0 <= k < |b.candidates| ==> EncodableCandidate(b.candidates[k])
  }

  function LegMeaning(l: RsLeg): Leg {
    Leg(HexNumber(l.adapter, 20), HexNumber(l.tokenIn, 20), HexNumber(l.tokenOut, 20), UintNumber(l.minOut),
        if LegData(l.data).Some? then LegData(l.data).value else [])
  }

  function LegsMeaning(legs: seq<RsLeg>): (r: seq<Leg>)
    ensures |r| == |legs| && forall i :: 0 <= i < |r| ==> r[i] == LegMeaning(legs[i])
  {
    seq(|legs|, i requires 0 <= i < |legs| => LegMeaning(legs[i]))
  }

  function CandidateMeaning(c: RsCandidate): Candidate {
    Candidate(HexNumber(c.candidateId, 32), UintNumber(c.minProfit), LegsMeaning(c.legs))
  }

  function CandidatesMeaning(cs: seq<RsCandidate>): (r: seq<Candidate>)
    ensures |r| == |cs| && forall i :: 0 <= i < |r| ==> r[i] == CandidateMeaning(cs[i])
  {
    seq(|cs|, i requires 0 <= i < |cs| => CandidateMeaning(cs[i]))
  }

  function Meaning(b: RsBatch): Batch {
    Batch(HexNumber(b.asset, 20), UintNumber(b.amount), b.targetBlock, b.deadline, CandidatesMeaning(b.candidates))
  }

  function RsEncode(b: RsBatch): Option<seq<Byte>> {
    if Encodable(b) then Some(Encode(Meaning(b))) else None
  }

  lemma FixedHexSpell(value: string, size: nat)
    requires FixedHex(value, size).Some?
    ensures FixedHex(value, size).value == ToBE(HexNumber(value, size), size)
    ensures Fits(HexNumber(value, size), size)
  {
    BytesFit(FixedHex(value, size).value, size);
  }

  lemma ParsedUintSpell(value: string, size: nat)
    requires ParsedUint(value, size).Some?
    ensures ParsedUint(value, size).value == ToBE(UintNumber(value), size)
    ensures Fits(UintNumber(value), size)
  {
  }

  // ---- encode_batch ----

  method EncodeRsLeg(l: RsLeg) returns (r: Option<seq<Byte>>)
    ensures r == if EncodableLeg(l) then Some(EncodeLeg(LegMeaning(l))) else None
  {
    hide FixedHex, ParsedUint, UintNumber, Fits, ToBE, LegData, LowerText;
    if LowerText(l.tokenIn) == LowerText(l.tokenOut) { return None; }
    var adapter, tokenIn, tokenOut := FixedHex(l.adapter, 20), FixedHex(l.tokenIn, 20), FixedHex(l.tokenOut, 20);
    if adapter.None? || tokenIn.None? || tokenOut.None? { return None; }
    var minOut := ParseUint(l.minOut, 32);
    if minOut.None? { return None; }
    var data := LegData(l.data);
    if data.None? { return None; }
    FixedHexSpell(l.adapter, 20);
    FixedHexSpell(l.tokenIn, 20);
    FixedHexSpell(l.tokenOut, 20);
    ParsedUintSpell(l.minOut, 32);
    return Some(adapter.value + tokenIn.value + tokenOut.value + minOut.value + ToBE(|data.value|, 2) + data.value);
  }

  method EncodeRsLegs(legs: seq<RsLeg>) returns (r: Option<seq<Byte>>)
    ensures r == if forall k :: 0 <= k < |legs| ==> EncodableLeg(legs[k]) then Some(EncodeLegs(LegsMeaning(legs)))
            else None
  {
    hide EncodableLeg, LegMeaning, EncodeLeg;
    var out: seq<Byte> := [];
    for i := 0 to |legs|
      invariant forall k :: 0 <= k < i ==> EncodableLeg(legs[k])
      invariant out == EncodeLegs(LegsMeaning(legs[..i]))
    {
      var leg := EncodeRsLeg(legs[i]);
      if leg.None? { return None; }
      EncodeLegsAppend(LegsMeaning(legs[..i]), LegMeaning(legs[i]));
      assert LegsMeaning(legs[..i + 1]) == LegsMeaning(legs[..i]) + [LegMeaning(legs[i])];
      out := out + leg.value;
    }
    assert legs[..|legs|] == legs;
    return Some(out);
  }

  method EncodeRsCandidate(c: RsCandidate) returns (r: Option<seq<Byte>>)
    ensures r == if EncodableCandidate(c) then Some(EncodeCandidate(CandidateMeaning(c))) else None
  {
    hide EncodableLeg, LegsMeaning, EncodeLegs, FixedHex, ParsedUint, UintNumber, Fits, ToBE;
    if |c.legs| < 2 || |c.legs| > MAX_PACKED_LEGS { return None; }
    var id := FixedHex(c.candidateId, 32);
    if id.None? { return None; }
    var minProfit := ParseUint(c.minProfit, 32);
    if minProfit.None? { return None; }
    OneByte(|c.legs|);
    FixedHexSpell(c.candidateId, 32);
    ParsedUintSpell(c.minProfit, 32);
    var legs := EncodeRsLegs(c.legs);
    if legs.None? { return None; }
    return Some(id.value + minProfit.value + [|c.legs|] + legs.value);
  }

  method EncodeRsCandidates(cs: seq<RsCandidate>) returns (r: Option<seq<Byte>>)
    ensures r == if forall k :: 0 <= k < |cs| ==> EncodableCandidate(cs[k])
                 then Some(EncodeCandidates(CandidatesMeaning(cs))) else None
  {
    hide EncodableCandidate, CandidateMeaning, EncodeCandidate;
    var out: seq<Byte> := [];
    for i := 0 to |cs|
      invariant forall k :: 0 <= k < i ==> EncodableCandidate(cs[k])
      invariant out == EncodeCandidates(CandidatesMeaning(cs[..i]))
    {
      var candidate := EncodeRsCandidate(cs[i]);
      if candidate.None? { return None; }
      EncodeCandidatesAppend(CandidatesMeaning(cs[..i]), CandidateMeaning(cs[i]));
      assert CandidatesMeaning(cs[..i + 1]) == CandidatesMeaning(cs[..i]) + [CandidateMeaning(cs[i])];
      out := out + candidate.value;
    }
    assert cs[..|cs|] == cs;
    return Some(out);
  }

  method EncodeBatch(b: RsBatch) returns (r: Option<seq<Byte>>)
    ensures r == RsEncode(b)
  {
    hide EncodableCandidate, CandidatesMeaning, EncodeCandidates, FixedHex, ParsedUint, UintNumber, Fits, ToBE;
    if |b.candidates| == 0 || |b.candidates| > MAX_PACKED_CANDIDATES { return None; }
    var asset := FixedHex(b.asset, 20);
    if asset.None? { return None; }
    var amount := ParseUint(b.amount, 32);
    if amount.None? { return None; }
    OneByte(|b.candidates|);
    FixedHexSpell(b.asset, 20);
    ParsedUintSpell(b.amount, 32);
    var candidates := EncodeRsCandidates(b.candidates);
    if candidates.None? { return None; }
    return Some([PACKED_VERSION] + [|b.candidates|] + asset.value + amount.value
                + ToBE(b.targetBlock, 8) + ToBE(b.deadline, 8) + candidates.value);
  }

  // ---- an encodable request means a well-formed batch ----

  lemma LegMeaningWellFormed(l: RsLeg)
    requires EncodableLeg(l)
    ensures WellFormedLeg(LegMeaning(l))
  {
    FixedHexSpell(l.adapter, 20);
    FixedHexSpell(l.tokenIn, 20);
    FixedHexSpell(l.tokenOut, 20);
    ParsedUintSpell(l.minOut, 32);
  }

  lemma CandidateMeaningWellFormed(c: RsCandidate)
    requires EncodableCandidate(c)
    ensures WellFormedCandidate(CandidateMeaning(c))
  {
    FixedHexSpell(c.candidateId, 32);
    ParsedUintSpell(c.minProfit, 32);
    forall i | 0 <= i < |c.legs|
      ensures WellFormedLeg(LegsMeaning(c.legs)[i])
    {
      LegMeaningWellFormed(c.legs[i]);
    }
  }

  lemma U64Fits(n: U64)
    ensures Fits(n, 8)
  {
    assert Pow256(8) == 0x1_0000_0000_0000_0000;
    FitsIffBelow(n, 8);
  }

  lemma MeaningWellFormed(b: RsBatch)
    requires Encodable(b)
    ensures WellFormed(Meaning(b))
  {
    FixedHexSpell(b.asset, 20);
    ParsedUintSpell(b.amount, 32);
    U64Fits(b.targetBlock);
    U64Fits(b.deadline);
    forall i | 0 <= i < |b.candidates|
      ensures WellFormedCandidate(CandidatesMeaning(b.candidates)[i])
    {
      CandidateMeaningWellFormed(b.candidates[i]);
    }
  }

  // ---- validate_batch_bytes ----

  datatype ValidateError = TooShort | Malformed(error: DecodeError)

  function Validated(raw: seq<Byte>): Result<(), ValidateError> {
    if |raw| < 70 then Failure(TooShort)
    else
      match ParseBatch(raw)
      case Success(_) => Success(())
      case Failure(e) => Failure(Malformed(e))
  }

  /** The closure `take`: the new offset, or none when the bytes run out. */
  function Take(raw: seq<Byte>, o: nat, n: nat): Option<nat> {
    if o + n > |raw| then None else Some(o + n)
  }

  lemma Suffix(raw: seq<Byte>, o: nat, a: nat)
    requires o + a <= |raw|
    ensures raw[o..][a..] == raw[o + a..]
  {
  }

  lemma Middle(raw: seq<Byte>, o: nat, a: nat, b: nat)
    requires o + a <= o + b <= |raw|
    ensures raw[o..][a..b] == raw[o + a..o + b]
  {
  }

  method ValidateLeg(raw: seq<Byte>, start: nat) returns (r: Result<nat, DecodeError>)
    requires start <= |raw|
    ensures match ParseLeg(raw[start..])
            case Bad(e) => r == Failure(e)
            case Got(_, rest) => r.Success? && start <= r.value <= |raw| && rest == raw[r.value..]
  {
    var o := Take(raw, start, 20 + 20 + 20 + 32);
    if o.None? { return Failure(Truncated); }
    o := Take(raw, o.value, 2);
    if o.None? { return Failure(Truncated); }
    Middle(raw, start, 92, 94);
    var dataLen := FromBE(raw[o.value - 2..o.value]);
    if dataLen > MAX_PACKED_LEG_DATA { return Failure(DecodeError.LegData); }
    o := Take(raw, o.value, dataLen);
    if o.None? { return Failure(Truncated); }
    Suffix(raw, start, 94 + dataLen);
    return Success(o.value);
  }

  method ValidateLegs(raw: seq<Byte>, start: nat, legs: nat) returns (r: Result<nat, DecodeError>)
    requires start <= |raw|
    ensures match ParseLegs(legs, raw[start..])
            case Bad(e) => r == Failure(e)
            case Got(_, rest) => r.Success? && start <= r.value <= |raw| && rest == raw[r.value..]
  {
    hide ParseLeg;
    var o, i := start, 0;
    ghost var read: seq<Leg> := [];
    PrependNothing(ParseLegs(legs, raw[start..]));
    while i < legs
      invariant 0 <= i <= legs && start <= o <= |raw|
      invariant ParseLegs(legs, raw[start..]) == Prepend(read, ParseLegs(legs - i, raw[o..]))
    {
      ParseLegsStep(read, legs - i, raw[o..]);
      var leg := ValidateLeg(raw, o);
      if leg.Failure? { return Failure(leg.error); }
      read := read + [ParseLeg(raw[o..]).value];
      o, i := leg.value, i + 1;
    }
    return Success(o);
  }

  method ValidateCandidate(raw: seq<Byte>, start: nat) returns (r: Result<nat, DecodeError>)
    requires start <= |raw|
    ensures match ParseCandidate(raw[start..])
            case Bad(e) => r == Failure(e)
            case Got(_, rest) => r.Success? && start <= r.value <= |raw| && rest == raw[r.value..]
  {
    hide ParseLegs, FromBE;
    var o := Take(raw, start, 32 + 32);
    if o.None? { return Failure(Truncated); }
    o := Take(raw, o.value, 1);
    if o.None? { return Failure(Truncated); }
    var legs := raw[o.value - 1];
    if !(2 <= legs <= MAX_PACKED_LEGS) { return Failure(LegCount); }
    Suffix(raw, start, 65);
    r := ValidateLegs(raw, o.value, legs);
  }

  method ValidateCandidates(raw: seq<Byte>, start: nat, count: nat) returns (r: Result<nat, DecodeError>)
    requires start <= |raw|
    ensures match ParseCandidates(count, raw[start..])
            case Bad(e) => r == Failure(e)
            case Got(_, rest) => r.Success? && start <= r.value <= |raw| && rest == raw[r.value..]
  {
    hide ParseCandidate;
    var o, i := start, 0;
    ghost var read: seq<Candidate> := [];
    PrependNothing(ParseCandidates(count, raw[start..]));
    while i < count
      invariant 0 <= i <= count && start <= o <= |raw|
      invariant ParseCandidates(count, raw[start..]) == Prepend(read, ParseCandidates(count - i, raw[o..]))
    {
      ParseCandidatesStep(read, count - i, raw[o..]);
      var candidate := ValidateCandidate(raw, o);
      if candidate.Failure? { return Failure(candidate.error); }
      read := read + [ParseCandidate(raw[o..]).value];
      o, i := candidate.value, i + 1;
    }
    return Success(o);
  }

  method ValidateBatchBytes(raw: seq<Byte>) returns (r: Result<(), ValidateError>)
    ensures r == Validated(raw)
  {
    hide ParseCandidates, FromBE;
    if |raw| < 70 { return Failure(TooShort); }
    if raw[0] != PACKED_VERSION { return Failure(Malformed(UnsupportedVersion)); }
    var count := raw[1];
    if count == 0 || count > MAX_PACKED_CANDIDATES { return Failure(Malformed(CandidateCount)); }
    var o := Take(raw, 2, 20 + 32 + 8 + 8);
    if o.None? { return Failure(Malformed(Truncated)); }
    var end := ValidateCandidates(raw, o.value, count);
    if end.Failure? { return Failure(Malformed(end.error)); }
    assert raw[end.value..] == [] <==> end.value == |raw|;
    if end.value != |raw| { return Failure(Malformed(Trailing)); }
    return Success(());
  }
}
