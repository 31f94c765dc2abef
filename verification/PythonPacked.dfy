/** The Python side of the packed batch: encoder, decoder, and their round trips. */
module PythonPacked {
  import opened Bytes
  import opened HexText
  import opened PackedFormat

  datatype PyLeg = PyLeg(adapter: string, tokenIn: string, tokenOut: string, minOut: int, data: seq<Byte>)

  datatype PyCandidate = PyCandidate(candidateId: string, minProfit: int, legs: seq<PyLeg>)

  datatype PyBatch = PyBatch(asset: string, amount: int, targetBlock: int, deadline: int, candidates: seq<PyCandidate>)

  // ---- field readers ----

  function HexBytes(value: string, size: nat): Option<seq<Byte>> {
    if !HasPrefix(value) then None
    else
      match DecodeSpaced(value[2..])
      case None => None
      case Some(raw) => if |raw| == size then Some(raw) else None
  }

  /** None stands for the ValueError of a value that is negative or too wide (see FitsIffBelow). */
  function UintBytes(value: int, size: nat): Option<seq<Byte>> {
    if value < 0 || !Fits(value, size) then None else Some(ToBE(value, size))
  }

  function HexNumber(value: string, size: nat): nat {
    match HexBytes(value, size)
    case Some(raw) => FromBE(raw)
    case None => 0
  }

  function Natural(value: int): nat {
    if value < 0 then 0 else value
  }

  // ---- which Python batches encode, and as what ----

  predicate EncodableLeg(l: PyLeg) {
    && LowerText(l.tokenIn) != LowerText(l.tokenOut)
    && |l.data| <= MAX_PACKED_LEG_DATA
    && HexBytes(l.adapter, 20).Some? && HexBytes(l.tokenIn, 20).Some? && HexBytes(l.tokenOut, 20).Some?
    && UintBytes(l.minOut, 32).Some?
  }

  predicate EncodableCandidate(c: PyCandidate) {
    && 2 <= |c.legs| <= MAX_PACKED_LEGS
    && HexBytes(c.candidateId, 32).Some? && UintBytes(c.minProfit, 32).Some?
    && forall l :: l in c.legs ==> EncodableLeg(l)
  }

  predicate Encodable(b: PyBatch) {
    && 1 <= |b.candidates| <= MAX_PACKED_CANDIDATES
    && HexBytes(b.asset, 20).Some? && UintBytes(b.amount, 32).Some?
    && UintBytes(b.targetBlock, 8).Some? && UintBytes(b.deadline, 8).Some?
    && forall c :: c in b.candidates ==> EncodableCandidate(c)
  }

  function LegMeaning(l: PyLeg): Leg {
    Leg(HexNumber(l.adapter, 20), HexNumber(l.tokenIn, 20), HexNumber(l.tokenOut, 20), Natural(l.minOut), l.data)
  }

  function LegsMeaning(legs: seq<PyLeg>): (r: seq<Leg>)
    ensures |r| == |legs| && forall i :: 0 <= i < |r| ==> r[i] == LegMeaning(legs[i])
  {
    seq(|legs|, i requires 0 <= i < |legs| => LegMeaning(legs[i]))
  }

  function CandidateMeaning(c: PyCandidate): Candidate {
    Candidate(HexNumber(c.candidateId, 32), Natural(c.minProfit), LegsMeaning(c.legs))
  }

  function CandidatesMeaning(cs: seq<PyCandidate>): (r: seq<Candidate>)
    ensures |r| == |cs| && forall i :: 0 <= i < |r| ==> r[i] == CandidateMeaning(cs[i])
  {
    seq(|cs|, i requires 0 <= i < |cs| => CandidateMeaning(cs[i]))
  }

  function Meaning(b: PyBatch): Batch {
    Batch(HexNumber(b.asset, 20), Natural(b.amount), Natural(b.targetBlock), Natural(b.deadline),
        CandidatesMeaning(b.candidates))
  }

  function PyEncode(b: PyBatch): Option<seq<Byte>> {
    if Encodable(b) then Some(Encode(Meaning(b))) else None
  }

  // ---- what the decoder hands back ----

  function HexOf(n: nat, size: nat): string {
    "0x" + ToHex(ToBE(n, size))
  }

  function LegView(l: Leg): PyLeg {
    PyLeg(HexOf(l.adapter, 20), HexOf(l.tokenIn, 20), HexOf(l.tokenOut, 20), l.minOut, l.data)
  }

  function LegsView(legs: seq<Leg>): seq<PyLeg> {
    seq(|legs|, i requires 0 <= i < |legs| => LegView(legs[i]))
  }

  function CandidateView(c: Candidate): PyCandidate {
    PyCandidate(HexOf(c.candidateId, 32), c.minProfit, LegsView(c.legs))
  }

  function CandidatesView(cs: seq<Candidate>): seq<PyCandidate> {
    seq(|cs|, i requires 0 <= i < |cs| => CandidateView(cs[i]))
  }

  function View(b: Batch): PyBatch {
    PyBatch(HexOf(b.asset, 20), b.amount, b.targetBlock, b.deadline, CandidatesView(b.candidates))
  }

  function PyDecode(raw: seq<Byte>): Result<PyBatch, DecodeError> {
    match ParseBatch(raw)
    case Success(b) => Success(View(b))
    case Failure(e) => Failure(e)
  }

  // ---- the encoder ----

  lemma HexBytesSpell(value: string, size: nat)
    requires HexBytes(value, size).Some?
    ensures HexBytes(value, size).value == ToBE(HexNumber(value, size), size)
    ensures Fits(HexNumber(value, size), size)
  {
    BytesFit(HexBytes(value, size).value, size);
  }

  method EncodePackedLeg(l: PyLeg) returns (r: Option<seq<Byte>>)
    ensures r == if EncodableLeg(l) then Some(EncodeLeg(LegMeaning(l))) else None
  {
    if LowerText(l.tokenIn) == LowerText(l.tokenOut) { return None; }
    if |l.data| > MAX_PACKED_LEG_DATA { return None; }
    var adapter, tokenIn, tokenOut := HexBytes(l.adapter, 20), HexBytes(l.tokenIn, 20), HexBytes(l.tokenOut, 20);
    var minOut := UintBytes(l.minOut, 32);
    if adapter.None? || tokenIn.None? || tokenOut.None? || minOut.None? { return None; }
    DataLengthFits(|l.data|);
    var dataLen := UintBytes(|l.data|, 2);
    HexBytesSpell(l.adapter, 20);
    HexBytesSpell(l.tokenIn, 20);
    HexBytesSpell(l.tokenOut, 20);
    return Some(adapter.value + tokenIn.value + tokenOut.value + minOut.value + dataLen.value + l.data);
  }

  method EncodePackedLegs(legs: seq<PyLeg>) returns (r: Option<seq<Byte>>)
    ensures r == if forall k :: 0 <= k < |legs| ==> EncodableLeg(legs[k]) then Some(EncodeLegs(LegsMeaning(legs)))
            else None
  {
    hide EncodableLeg, LegMeaning, EncodeLeg;
    var out: seq<Byte> := [];
    for i := 0 to |legs|
      invariant forall k :: 0 <= k < i ==> EncodableLeg(legs[k])
      invariant out == EncodeLegs(LegsMeaning(legs[..i]))
    {
      var leg := EncodePackedLeg(legs[i]);
      if leg.None? { return None; }
      EncodeLegsAppend(LegsMeaning(legs[..i]), LegMeaning(legs[i]));
      assert LegsMeaning(legs[..i + 1]) == LegsMeaning(legs[..i]) + [LegMeaning(legs[i])];
      out := out + leg.value;
    }
    assert legs[..|legs|] == legs;
    return Some(out);
  }

  method EncodePackedCandidate(c: PyCandidate) returns (r: Option<seq<Byte>>)
    ensures r == if EncodableCandidate(c) then Some(EncodeCandidate(CandidateMeaning(c))) else None
  {
    hide EncodableLeg, LegsMeaning, EncodeLegs, HexBytes, Fits, ToBE;
    if !(2 <= |c.legs| <= MAX_PACKED_LEGS) { return None; }
    var id, minProfit := HexBytes(c.candidateId, 32), UintBytes(c.minProfit, 32);
    if id.None? || minProfit.None? { return None; }
    OneByte(|c.legs|);
    HexBytesSpell(c.candidateId, 32);
    var legs := EncodePackedLegs(c.legs);
    if legs.None? { return None; }
    return Some(id.value + minProfit.value + [|c.legs|] + legs.value);
  }

  method EncodePackedCandidates(cs: seq<PyCandidate>) returns (r: Option<seq<Byte>>)
    ensures r == if forall k :: 0 <= k < |cs| ==> EncodableCandidate(cs[k])
                 then Some(EncodeCandidates(CandidatesMeaning(cs))) else None
  {
    hide EncodableCandidate, CandidateMeaning, EncodeCandidate;
    var out: seq<Byte> := [];
    for i := 0 to |cs|
      invariant forall k :: 0 <= k < i ==> EncodableCandidate(cs[k])
      invariant out == EncodeCandidates(CandidatesMeaning(cs[..i]))
    {
      var candidate := EncodePackedCandidate(cs[i]);
      if candidate.None? { return None; }
      EncodeCandidatesAppend(CandidatesMeaning(cs[..i]), CandidateMeaning(cs[i]));
      assert CandidatesMeaning(cs[..i + 1]) == CandidatesMeaning(cs[..i]) + [CandidateMeaning(cs[i])];
      out := out + candidate.value;
    }
    assert cs[..|cs|] == cs;
    return Some(out);
  }

  method EncodePackedBatch(b: PyBatch) returns (r: Option<seq<Byte>>)
    ensures r == PyEncode(b)
  {
    hide EncodableCandidate, CandidatesMeaning, EncodeCandidates, HexBytes, Fits, ToBE;
    if !(1 <= |b.candidates| <= MAX_PACKED_CANDIDATES) { return None; }
    var asset, amount := HexBytes(b.asset, 20), UintBytes(b.amount, 32);
    var targetBlock, deadline := UintBytes(b.targetBlock, 8), UintBytes(b.deadline, 8);
    if asset.None? || amount.None? || targetBlock.None? || deadline.None? { return None; }
    OneByte(|b.candidates|);
    HexBytesSpell(b.asset, 20);
    var candidates := EncodePackedCandidates(b.candidates);
    if candidates.None? { return None; }
    return Some([PACKED_VERSION] + [|b.candidates|] + asset.value + amount.value + targetBlock.value + deadline.value
        + candidates.value);
  }

  // ---- the decoder ----

  method Take(raw: seq<Byte>, offset: nat, size: nat) returns (r: Option<(seq<Byte>, nat)>)
    requires offset <= |raw|
    ensures r == if offset + size > |raw| then None else Some((raw[offset..offset + size], offset + size))
  {
    var end := offset + size;
    if end > |raw| { return None; }
    return Some((raw[offset..end], end));
  }

  lemma Within(raw: seq<Byte>, o: nat, a: nat, b: nat)
    requires o + a <= o + b <= |raw|
    ensures raw[o..][a..b] == raw[o + a..o + b] && raw[o..][a..] == raw[o + a..]
  {
  }

  lemma HexOfBytes(s: seq<Byte>, size: nat)
    requires |s| == size
    ensures HexOf(FromBE(s), size) == "0x" + ToHex(s)
  {
    BytesFit(s, size);
  }

  method DecodePackedLeg(raw: seq<Byte>, start: nat) returns (r: Result<(PyLeg, nat), DecodeError>)
    requires start <= |raw|
    ensures match ParseLeg(raw[start..])
            case Bad(e) => r == Failure(e)
            case Got(l, rest) =>
              r.Success? && r.value.0 == LegView(l) && start <= r.value.1 <= |raw| && rest == raw[r.value.1..]
  {
    hide HexOf, FromBE, ToHex;
    var offset := start;
    var b := Take(raw, offset, 20);
    if b.None? { return Failure(Truncated); }
    offset := b.value.1;
    var adapter := "0x" + ToHex(b.value.0);
    HexOfBytes(b.value.0, 20);
    b := Take(raw, offset, 20);
    if b.None? { return Failure(Truncated); }
    offset := b.value.1;
    var tokenIn := "0x" + ToHex(b.value.0);
    HexOfBytes(b.value.0, 20);
    b := Take(raw, offset, 20);
    if b.None? { return Failure(Truncated); }
    offset := b.value.1;
    var tokenOut := "0x" + ToHex(b.value.0);
    HexOfBytes(b.value.0, 20);
    b := Take(raw, offset, 32);
    if b.None? { return Failure(Truncated); }
    offset := b.value.1;
    var minOut := FromBE(b.value.0);
    b := Take(raw, offset, 2);
    if b.None? { return Failure(Truncated); }
    offset := b.value.1;
    var dataLen := FromBE(b.value.0);
    Within(raw, start, 0, 20);
    Within(raw, start, 20, 40);
    Within(raw, start, 40, 60);
    Within(raw, start, 60, 92);
    Within(raw, start, 92, 94);
    if dataLen > MAX_PACKED_LEG_DATA { return Failure(LegData); }
    b := Take(raw, offset, dataLen);
    if b.None? { return Failure(Truncated); }
    Within(raw, start, 94, 94 + dataLen);
    return Success((PyLeg(adapter, tokenIn, tokenOut, minOut, b.value.0), b.value.1));
  }

  lemma LegsViewAppend(legs: seq<Leg>, l: Leg)
    ensures LegsView(legs + [l]) == LegsView(legs) + [LegView(l)]
  {
  }

  lemma CandidatesViewAppend(cs: seq<Candidate>, c: Candidate)
    ensures CandidatesView(cs + [c]) == CandidatesView(cs) + [CandidateView(c)]
  {
  }

  method DecodePackedLegs(raw: seq<Byte>, start: nat, legCount: nat) returns (r: Result<(seq<PyLeg>, nat), DecodeError>)
    requires start <= |raw|
    ensures match ParseLegs(legCount, raw[start..])
            case Bad(e) => r == Failure(e)
            case Got(legs, rest) =>
              r.Success? && r.value.0 == LegsView(legs) && start <= r.value.1 <= |raw| && rest == raw[r.value.1..]
  {
    hide ParseLeg, LegView;
    var legs: seq<PyLeg> := [];
    ghost var read: seq<Leg> := [];
    var offset, i := start, 0;
    PrependNothing(ParseLegs(legCount, raw[start..]));
    while i < legCount
      invariant 0 <= i <= legCount
      invariant start <= offset <= |raw|
      invariant legs == LegsView(read)
      invariant ParseLegs(legCount, raw[start..]) == Prepend(read, ParseLegs(legCount - i, raw[offset..]))
    {
      ParseLegsStep(read, legCount - i, raw[offset..]);
      var leg := DecodePackedLeg(raw, offset);
      if leg.Failure? { return Failure(leg.error); }
      ghost var parsed := ParseLeg(raw[offset..]);
      LegsViewAppend(read, parsed.value);
      legs := legs + [leg.value.0];
      read := read + [parsed.value];
      offset := leg.value.1;
      i := i + 1;
    }
    return Success((legs, offset));
  }

  method DecodePackedCandidate(raw: seq<Byte>, start: nat) returns (r: Result<(PyCandidate, nat), DecodeError>)
    requires start <= |raw|
    ensures match ParseCandidate(raw[start..])
            case Bad(e) => r == Failure(e)
            case Got(c, rest) =>
              r.Success? && r.value.0 == CandidateView(c) && start <= r.value.1 <= |raw| && rest == raw[r.value.1..]
  {
    hide HexOf, FromBE, ToHex, ParseLegs, LegsView;
    var offset := start;
    var b := Take(raw, offset, 32);
    if b.None? { return Failure(Truncated); }
    offset := b.value.1;
    var id := "0x" + ToHex(b.value.0);
    HexOfBytes(b.value.0, 32);
    b := Take(raw, offset, 32);
    if b.None? { return Failure(Truncated); }
    offset := b.value.1;
    var minProfit := FromBE(b.value.0);
    b := Take(raw, offset, 1);
    if b.None? { return Failure(Truncated); }
    offset := b.value.1;
    var legCount := b.value.0[0];
    Within(raw, start, 0, 32);
    Within(raw, start, 32, 64);
    Within(raw, start, 64, 65);
    if !(2 <= legCount <= MAX_PACKED_LEGS) { return Failure(LegCount); }
    Within(raw, start, 65, |raw| - start);
    var legs := DecodePackedLegs(raw, offset, legCount);
    if legs.Failure? { return Failure(legs.error); }
    return Success((PyCandidate(id, minProfit, legs.value.0), legs.value.1));
  }

  method DecodePackedCandidates(
      raw: seq<Byte>, start: nat, count: nat)
    returns (r: Result<(seq<PyCandidate>, nat), DecodeError>)
    requires start <= |raw|
    ensures match ParseCandidates(count, raw[start..])
            case Bad(e) => r == Failure(e)
            case Got(cs, rest) =>
              r.Success? && r.value.0 == CandidatesView(cs) && start <= r.value.1 <= |raw| && rest == raw[r.value.1..]
  {
    hide ParseCandidate, CandidateView;
    var candidates: seq<PyCandidate> := [];
    ghost var read: seq<Candidate> := [];
    var offset, i := start, 0;
    PrependNothing(ParseCandidates(count, raw[start..]));
    while i < count
      invariant 0 <= i <= count
      invariant start <= offset <= |raw|
      invariant candidates == CandidatesView(read)
      invariant ParseCandidates(count, raw[start..]) == Prepend(read, ParseCandidates(count - i, raw[offset..]))
    {
      ParseCandidatesStep(read, count - i, raw[offset..]);
      var candidate := DecodePackedCandidate(raw, offset);
      if candidate.Failure? { return Failure(candidate.error); }
      ghost var parsed := ParseCandidate(raw[offset..]);
      CandidatesViewAppend(read, parsed.value);
      candidates := candidates + [candidate.value.0];
      read := read + [parsed.value];
      offset := candidate.value.1;
      i := i + 1;
    }
    return Success((candidates, offset));
  }

  method DecodePackedBatch(raw: seq<Byte>) returns (r: Result<PyBatch, DecodeError>)
    ensures r == PyDecode(raw)
  {
    hide HexOf, FromBE, ToHex, ParseCandidates, CandidatesView;
    var offset := 0;
    var b := Take(raw, offset, 1);
    if b.None? { return Failure(Truncated); }
    offset := b.value.1;
    if b.value.0[0] != PACKED_VERSION { return Failure(UnsupportedVersion); }
    b := Take(raw, offset, 1);
    if b.None? { return Failure(Truncated); }
    offset := b.value.1;
    var count := b.value.0[0];
    if !(1 <= count <= MAX_PACKED_CANDIDATES) { return Failure(CandidateCount); }
    b := Take(raw, offset, 20);
    if b.None? { return Failure(Truncated); }
    offset := b.value.1;
    var asset := "0x" + ToHex(b.value.0);
    HexOfBytes(b.value.0, 20);
    b := Take(raw, offset, 32);
    if b.None? { return Failure(Truncated); }
    offset := b.value.1;
    var amount := FromBE(b.value.0);
    b := Take(raw, offset, 8);
    if b.None? { return Failure(Truncated); }
    offset := b.value.1;
    var targetBlock := FromBE(b.value.0);
    b := Take(raw, offset, 8);
    if b.None? { return Failure(Truncated); }
    offset := b.value.1;
    var deadline := FromBE(b.value.0);
    var candidates := DecodePackedCandidates(raw, offset, count);
    if candidates.Failure? { return Failure(candidates.error); }
    offset := candidates.value.1;
    assert raw[offset..] == [] <==> offset == |raw|;
    if offset != |raw| { return Failure(Trailing); }
    return Success(PyBatch(asset, amount, targetBlock, deadline, candidates.value.0));
  }
}
