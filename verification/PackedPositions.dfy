/**
 Which field of a request goes where, language by language: the bytes that Python and Rust write, and
 those that Python and the contract read, by position and from the request's own fields.
 */
module PackedPositions {
  import opened Bytes
  import opened HexText
  import opened PackedFormat
  import opened PackedLayout
  import Py = PythonPacked
  import PyTrip = PythonRoundTrip
  import Rs = RustEncoder
  import RsNumber = RustPacked
  import Sol = SolidityDecoder

  lemma SameBytes(s: seq<Byte>, t: seq<Byte>)
    requires |s| == |t| && FromBE(s) == FromBE(t)
    ensures s == t
  {
    hide FromBE, ToBE, Fits;
    BytesFit(s, |s|);
    BytesFit(t, |t|);
  }

  // ---- Python's encoder ----

  /** The text is 0x and spells these bytes, white space aside. */
  predicate PyText(text: string, bytes: seq<Byte>) {
    |text| >= 2 && text[..2] == "0x" && DecodeSpaced(text[2..]) == Some(bytes)
  }

  predicate PyLegLies(l: Py.PyLeg, raw: seq<Byte>, p: nat) {
    && |l.data| <= 2048 && p + 94 + |l.data| <= |raw|
    && LowerText(l.tokenIn) != LowerText(l.tokenOut)
    && PyText(l.adapter, raw[p..p + 20])
    && PyText(l.tokenIn, raw[p + 20..p + 40])
    && PyText(l.tokenOut, raw[p + 40..p + 60])
    && FromBE(raw[p + 60..p + 92]) == l.minOut
    && FromBE(raw[p + 92..p + 94]) == |l.data|
    && raw[p + 94..p + 94 + |l.data|] == l.data
  }

  function PyLegSizes(legs: seq<Py.PyLeg>): (s: seq<nat>)
    ensures |s| == |legs| && forall i :: 0 <= i < |s| ==> s[i] == |legs[i].data|
  {
    seq(|legs|, i requires 0 <= i < |legs| => |legs[i].data|)
  }

  function PySizes(b: Py.PyBatch): (s: seq<seq<nat>>)
    ensures |s| == |b.candidates| && forall k :: 0 <= k < |s| ==> s[k] == PyLegSizes(b.candidates[k].legs)
  {
    seq(|b.candidates|, k requires 0 <= k < |b.candidates| => PyLegSizes(b.candidates[k].legs))
  }

  predicate PyCandidateLies(c: Py.PyCandidate, raw: seq<Byte>, o: nat) {
    && 2 <= |c.legs| <= 4 && o + 65 <= |raw|
    && PyText(c.candidateId, raw[o..o + 32])
    && FromBE(raw[o + 32..o + 64]) == c.minProfit
    && raw[o + 64] == |c.legs|
    && forall i :: 0 <= i < |c.legs| ==> PyLegLies(c.legs[i], raw, o + 65 + LegOffset(PyLegSizes(c.legs), i))
  }

  predicate PyLaidOut(b: Py.PyBatch, raw: seq<Byte>) {
    && 1 <= |b.candidates| <= 8 && 70 <= |raw|
    && raw[0] == 1 && raw[1] == |b.candidates|
    && PyText(b.asset, raw[2..22])
    && FromBE(raw[22..54]) == b.amount
    && FromBE(raw[54..62]) == b.targetBlock
    && FromBE(raw[62..70]) == b.deadline
    && |raw| == CandidateOffset(PySizes(b), |b.candidates|)
    && forall k :: 0 <= k < |b.candidates| ==> PyCandidateLies(b.candidates[k], raw, CandidateOffset(PySizes(b), k))
  }

  lemma PyTextExactly(text: string, size: nat, bytes: seq<Byte>)
    requires |bytes| == size
    ensures PyText(text, bytes) <==> Py.HexBytes(text, size).Some? && FromBE(bytes) == Py.HexNumber(text, size)
  {
    hide FromBE, DecodeSpaced;
    if Py.HexBytes(text, size).Some? && FromBE(bytes) == Py.HexNumber(text, size) {
      SameBytes(bytes, Py.HexBytes(text, size).value);
    }
  }

  lemma UintExactly(value: int, bytes: seq<Byte>)
    ensures FromBE(bytes) == value ==> Py.UintBytes(value, |bytes|).Some? && Py.Natural(value) == value
    ensures Py.UintBytes(value, |bytes|).Some? ==> Py.Natural(value) == value
  {
    hide FromBE, ToBE;
    BytesFit(bytes, |bytes|);
  }

  lemma PyLegExactly(l: Py.PyLeg, raw: seq<Byte>, p: nat)
    ensures PyLegLies(l, raw, p) <==> Py.EncodableLeg(l) && LegLies(Py.LegMeaning(l), raw, p)
  {
    hide FromBE, DecodeSpaced, LowerText, PyText, Py.HexBytes, Py.HexNumber, Py.UintBytes, Py.Natural;
    if |l.data| <= 2048 && p + 94 + |l.data| <= |raw| {
      PyTextExactly(l.adapter, 20, raw[p..p + 20]);
      PyTextExactly(l.tokenIn, 20, raw[p + 20..p + 40]);
      PyTextExactly(l.tokenOut, 20, raw[p + 40..p + 60]);
      UintExactly(l.minOut, raw[p + 60..p + 92]);
    }
  }

  lemma PySizesAre(b: Py.PyBatch)
    ensures PySizes(b) == Sizes(Py.Meaning(b))
    ensures forall c: Py.PyCandidate :: PyLegSizes(c.legs) == LegSizes(Py.CandidateMeaning(c).legs)
  {
    hide Py.HexNumber, Py.Natural;
    forall c: Py.PyCandidate
      ensures PyLegSizes(c.legs) == LegSizes(Py.CandidateMeaning(c).legs)
    {
    }
    forall k | 0 <= k < |b.candidates|
      ensures PySizes(b)[k] == Sizes(Py.Meaning(b))[k]
    {
      assert Py.Meaning(b).candidates[k] == Py.CandidateMeaning(b.candidates[k]);
    }
  }

  lemma PyCandidateExactly(c: Py.PyCandidate, raw: seq<Byte>, o: nat)
    requires PyLegSizes(c.legs) == LegSizes(Py.CandidateMeaning(c).legs)
    ensures PyCandidateLies(c, raw, o) <==> Py.EncodableCandidate(c) && CandidateLies(Py.CandidateMeaning(c), raw, o)
  {
    hide FromBE, PyText, PyLegLies, LegLies, LegOffset, Py.EncodableLeg, Py.LegMeaning, Py.HexBytes, Py.HexNumber,
         Py.UintBytes, Py.Natural;
    if 2 <= |c.legs| <= 4 && o + 65 <= |raw| {
      PyTextExactly(c.candidateId, 32, raw[o..o + 32]);
      UintExactly(c.minProfit, raw[o + 32..o + 64]);
      var m := Py.CandidateMeaning(c);
      forall i | 0 <= i < |c.legs|
        ensures PyLegLies(c.legs[i], raw, o + 65 + LegOffset(PyLegSizes(c.legs), i))
           <==> Py.EncodableLeg(c.legs[i]) && LegLies(m.legs[i], raw, o + 65 + LegOffset(LegSizes(m.legs), i))
      {
        PyLegExactly(c.legs[i], raw, o + 65 + LegOffset(PyLegSizes(c.legs), i));
      }
      EachLegEncodable(c);
    }
  }

  lemma EachLegEncodable(c: Py.PyCandidate)
    ensures (forall l :: l in c.legs ==> Py.EncodableLeg(l))
            <==> forall i :: 0 <= i < |c.legs| ==> Py.EncodableLeg(c.legs[i])
  {
    hide Py.EncodableLeg;
  }

  lemma EachCandidateEncodable(b: Py.PyBatch)
    ensures (forall c :: c in b.candidates ==> Py.EncodableCandidate(c))
       <==> forall k :: 0 <= k < |b.candidates| ==> Py.EncodableCandidate(b.candidates[k])
  {
    hide Py.EncodableCandidate;
  }

  /** Python's encoder gives exactly this string for this batch, and raises exactly where no string is laid out so. */
  lemma PythonWritesExactly(b: Py.PyBatch, raw: seq<Byte>)
    ensures Py.PyEncode(b) == Some(raw) <==> PyLaidOut(b, raw)
  {
    hide FromBE, PyText, PyCandidateLies, CandidateLies, CandidateOffset, Py.EncodableCandidate, Py.CandidateMeaning,
         Py.HexBytes, Py.HexNumber, Py.UintBytes, Py.Natural, Encode, WellFormed;
    PyLayoutMeans(b, raw);
    LaidOutExactly(Py.Meaning(b), raw);
    if Py.Encodable(b) {
      PyTrip.MeaningWellFormed(b);
    }
  }

  lemma PyLayoutMeans(b: Py.PyBatch, raw: seq<Byte>)
    ensures PyLaidOut(b, raw) <==> Py.Encodable(b) && LaidOut(Py.Meaning(b), raw)
  {
    hide FromBE, PyText, PyCandidateLies, CandidateLies, CandidateOffset, Py.EncodableCandidate, Py.CandidateMeaning,
         Py.HexBytes, Py.HexNumber, Py.UintBytes, Py.Natural;
    if 1 <= |b.candidates| <= 8 && 70 <= |raw| {
      PyTextExactly(b.asset, 20, raw[2..22]);
      UintExactly(b.amount, raw[22..54]);
      UintExactly(b.targetBlock, raw[54..62]);
      UintExactly(b.deadline, raw[62..70]);
      PySizesAre(b);
      var m := Py.Meaning(b);
      forall k | 0 <= k < |b.candidates|
        ensures PyCandidateLies(b.candidates[k], raw, CandidateOffset(PySizes(b), k))
           <==>
             && Py.EncodableCandidate(b.candidates[k])
             && CandidateLies(m.candidates[k], raw, CandidateOffset(Sizes(m), k))
      {
        PyCandidateExactly(b.candidates[k], raw, CandidateOffset(PySizes(b), k));
      }
      EachCandidateEncodable(b);
    }
  }

  // ---- Rust's encoder ----

  /** The text is 0x and spells these bytes, two digits a byte. */
  predicate RsText(text: string, bytes: seq<Byte>) {
    |text| >= 2 && text[..2] == "0x" && DecodeStrict(text[2..]) == Some(bytes)
  }

  /** The text is a decimal or 0x numeral of what these bytes spell. */
  predicate RsNumeral(text: string, bytes: seq<Byte>) {
    RsNumber.NumeralValue(text) == Some(FromBE(bytes))
  }

  /** How many bytes 0x and a run of digit pairs stand for. */
  function RsSize(text: string): nat {
    if |text| < 2 then 0 else (|text| - 2) / 2
  }

  predicate RsLegLies(l: Rs.RsLeg, raw: seq<Byte>, p: nat) {
    && RsSize(l.data) <= 2048 && p + 94 + RsSize(l.data) <= |raw|
    && LowerText(l.tokenIn) != LowerText(l.tokenOut)
    && RsText(l.adapter, raw[p..p + 20])
    && RsText(l.tokenIn, raw[p + 20..p + 40])
    && RsText(l.tokenOut, raw[p + 40..p + 60])
    && RsNumeral(l.minOut, raw[p + 60..p + 92])
    && FromBE(raw[p + 92..p + 94]) == RsSize(l.data)
    && RsText(l.data, raw[p + 94..p + 94 + RsSize(l.data)])
  }

  function RsLegSizes(legs: seq<Rs.RsLeg>): (s: seq<nat>)
    ensures |s| == |legs| && forall i :: 0 <= i < |s| ==> s[i] == RsSize(legs[i].data)
  {
    seq(|legs|, i requires 0 <= i < |legs| => RsSize(legs[i].data))
  }

  function RsSizes(b: Rs.RsBatch): (s: seq<seq<nat>>)
    ensures |s| == |b.candidates| && forall k :: 0 <= k < |s| ==> s[k] == RsLegSizes(b.candidates[k].legs)
  {
    seq(|b.candidates|, k requires 0 <= k < |b.candidates| => RsLegSizes(b.candidates[k].legs))
  }

  predicate RsCandidateLies(c: Rs.RsCandidate, raw: seq<Byte>, o: nat) {
    && 2 <= |c.legs| <= 4 && o + 65 <= |raw|
    && RsText(c.candidateId, raw[o..o + 32])
    && RsNumeral(c.minProfit, raw[o + 32..o + 64])
    && raw[o + 64] == |c.legs|
    && forall i :: 0 <= i < |c.legs| ==> RsLegLies(c.legs[i], raw, o + 65 + LegOffset(RsLegSizes(c.legs), i))
  }

  predicate RsLaidOut(b: Rs.RsBatch, raw: seq<Byte>) {
    && 1 <= |b.candidates| <= 8 && 70 <= |raw|
    && raw[0] == 1 && raw[1] == |b.candidates|
    && RsText(b.asset, raw[2..22])
    && RsNumeral(b.amount, raw[22..54])
    && FromBE(raw[54..62]) == b.targetBlock
    && FromBE(raw[62..70]) == b.deadline
    && |raw| == CandidateOffset(RsSizes(b), |b.candidates|)
    && forall k :: 0 <= k < |b.candidates| ==> RsCandidateLies(b.candidates[k], raw, CandidateOffset(RsSizes(b), k))
  }

  lemma {:induction false} StrictLength(s: string)
    ensures DecodeStrict(s).Some? ==> |s| == 2 * |DecodeStrict(s).value|
  {
    if |s| < 2 {
    } else {
      StrictLength(s[2..]);
    }
  }

  lemma RsTextExactly(text: string, size: nat, bytes: seq<Byte>)
    requires |bytes| == size
    ensures RsText(text, bytes) <==> Rs.FixedHex(text, size).Some? && FromBE(bytes) == Rs.HexNumber(text, size)
  {
    hide FromBE, DecodeStrict;
    if Rs.FixedHex(text, size).Some? && FromBE(bytes) == Rs.HexNumber(text, size) {
      SameBytes(bytes, Rs.FixedHex(text, size).value);
    }
  }

  lemma RsNumeralExactly(text: string, bytes: seq<Byte>)
    requires |bytes| == 32
    ensures RsNumeral(text, bytes) <==> RsNumber.ParsedUint(text, 32).Some? && FromBE(bytes) == Rs.UintNumber(text)
  {
    hide FromBE, ToBE, RsNumber.NumeralValue;
    BytesFit(bytes, 32);
  }

  lemma RsDataExactly(text: string, bytes: seq<Byte>)
    ensures RsText(text, bytes) && |bytes| <= 2048 <==> Rs.LegData(text) == Some(bytes)
    ensures Rs.LegData(text) == Some(bytes) ==> RsSize(text) == |bytes|
  {
    if |text| >= 2 {
      StrictLength(text[2..]);
    }
    hide DecodeStrict;
  }

  lemma RsLegExactly(l: Rs.RsLeg, raw: seq<Byte>, p: nat)
    ensures RsLegLies(l, raw, p) <==> Rs.EncodableLeg(l) && LegLies(Rs.LegMeaning(l), raw, p)
  {
    hide FromBE, DecodeStrict, LowerText, RsText, RsNumeral, RsSize, Rs.FixedHex, Rs.HexNumber, Rs.UintNumber,
         Rs.LegData, RsNumber.ParsedUint;
    var data := Rs.LegMeaning(l).data;
    if Rs.LegData(l.data).Some? {
      RsDataExactly(l.data, data);
    }
    if p + 94 <= |raw| {
      RsTextExactly(l.adapter, 20, raw[p..p + 20]);
      RsTextExactly(l.tokenIn, 20, raw[p + 20..p + 40]);
      RsTextExactly(l.tokenOut, 20, raw[p + 40..p + 60]);
      RsNumeralExactly(l.minOut, raw[p + 60..p + 92]);
    }
    if RsSize(l.data) <= 2048 && p + 94 + RsSize(l.data) <= |raw| {
      RsDataExactly(l.data, raw[p + 94..p + 94 + RsSize(l.data)]);
    }
  }

  lemma LegSizeAgrees(l: Rs.RsLeg)
    requires Rs.EncodableLeg(l)
    ensures RsSize(l.data) == |Rs.LegMeaning(l).data|
  {
    hide DecodeStrict, LowerText, RsSize, Rs.FixedHex, Rs.HexNumber, Rs.UintNumber, Rs.LegData, RsNumber.ParsedUint;
    RsDataExactly(l.data, Rs.LegData(l.data).value);
  }

  /** Data whose text does not read has no size in the meaning; it never gets so far. */
  lemma RsOffsets(c: Rs.RsCandidate, n: nat)
    requires n <= |c.legs| && forall i :: 0 <= i < n ==> Rs.EncodableLeg(c.legs[i])
    ensures LegOffset(RsLegSizes(c.legs), n) == LegOffset(LegSizes(Rs.CandidateMeaning(c).legs), n)
  {
    hide Rs.EncodableLeg, RsSize, Rs.LegMeaning, Rs.HexNumber, Rs.UintNumber;
    if n == 0 {
    } else {
      RsOffsets(c, n - 1);
      LegSizeAgrees(c.legs[n - 1]);
    }
  }

  lemma {:induction false} RsLegsExactly(c: Rs.RsCandidate, raw: seq<Byte>, o: nat, n: nat)
    requires n <= |c.legs|
    ensures var legs := Rs.CandidateMeaning(c).legs;
            (forall i :: 0 <= i < n ==> RsLegLies(c.legs[i], raw, o + LegOffset(RsLegSizes(c.legs), i)))
            <==> (forall i :: 0 <= i < n ==> Rs.EncodableLeg(c.legs[i]))
                 && forall i :: 0 <= i < n ==> LegLies(legs[i], raw, o + LegOffset(LegSizes(legs), i))
  {
    hide RsLegLies, LegLies, LegOffset, Rs.EncodableLeg, Rs.LegMeaning, Rs.HexNumber, Rs.UintNumber;
    if n == 0 {
    } else {
      RsLegsExactly(c, raw, o, n - 1);
      RsLegExactly(c.legs[n - 1], raw, o + LegOffset(RsLegSizes(c.legs), n - 1));
      if forall i :: 0 <= i < n - 1 ==> Rs.EncodableLeg(c.legs[i]) {
        RsOffsets(c, n - 1);
      }
    }
  }

  lemma RsCandidateExactly(c: Rs.RsCandidate, raw: seq<Byte>, o: nat)
    ensures RsCandidateLies(c, raw, o) <==> Rs.EncodableCandidate(c) && CandidateLies(Rs.CandidateMeaning(c), raw, o)
  {
    hide FromBE, RsText, RsNumeral, RsLegLies, LegLies, LegOffset, Rs.EncodableLeg, Rs.LegMeaning, Rs.FixedHex,
         Rs.HexNumber, Rs.UintNumber, RsNumber.ParsedUint;
    if 2 <= |c.legs| <= 4 && o + 65 <= |raw| {
      RsTextExactly(c.candidateId, 32, raw[o..o + 32]);
      RsNumeralExactly(c.minProfit, raw[o + 32..o + 64]);
      RsLegsExactly(c, raw, o + 65, |c.legs|);
    }
  }

  lemma RsCandidateOffsets(b: Rs.RsBatch, n: nat)
    requires n <= |b.candidates| && forall k :: 0 <= k < n ==> Rs.EncodableCandidate(b.candidates[k])
    ensures CandidateOffset(RsSizes(b), n) == CandidateOffset(Sizes(Rs.Meaning(b)), n)
  {
    hide LegOffset, Rs.EncodableLeg, Rs.LegMeaning, Rs.FixedHex, Rs.HexNumber, Rs.UintNumber, RsNumber.ParsedUint;
    if n == 0 {
    } else {
      RsCandidateOffsets(b, n - 1);
      RsOffsets(b.candidates[n - 1], |b.candidates[n - 1].legs|);
    }
  }

  lemma {:induction false} RsCandidatesExactly(b: Rs.RsBatch, raw: seq<Byte>, n: nat)
    requires n <= |b.candidates|
    ensures var cs := Rs.Meaning(b).candidates;
            (forall k :: 0 <= k < n ==> RsCandidateLies(b.candidates[k], raw, CandidateOffset(RsSizes(b), k)))
            <==> (forall k :: 0 <= k < n ==> Rs.EncodableCandidate(b.candidates[k]))
                 && forall k :: 0 <= k < n ==> CandidateLies(cs[k], raw, CandidateOffset(Sizes(Rs.Meaning(b)), k))
  {
    hide RsCandidateLies, CandidateLies, CandidateOffset, Rs.EncodableCandidate, Rs.CandidateMeaning, Rs.HexNumber,
         Rs.UintNumber;
    if n == 0 {
    } else {
      RsCandidatesExactly(b, raw, n - 1);
      RsCandidateExactly(b.candidates[n - 1], raw, CandidateOffset(RsSizes(b), n - 1));
      if forall k :: 0 <= k < n - 1 ==> Rs.EncodableCandidate(b.candidates[k]) {
        RsCandidateOffsets(b, n - 1);
      }
    }
  }

  lemma RsLayoutMeans(b: Rs.RsBatch, raw: seq<Byte>)
    ensures RsLaidOut(b, raw) <==> Rs.Encodable(b) && LaidOut(Rs.Meaning(b), raw)
  {
    hide FromBE, RsText, RsNumeral, RsCandidateLies, CandidateLies, CandidateOffset, Rs.EncodableCandidate,
         Rs.CandidateMeaning, Rs.FixedHex, Rs.HexNumber, Rs.UintNumber, RsNumber.ParsedUint;
    if 1 <= |b.candidates| <= 8 && 70 <= |raw| {
      RsTextExactly(b.asset, 20, raw[2..22]);
      RsNumeralExactly(b.amount, raw[22..54]);
      RsCandidatesExactly(b, raw, |b.candidates|);
      if forall k :: 0 <= k < |b.candidates| ==> Rs.EncodableCandidate(b.candidates[k]) {
        RsCandidateOffsets(b, |b.candidates|);
      }
    }
  }

  /** Rust's encoder gives exactly this string for this request, and fails exactly where no string is laid out so. */
  lemma RustWritesExactly(b: Rs.RsBatch, raw: seq<Byte>)
    ensures Rs.RsEncode(b) == Some(raw) <==> RsLaidOut(b, raw)
  {
    hide RsLaidOut, LaidOut, Rs.EncodableCandidate, Rs.Meaning, Rs.FixedHex, RsNumber.ParsedUint, Encode, WellFormed;
    RsLayoutMeans(b, raw);
    LaidOutExactly(Rs.Meaning(b), raw);
    if Rs.Encodable(b) {
      Rs.MeaningWellFormed(b);
    }
  }

  // ---- the readers ----

  /**
   The contract reads a batch from exactly the strings that are laid out as that batch; Rust's validator accepts the
   same strings.
   */
  lemma ContractReadsExactly(b: Batch, raw: seq<Byte>)
    ensures Sol.Decoded(raw) == Success(b) <==> LaidOut(b, raw)
    ensures LaidOut(b, raw) ==> Rs.Validated(raw) == Success(())
    ensures Rs.Validated(raw).Success? ==> exists v :: LaidOut(v, raw)
  {
    hide LaidOut, Encode, WellFormed, ParseBatch;
    LaidOutExactly(b, raw);
    if ParseBatch(raw).Success? {
      EncodeParse(raw);
      LaidOutExactly(ParseBatch(raw).value, raw);
    }
    if LaidOut(b, raw) {
      ParseEncode(b);
      EncodedLength(b);
    }
  }

  predicate PyLegReads(l: Py.PyLeg, raw: seq<Byte>, p: nat) {
    && p + 94 + |l.data| <= |raw|
    && l.adapter == "0x" + ToHex(raw[p..p + 20])
    && l.tokenIn == "0x" + ToHex(raw[p + 20..p + 40])
    && l.tokenOut == "0x" + ToHex(raw[p + 40..p + 60])
    && l.minOut == FromBE(raw[p + 60..p + 92])
    && |l.data| == FromBE(raw[p + 92..p + 94])
    && l.data == raw[p + 94..p + 94 + |l.data|]
  }

  predicate PyCandidateReads(c: Py.PyCandidate, raw: seq<Byte>, o: nat) {
    && o + 65 <= |raw|
    && c.candidateId == "0x" + ToHex(raw[o..o + 32])
    && c.minProfit == FromBE(raw[o + 32..o + 64])
    && |c.legs| == raw[o + 64]
    && forall i :: 0 <= i < |c.legs| ==> PyLegReads(c.legs[i], raw, o + 65 + LegOffset(PyLegSizes(c.legs), i))
  }

  predicate PyReads(b: Py.PyBatch, raw: seq<Byte>) {
    && 70 <= |raw| && raw[0] == 1 && raw[1] == |b.candidates|
    && b.asset == "0x" + ToHex(raw[2..22])
    && b.amount == FromBE(raw[22..54])
    && b.targetBlock == FromBE(raw[54..62])
    && b.deadline == FromBE(raw[62..70])
    && |raw| == CandidateOffset(PySizes(b), |b.candidates|)
    && forall k :: 0 <= k < |b.candidates| ==> PyCandidateReads(b.candidates[k], raw, CandidateOffset(PySizes(b), k))
  }

  lemma LegViewReads(l: Leg, raw: seq<Byte>, p: nat)
    requires LegLies(l, raw, p)
    ensures PyLegReads(Py.LegView(l), raw, p)
  {
    hide FromBE, ToHex, Py.HexOf;
    Py.HexOfBytes(raw[p..p + 20], 20);
    Py.HexOfBytes(raw[p + 20..p + 40], 20);
    Py.HexOfBytes(raw[p + 40..p + 60], 20);
  }

  lemma CandidateViewReads(c: Candidate, raw: seq<Byte>, o: nat)
    requires CandidateLies(c, raw, o)
    ensures PyCandidateReads(Py.CandidateView(c), raw, o)
  {
    hide FromBE, ToHex, Py.HexOf, LegLies, PyLegReads, Py.LegView, LegOffset;
    Py.HexOfBytes(raw[o..o + 32], 32);
    var v := Py.CandidateView(c);
    ViewSizes(c);
    forall i | 0 <= i < |c.legs|
      ensures PyLegReads(v.legs[i], raw, o + 65 + LegOffset(PyLegSizes(v.legs), i))
    {
      LegViewReads(c.legs[i], raw, o + 65 + LegOffset(LegSizes(c.legs), i));
    }
  }

  lemma ViewSizes(c: Candidate)
    ensures PyLegSizes(Py.CandidateView(c).legs) == LegSizes(c.legs)
  {
    hide Py.HexOf;
  }

  /** Python's decoder hands back the fields that stand at these positions. */
  lemma PythonReadsPositions(raw: seq<Byte>)
    ensures Py.PyDecode(raw).Success? <==> exists b :: LaidOut(b, raw)
    ensures Py.PyDecode(raw).Success? ==> PyReads(Py.PyDecode(raw).value, raw)
  {
    hide FromBE, ToHex, Py.HexOf, CandidateLies, PyCandidateReads, Py.CandidateView, CandidateOffset, ParseBatch;
    forall b | LaidOut(b, raw)
      ensures ParseBatch(raw).Success?
    {
      ContractReadsExactly(b, raw);
    }
    if ParseBatch(raw).Success? {
      var b := ParseBatch(raw).value;
      ContractReadsExactly(b, raw);
      Py.HexOfBytes(raw[2..22], 20);
      var v := Py.View(b);
      ViewSizesAre(b);
      forall k | 0 <= k < |b.candidates|
        ensures PyCandidateReads(v.candidates[k], raw, CandidateOffset(PySizes(v), k))
      {
        CandidateViewReads(b.candidates[k], raw, CandidateOffset(Sizes(b), k));
      }
    }
  }

  lemma ViewSizesAre(b: Batch)
    ensures PySizes(Py.View(b)) == Sizes(b)
  {
    hide Py.HexOf, Py.CandidateView;
    forall k | 0 <= k < |b.candidates|
      ensures PySizes(Py.View(b))[k] == Sizes(b)[k]
    {
      ViewSizes(b.candidates[k]);
      assert Py.View(b).candidates[k] == Py.CandidateView(b.candidates[k]);
    }
  }

  // ---- the limits are attained ----

  function FullLeg(): Leg {
    Leg(1, 2, 3, 0, seq(2048, i => 0))
  }

  function FullBatch(): Batch {
    var candidate := Candidate(1, 0, [FullLeg(), FullLeg(), FullLeg(), FullLeg()]);
    Batch(1, 1, 1, 1, seq(8, i => candidate))
  }

  /** Eight candidates of four legs with 2048 bytes each are a batch, of 69134 bytes. */
  lemma LimitsAttained()
    ensures LaidOut(FullBatch(), Encode(FullBatch())) && |Encode(FullBatch())| == 69134
    ensures Sol.Decoded(Encode(FullBatch())) == Success(FullBatch())
  {
    hide FromBE, ToBE, EncodeHeader, EncodeCandidates, LaidOut, ParseBatch;
    var b := FullBatch();
    SmallFits();
    assert WellFormedLeg(FullLeg());
    assert WellFormed(b);
    LaidOutExactly(b, Encode(b));
    ContractReadsExactly(b, Encode(b));
    FullLength(8);
    CandidatesOffsetIsLength(b, 8);
    assert b.candidates[..8] == b.candidates;
    HeaderLength(b);
  }

  lemma SmallFits()
    ensures forall n: nat, k: nat :: n < 4 && k >= 1 ==> Fits(n, k)
  {
    hide Fits;
    forall n: nat, k: nat | n < 4 && k >= 1
      ensures Fits(n, k)
    {
      FitsIffBelow(n, k);
      Pow256Monotone(1, k);
      assert Pow256(1) == 256 by { Pow256Next(0); }
    }
  }

  lemma FullLength(n: nat)
    requires n <= 8
    ensures CandidateOffset(Sizes(FullBatch()), n) == 70 + 8633 * n
  {
    if n == 0 {
    } else {
      FullLength(n - 1);
      var sizes := Sizes(FullBatch())[n - 1];
      assert |sizes| == 4 && forall i :: 0 <= i < 4 ==> sizes[i] == 2048;
      assert LegOffset(sizes, 1) == 2142 && LegOffset(sizes, 2) == 4284 && LegOffset(sizes, 3) == 6426;
      assert LegOffset(sizes, 4) == 8568;
    }
  }
}
