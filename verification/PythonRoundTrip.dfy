/** Round trips of the Python encoder and decoder, and exactly where they hold. */
module PythonRoundTrip {
  import opened Bytes
  import opened HexText
  import opened PackedFormat
  import opened PythonPacked

  // ---- an encodable batch means a well-formed one ----

  lemma LegMeaningWellFormed(l: PyLeg)
    requires EncodableLeg(l)
    ensures WellFormedLeg(LegMeaning(l))
  {
    HexBytesSpell(l.adapter, 20);
    HexBytesSpell(l.tokenIn, 20);
    HexBytesSpell(l.tokenOut, 20);
  }

  lemma CandidateMeaningWellFormed(c: PyCandidate)
    requires EncodableCandidate(c)
    ensures WellFormedCandidate(CandidateMeaning(c))
  {
    HexBytesSpell(c.candidateId, 32);
    forall i | 0 <= i < |c.legs|
      ensures WellFormedLeg(LegsMeaning(c.legs)[i])
    {
      assert c.legs[i] in c.legs;
      LegMeaningWellFormed(c.legs[i]);
    }
  }

  lemma MeaningWellFormed(b: PyBatch)
    requires Encodable(b)
    ensures WellFormed(Meaning(b))
  {
    HexBytesSpell(b.asset, 20);
    forall i | 0 <= i < |b.candidates|
      ensures WellFormedCandidate(CandidatesMeaning(b.candidates)[i])
    {
      assert b.candidates[i] in b.candidates;
      CandidateMeaningWellFormed(b.candidates[i]);
    }
  }

  /** Whatever encodes is decoded again, with every hexadecimal field in its one canonical spelling. */
  lemma DecodeEncode(b: PyBatch)
    requires PyEncode(b).Some?
    ensures PyDecode(PyEncode(b).value) == Success(View(Meaning(b)))
  {
    MeaningWellFormed(b);
    ParseEncode(Meaning(b));
  }

  // ---- the round trip is the identity exactly on canonical text ----

  predicate CanonicalLeg(l: PyLeg) {
    Canonical(l.adapter) && Canonical(l.tokenIn) && Canonical(l.tokenOut)
  }

  predicate CanonicalCandidate(c: PyCandidate) {
    Canonical(c.candidateId) && forall i :: 0 <= i < |c.legs| ==> CanonicalLeg(c.legs[i])
  }

  predicate CanonicalBatch(b: PyBatch) {
    Canonical(b.asset) && forall i :: 0 <= i < |b.candidates| ==> CanonicalCandidate(b.candidates[i])
  }

  lemma CanonicalIffReadsBack(value: string, size: nat)
    requires HexBytes(value, size).Some?
    ensures HexOf(HexNumber(value, size), size) == value <==> Canonical(value)
  {
    var raw := HexBytes(value, size).value;
    HexBytesSpell(value, size);
    PrefixedHexCanonical(raw);
    if Canonical(value) {
      CanonicalReadsBack(value[2..]);
      assert value == "0x" + value[2..];
    }
  }

  lemma LegReadsBack(l: PyLeg)
    requires EncodableLeg(l)
    ensures LegView(LegMeaning(l)) == l <==> CanonicalLeg(l)
  {
    CanonicalIffReadsBack(l.adapter, 20);
    CanonicalIffReadsBack(l.tokenIn, 20);
    CanonicalIffReadsBack(l.tokenOut, 20);
  }

  lemma CandidateReadsBack(c: PyCandidate)
    requires EncodableCandidate(c)
    ensures CandidateView(CandidateMeaning(c)) == c <==> CanonicalCandidate(c)
  {
    hide HexBytes, HexOf, HexNumber, EncodableLeg, LegsMeaning, LegMeaning, LegView, CanonicalLeg, Canonical, Fits;
    CanonicalIffReadsBack(c.candidateId, 32);
    var back := LegsView(LegsMeaning(c.legs));
    forall i | 0 <= i < |c.legs|
      ensures back[i] == c.legs[i] <==> CanonicalLeg(c.legs[i])
    {
      assert c.legs[i] in c.legs;
      LegReadsBack(c.legs[i]);
    }
    assert back == c.legs <==> forall i :: 0 <= i < |c.legs| ==> back[i] == c.legs[i];
  }

  lemma CandidatesReadBack(cs: seq<PyCandidate>)
    requires forall c :: c in cs ==> EncodableCandidate(c)
    ensures CandidatesView(CandidatesMeaning(cs)) == cs <==> forall i :: 0 <= i < |cs| ==> CanonicalCandidate(cs[i])
  {
    hide EncodableCandidate, CandidatesMeaning, CandidateMeaning, CandidateView, CanonicalCandidate;
    var back := CandidatesView(CandidatesMeaning(cs));
    forall i | 0 <= i < |cs|
      ensures back[i] == cs[i] <==> CanonicalCandidate(cs[i])
    {
      assert cs[i] in cs;
      CandidateReadsBack(cs[i]);
    }
    assert back == cs <==> forall i :: 0 <= i < |cs| ==> back[i] == cs[i];
  }

  /** decode(encode(b)) == b for the batches spelled canonically, and for no others. */
  lemma RoundTripExactlyCanonical(b: PyBatch)
    requires PyEncode(b).Some?
    ensures PyDecode(PyEncode(b).value) == Success(b) <==> CanonicalBatch(b)
  {
    hide HexBytes, HexOf, HexNumber, EncodableCandidate, CandidatesMeaning, CandidatesView, Encode, ParseBatch,
         CanonicalCandidate, Canonical, Fits;
    DecodeEncode(b);
    CanonicalIffReadsBack(b.asset, 20);
    CandidatesReadBack(b.candidates);
  }

  // ---- encoding a decoded batch ----

  lemma HexOfReads(n: nat, size: nat)
    requires Fits(n, size)
    ensures HexBytes(HexOf(n, size), size) == Some(ToBE(n, size)) && HexNumber(HexOf(n, size), size) == n
    ensures LowerText(HexOf(n, size)) == HexOf(n, size)
  {
    ToHexReadsBack(ToBE(n, size));
    PrefixedHexCanonical(ToBE(n, size));
    CanonicalIsLower(HexOf(n, size));
  }

  lemma LegViewMeans(l: Leg)
    requires WellFormedLeg(l)
    ensures LegMeaning(LegView(l)) == l
    ensures EncodableLeg(LegView(l)) <==> l.tokenIn != l.tokenOut
  {
    HexOfReads(l.adapter, 20);
    HexOfReads(l.tokenIn, 20);
    HexOfReads(l.tokenOut, 20);
  }

  predicate DistinctInLegs(legs: seq<Leg>) {
    forall i :: 0 <= i < |legs| ==> legs[i].tokenIn != legs[i].tokenOut
  }

  predicate DistinctTokens(b: Batch) {
    forall i :: 0 <= i < |b.candidates| ==> DistinctInLegs(b.candidates[i].legs)
  }

  lemma LegsViewMeaning(legs: seq<Leg>)
    requires forall l :: l in legs ==> WellFormedLeg(l)
    ensures LegsMeaning(LegsView(legs)) == legs
  {
    forall i | 0 <= i < |legs|
      ensures LegsMeaning(LegsView(legs))[i] == legs[i]
    {
      assert legs[i] in legs;
      LegViewMeans(legs[i]);
    }
  }

  lemma LegsViewEncodable(legs: seq<Leg>)
    requires forall l :: l in legs ==> WellFormedLeg(l)
    ensures (forall l :: l in LegsView(legs) ==> EncodableLeg(l)) <==> DistinctInLegs(legs)
  {
    var view := LegsView(legs);
    forall i | 0 <= i < |legs|
      ensures view[i] in view && (EncodableLeg(view[i]) <==> legs[i].tokenIn != legs[i].tokenOut)
    {
      assert legs[i] in legs;
      LegViewMeans(legs[i]);
    }
  }

  lemma CandidateViewMeans(c: Candidate)
    requires WellFormedCandidate(c)
    ensures CandidateMeaning(CandidateView(c)) == c
    ensures EncodableCandidate(CandidateView(c)) <==> DistinctInLegs(c.legs)
  {
    hide HexBytes, HexOf, HexNumber, EncodableLeg, LegsMeaning, LegsView, WellFormedLeg, DistinctInLegs, Fits;
    HexOfReads(c.candidateId, 32);
    LegsViewMeaning(c.legs);
    LegsViewEncodable(c.legs);
  }

  lemma CandidatesViewMeaning(cs: seq<Candidate>)
    requires forall c :: c in cs ==> WellFormedCandidate(c)
    ensures CandidatesMeaning(CandidatesView(cs)) == cs
  {
    forall i | 0 <= i < |cs|
      ensures CandidatesMeaning(CandidatesView(cs))[i] == cs[i]
    {
      assert cs[i] in cs;
      CandidateViewMeans(cs[i]);
    }
  }

  lemma CandidatesViewEncodable(cs: seq<Candidate>)
    requires forall c :: c in cs ==> WellFormedCandidate(c)
    ensures (forall c :: c in CandidatesView(cs) ==> EncodableCandidate(c))
       <==> forall i :: 0 <= i < |cs| ==> DistinctInLegs(cs[i].legs)
  {
    var view := CandidatesView(cs);
    forall i | 0 <= i < |cs|
      ensures view[i] in view && (EncodableCandidate(view[i]) <==> DistinctInLegs(cs[i].legs))
    {
      assert cs[i] in cs;
      CandidateViewMeans(cs[i]);
    }
  }

  /**
   Accepted bytes encode back to themselves exactly when every leg has two distinct tokens; otherwise the encoder
   refuses.
   */
  lemma EncodeDecode(raw: seq<Byte>)
    requires PyDecode(raw).Success?
    ensures PyEncode(PyDecode(raw).value) == if DistinctTokens(ParseBatch(raw).value) then Some(raw) else None
  {
    hide HexBytes, HexOf, HexNumber, EncodableCandidate, CandidatesMeaning, CandidatesView, ParseBatch, Encode,
         WellFormedCandidate, DistinctInLegs, Fits;
    EncodeParse(raw);
    var b := ParseBatch(raw).value;
    HexOfReads(b.asset, 20);
    CandidatesViewMeaning(b.candidates);
    CandidatesViewEncodable(b.candidates);
    assert Meaning(View(b)) == b;
  }

  // ---- where the distinct-token check of the encoder is weaker than it looks ----

  /**
   bytes.fromhex skips white space, so one address has many spellings. The encoder compares
   spellings: a leg whose two token fields spell one address differently is packed, and the
   contract's leg check will refuse it.
   */
  lemma SpacedTwinIsPacked(text: string, adapter: string, minOut: int)
    requires HexBytes("0x" + text, 20).Some? && HexBytes(adapter, 20).Some? && UintBytes(minOut, 32).Some?
    ensures var l := PyLeg(adapter, "0x" + text, "0x " + text, minOut, []);
            EncodableLeg(l) && LegMeaning(l).tokenIn == LegMeaning(l).tokenOut
  {
    var a, b := "0x" + text, "0x " + text;
    assert a[2..] == text;
    assert b[2..] == " " + text;
    assert (" " + text)[1..] == text;
    LowerTextLength(a);
    LowerTextLength(b);
  }

  /** What a field of hexadecimal text spells: its digits, without white space and in lower case. */
  function Spelled(value: string): string
    requires HasPrefix(value)
  {
    LowerText(NoSpaces(value[2..]))
  }

  lemma SameNumberSpelledAlike(a: string, b: string, size: nat)
    requires HexBytes(a, size).Some? && HexBytes(b, size).Some?
    ensures HexNumber(a, size) == HexNumber(b, size) <==> Spelled(a) == Spelled(b)
  {
    hide ToHex, DecodeSpaced, DecodeStrict, FromBE, ToBE, Fits, LowerText, NoSpaces;
    var x, y := HexBytes(a, size).value, HexBytes(b, size).value;
    SpacedTextSpells(a[2..]);
    SpacedTextSpells(b[2..]);
    HexBytesSpell(a, size);
    HexBytesSpell(b, size);
    ToHexReadsBack(x);
    ToHexReadsBack(y);
  }

  /**
   The encoder takes two tokens of a leg for distinct when their lowered texts differ; they are one
   token exactly when the texts also agree without white space.
   */
  lemma TokensDifferExactly(l: PyLeg)
    requires EncodableLeg(l)
    ensures LegMeaning(l).tokenIn == LegMeaning(l).tokenOut <==> Spelled(l.tokenIn) == Spelled(l.tokenOut)
  {
    hide Spelled, HexNumber, UintBytes;
    SameNumberSpelledAlike(l.tokenIn, l.tokenOut, 20);
  }
}
