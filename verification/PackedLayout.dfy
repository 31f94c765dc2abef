/**
 The packed batch by position. Every offset, width and limit is written out here, and nothing is said
 in terms of the encoder or the parser; both are then shown to do exactly this.
 */
module PackedLayout {
  import opened Bytes
  import opened PackedFormat

  // ---- offsets, from the sizes of the leg data ----

  /** Where leg i begins behind the fixed fields of its candidate. */
  function LegOffset(sizes: seq<nat>, i: nat): nat
    requires i <= |sizes|
  {
    if i == 0 then 0 else LegOffset(sizes, i - 1) + 94 + sizes[i - 1]
  }

  /** Where candidate k begins. */
  function CandidateOffset(sizes: seq<seq<nat>>, k: nat): nat
    requires k <= |sizes|
  {
    if k == 0 then 70 else CandidateOffset(sizes, k - 1) + 65 + LegOffset(sizes[k - 1], |sizes[k - 1]|)
  }

  function LegSizes(legs: seq<Leg>): (s: seq<nat>)
    ensures |s| == |legs| && forall i :: 0 <= i < |s| ==> s[i] == |legs[i].data|
  {
    seq(|legs|, i requires 0 <= i < |legs| => |legs[i].data|)
  }

  function Sizes(b: Batch): (s: seq<seq<nat>>)
    ensures |s| == |b.candidates| && forall k :: 0 <= k < |s| ==> s[k] == LegSizes(b.candidates[k].legs)
  {
    seq(|b.candidates|, k requires 0 <= k < |b.candidates| => LegSizes(b.candidates[k].legs))
  }

  // ---- the layout ----

  predicate LegLies(l: Leg, raw: seq<Byte>, p: nat) {
    && |l.data| <= 2048 && p + 94 + |l.data| <= |raw|
    && FromBE(raw[p..p + 20]) == l.adapter
    && FromBE(raw[p + 20..p + 40]) == l.tokenIn
    && FromBE(raw[p + 40..p + 60]) == l.tokenOut
    && FromBE(raw[p + 60..p + 92]) == l.minOut
    && FromBE(raw[p + 92..p + 94]) == |l.data|
    && raw[p + 94..p + 94 + |l.data|] == l.data
  }

  predicate CandidateLies(c: Candidate, raw: seq<Byte>, o: nat) {
    && 2 <= |c.legs| <= 4 && o + 65 <= |raw|
    && FromBE(raw[o..o + 32]) == c.candidateId
    && FromBE(raw[o + 32..o + 64]) == c.minProfit
    && raw[o + 64] == |c.legs|
    && forall i :: 0 <= i < |c.legs| ==> LegLies(c.legs[i], raw, o + 65 + LegOffset(LegSizes(c.legs), i))
  }

  predicate HeaderLies(asset: nat, amount: nat, targetBlock: nat, deadline: nat, count: nat, raw: seq<Byte>) {
    && 1 <= count <= 8 && 70 <= |raw|
    && raw[0] == 1 && raw[1] == count
    && FromBE(raw[2..22]) == asset
    && FromBE(raw[22..54]) == amount
    && FromBE(raw[54..62]) == targetBlock
    && FromBE(raw[62..70]) == deadline
  }

  predicate LaidOut(b: Batch, raw: seq<Byte>) {
    && HeaderLies(b.asset, b.amount, b.targetBlock, b.deadline, |b.candidates|, raw)
    && |raw| == CandidateOffset(Sizes(b), |b.candidates|)
    && forall k :: 0 <= k < |b.candidates| ==> CandidateLies(b.candidates[k], raw, CandidateOffset(Sizes(b), k))
  }

  // ---- one leg ----

  lemma Slice(s: seq<Byte>, o: nat, n: nat, a: nat, b: nat)
    requires o + n <= |s| && a <= b <= n
    ensures s[o..o + n][a..b] == s[o + a..o + b]
  {
    var t := s[o..o + n];
    assert forall k :: 0 <= k < b - a ==> t[a..b][k] == t[a + k] == s[o + a + k];
  }

  lemma LegLiesExactly(l: Leg, raw: seq<Byte>, p: nat)
    ensures LegLies(l, raw, p)
       <==> WellFormedLeg(l) && p + 94 + |l.data| <= |raw| && raw[p..p + 94 + |l.data|] == EncodeLeg(l)
  {
    hide FromBE, ToBE;
    var n := 94 + |l.data|;
    if p + n <= |raw| {
      var s := raw[p..p + n];
      LegSlices(raw, p, n);
      LegFields(ToBE(l.adapter, 20), ToBE(l.tokenIn, 20), ToBE(l.tokenOut, 20), ToBE(l.minOut, 32), ToBE(|l.data|, 2),
          l.data, []);
      assert EncodeLeg(l) + [] == EncodeLeg(l);
      if LegLies(l, raw, p) {
        LegBytes(l, s);
      } else if WellFormedLeg(l) && s == EncodeLeg(l) {
        DataLengthFits(|l.data|);
        assert false;
      }
    }
  }

  lemma LegSlices(raw: seq<Byte>, p: nat, n: nat)
    requires p + n <= |raw| && n >= 94
    ensures var s := raw[p..p + n];
            && s[..20] == raw[p..p + 20] && s[20..40] == raw[p + 20..p + 40] && s[40..60] == raw[p + 40..p + 60]
            && s[60..92] == raw[p + 60..p + 92] && s[92..94] == raw[p + 92..p + 94] && s[94..] == raw[p + 94..p + n]
  {
    Slice(raw, p, n, 0, 20);
    Slice(raw, p, n, 20, 40);
    Slice(raw, p, n, 40, 60);
    Slice(raw, p, n, 60, 92);
    Slice(raw, p, n, 92, 94);
    Slice(raw, p, n, 94, n);
  }

  /** Bytes whose slices read as the leg's fields are the leg's encoding. */
  lemma LegBytes(l: Leg, s: seq<Byte>)
    requires |s| == 94 + |l.data| && |l.data| <= 2048
    requires FromBE(s[..20]) == l.adapter && FromBE(s[20..40]) == l.tokenIn && FromBE(s[40..60]) == l.tokenOut
    requires FromBE(s[60..92]) == l.minOut && FromBE(s[92..94]) == |l.data| && s[94..] == l.data
    ensures WellFormedLeg(l) && s == EncodeLeg(l)
  {
    hide FromBE, ToBE, Fits;
    BytesFit(s[..20], 20);
    BytesFit(s[20..40], 20);
    BytesFit(s[40..60], 20);
    BytesFit(s[60..92], 32);
    BytesFit(s[92..94], 2);
    JoinLeg(s, |l.data|);
    assert s[94..94 + |l.data|] == s[94..];
  }

  // ---- the legs of one candidate ----

  predicate FrontLies(legs: seq<Leg>, raw: seq<Byte>, o: nat, n: nat)
    requires n <= |legs|
  {
    forall i :: 0 <= i < n ==> LegLies(legs[i], raw, o + LegOffset(LegSizes(legs), i))
  }

  predicate FrontFormed(legs: seq<Leg>, n: nat)
    requires n <= |legs|
  {
    forall i :: 0 <= i < n ==> WellFormedLeg(legs[i])
  }

  predicate FrontEncoded(legs: seq<Leg>, raw: seq<Byte>, o: nat, n: nat)
    requires n <= |legs|
  {
    o + LegOffset(LegSizes(legs), n) <= |raw| && raw[o..o + LegOffset(LegSizes(legs), n)] == EncodeLegs(legs[..n])
  }

  lemma FrontStep(legs: seq<Leg>, raw: seq<Byte>, o: nat, n: nat)
    requires 0 < n <= |legs|
    ensures FrontLies(legs, raw, o, n)
       <==> FrontLies(legs, raw, o, n - 1) && LegLies(legs[n - 1], raw, o + LegOffset(LegSizes(legs), n - 1))
    ensures FrontFormed(legs, n) <==> FrontFormed(legs, n - 1) && WellFormedLeg(legs[n - 1])
  {
    hide LegLies, WellFormedLeg, LegOffset;
  }

  lemma EncodedStep(legs: seq<Leg>, raw: seq<Byte>, o: nat, n: nat)
    requires 0 < n <= |legs|
    ensures var l, p := legs[n - 1], o + LegOffset(LegSizes(legs), n - 1);
            FrontEncoded(legs, raw, o, n)
            <==> FrontEncoded(legs, raw, o, n - 1)
                 && p + 94 + |l.data| <= |raw| && raw[p..p + 94 + |l.data|] == EncodeLeg(l)
  {
    hide EncodeLeg, EncodeLegs;
    var sizes := LegSizes(legs);
    EncodeLegsAppend(legs[..n - 1], legs[n - 1]);
    assert legs[..n - 1] + [legs[n - 1]] == legs[..n];
    LegsOffsetIsLength(legs, n - 1);
    EncodeLegLength(legs[n - 1]);
    if o + LegOffset(sizes, n) <= |raw| {
      OneMore(raw, o, LegOffset(sizes, n - 1), LegOffset(sizes, n), EncodeLegs(legs[..n - 1]), EncodeLeg(legs[n - 1]));
    }
  }

  lemma {:induction false} LegsLieExactly(legs: seq<Leg>, raw: seq<Byte>, o: nat, n: nat)
    requires n <= |legs| && o <= |raw|
    ensures FrontLies(legs, raw, o, n) <==> FrontFormed(legs, n) && FrontEncoded(legs, raw, o, n)
  {
    hide FrontLies, FrontFormed, FrontEncoded, LegLies, WellFormedLeg, EncodeLeg;
    if n == 0 {
      NoLegs(legs, raw, o);
    } else {
      LegsLieExactly(legs, raw, o, n - 1);
      LegLiesExactly(legs[n - 1], raw, o + LegOffset(LegSizes(legs), n - 1));
      FrontStep(legs, raw, o, n);
      EncodedStep(legs, raw, o, n);
    }
  }

  lemma NoLegs(legs: seq<Leg>, raw: seq<Byte>, o: nat)
    requires o <= |raw|
    ensures FrontLies(legs, raw, o, 0) && FrontFormed(legs, 0) && FrontEncoded(legs, raw, o, 0)
  {
    assert legs[..0] == [] && raw[o..o] == [];
  }

  lemma EncodeLegLength(l: Leg)
    ensures |EncodeLeg(l)| == 94 + |l.data|
  {
  }

  lemma {:induction false} LegsOffsetIsLength(legs: seq<Leg>, n: nat)
    requires n <= |legs|
    ensures |EncodeLegs(legs[..n])| == LegOffset(LegSizes(legs), n)
  {
    hide EncodeLeg;
    if n == 0 {
    } else {
      LegsOffsetIsLength(legs, n - 1);
      EncodeLegsAppend(legs[..n - 1], legs[n - 1]);
      assert legs[..n - 1] + [legs[n - 1]] == legs[..n];
      EncodeLegLength(legs[n - 1]);
    }
  }

  /** A stretch of bytes is two pieces one after the other exactly if its two parts are. */
  lemma OneMore(raw: seq<Byte>, o: nat, a: nat, b: nat, front: seq<Byte>, back: seq<Byte>)
    requires a <= b && o + b <= |raw| && |front| == a && |back| == b - a
    ensures raw[o..o + b] == front + back <==> raw[o..o + a] == front && raw[o + a..o + b] == back
  {
    assert raw[o..o + b] == raw[o..o + a] + raw[o + a..o + b];
    if raw[o..o + b] == front + back {
      assert raw[o..o + a] == (front + back)[..a] && raw[o + a..o + b] == (front + back)[a..];
    }
  }

  // ---- one candidate ----

  function CandidateSize(c: Candidate): nat {
    65 + LegOffset(LegSizes(c.legs), |c.legs|)
  }

  lemma EncodeCandidateLength(c: Candidate)
    ensures |EncodeCandidate(c)| == CandidateSize(c)
  {
    hide EncodeLegs, LegOffset;
    LegsOffsetIsLength(c.legs, |c.legs|);
    assert c.legs[..|c.legs|] == c.legs;
  }

  lemma CandidateLiesExactly(c: Candidate, raw: seq<Byte>, o: nat)
    ensures CandidateLies(c, raw, o)
       <==>
         && WellFormedCandidate(c) && o + CandidateSize(c) <= |raw|
         && raw[o..o + CandidateSize(c)] == EncodeCandidate(c)
  {
    hide LegOffset, EncodeLegs, LegLies, WellFormedLeg, FromBE, ToBE, Fits;
    EncodeCandidateLength(c);
    if o + 65 <= |raw| {
      LegsLieExactly(c.legs, raw, o + 65, |c.legs|);
      assert c.legs[..|c.legs|] == c.legs;
      if o + CandidateSize(c) <= |raw| {
        HeadExactly(c, raw[o..o + 65]);
        CandidateSlices(raw, o);
        assert |ToBE(c.candidateId, 32) + ToBE(c.minProfit, 32) + ToBE(|c.legs|, 1)| == 65;
        OneMore(raw, o, 65, CandidateSize(c), ToBE(c.candidateId, 32) + ToBE(c.minProfit, 32) + ToBE(|c.legs|, 1),
            EncodeLegs(c.legs));
      }
    }
  }

  lemma CandidateSlices(raw: seq<Byte>, o: nat)
    requires o + 65 <= |raw|
    ensures var s := raw[o..o + 65];
            s[..32] == raw[o..o + 32] && s[32..64] == raw[o + 32..o + 64] && s[64] == raw[o + 64]
  {
    Slice(raw, o, 65, 0, 32);
    Slice(raw, o, 65, 32, 64);
  }

  /** The 65 fixed bytes of a candidate with one to 255 legs. */
  lemma HeadExactly(c: Candidate, s: seq<Byte>)
    requires |s| == 65
    ensures |c.legs| < 256 ==>
              (FromBE(s[..32]) == c.candidateId && FromBE(s[32..64]) == c.minProfit && s[64] == |c.legs|
               <==> Fits(c.candidateId, 32) && Fits(c.minProfit, 32)
                    && s == ToBE(c.candidateId, 32) + ToBE(c.minProfit, 32) + ToBE(|c.legs|, 1))
  {
    hide FromBE, ToBE;
    BytesFit(s[..32], 32);
    BytesFit(s[32..64], 32);
    if |c.legs| < 256 {
      OneByte(|c.legs|);
      CandidateFields(ToBE(c.candidateId, 32), ToBE(c.minProfit, 32), |c.legs|, []);
      var t := ToBE(c.candidateId, 32) + ToBE(c.minProfit, 32) + [|c.legs|];
      assert t + [] == t;
      JoinCandidate(s);
      assert s[65..] == [];
    }
  }

  // ---- the candidates of a batch ----

  predicate CandidatesLie(b: Batch, raw: seq<Byte>, n: nat)
    requires n <= |b.candidates|
  {
    forall k :: 0 <= k < n ==> CandidateLies(b.candidates[k], raw, CandidateOffset(Sizes(b), k))
  }

  predicate CandidatesFormed(b: Batch, n: nat)
    requires n <= |b.candidates|
  {
    forall k :: 0 <= k < n ==> WellFormedCandidate(b.candidates[k])
  }

  predicate CandidatesEncoded(b: Batch, raw: seq<Byte>, n: nat)
    requires n <= |b.candidates|
  {
    && 70 <= CandidateOffset(Sizes(b), n) <= |raw|
    && raw[70..CandidateOffset(Sizes(b), n)] == EncodeCandidates(b.candidates[..n])
  }

  lemma NextOffset(b: Batch, n: nat)
    requires 0 < n <= |b.candidates|
    ensures CandidateOffset(Sizes(b), n) == CandidateOffset(Sizes(b), n - 1) + CandidateSize(b.candidates[n - 1])
  {
    hide LegOffset;
  }

  lemma CandidatesStep(b: Batch, raw: seq<Byte>, n: nat)
    requires 0 < n <= |b.candidates|
    ensures CandidatesLie(b, raw, n)
       <==> CandidatesLie(b, raw, n - 1) && CandidateLies(b.candidates[n - 1], raw, CandidateOffset(Sizes(b), n - 1))
    ensures CandidatesFormed(b, n) <==> CandidatesFormed(b, n - 1) && WellFormedCandidate(b.candidates[n - 1])
  {
    hide CandidateLies, WellFormedCandidate, CandidateOffset;
  }

  lemma {:induction false} CandidatesOffsetIsLength(b: Batch, n: nat)
    requires n <= |b.candidates|
    ensures 70 + |EncodeCandidates(b.candidates[..n])| == CandidateOffset(Sizes(b), n)
  {
    hide EncodeCandidate, LegOffset;
    if n == 0 {
    } else {
      CandidatesOffsetIsLength(b, n - 1);
      EncodeCandidatesAppend(b.candidates[..n - 1], b.candidates[n - 1]);
      assert b.candidates[..n - 1] + [b.candidates[n - 1]] == b.candidates[..n];
      EncodeCandidateLength(b.candidates[n - 1]);
      NextOffset(b, n);
    }
  }

  lemma CandidatesEncodedStep(b: Batch, raw: seq<Byte>, n: nat)
    requires 0 < n <= |b.candidates|
    ensures var c, o := b.candidates[n - 1], CandidateOffset(Sizes(b), n - 1);
            CandidatesEncoded(b, raw, n)
            <==> CandidatesEncoded(b, raw, n - 1)
                 && o + CandidateSize(c) <= |raw| && raw[o..o + CandidateSize(c)] == EncodeCandidate(c)
  {
    hide EncodeCandidate, EncodeCandidates, CandidateOffset, CandidateSize;
    var c, o := b.candidates[n - 1], CandidateOffset(Sizes(b), n - 1);
    EncodeCandidatesAppend(b.candidates[..n - 1], c);
    assert b.candidates[..n - 1] + [c] == b.candidates[..n];
    CandidatesOffsetIsLength(b, n - 1);
    EncodeCandidateLength(c);
    NextOffset(b, n);
    if o + CandidateSize(c) <= |raw| {
      OneMore(raw, 70, o - 70, o - 70 + CandidateSize(c), EncodeCandidates(b.candidates[..n - 1]), EncodeCandidate(c));
    }
  }

  lemma {:induction false} CandidatesLieExactly(b: Batch, raw: seq<Byte>, n: nat)
    requires n <= |b.candidates| && 70 <= |raw|
    ensures CandidatesLie(b, raw, n) <==> CandidatesFormed(b, n) && CandidatesEncoded(b, raw, n)
  {
    hide CandidatesLie, CandidatesFormed, CandidatesEncoded, CandidateLies, WellFormedCandidate, EncodeCandidate,
         CandidateSize;
    if n == 0 {
      NoCandidates(b, raw);
    } else {
      CandidatesLieExactly(b, raw, n - 1);
      CandidateLiesExactly(b.candidates[n - 1], raw, CandidateOffset(Sizes(b), n - 1));
      CandidatesStep(b, raw, n);
      CandidatesEncodedStep(b, raw, n);
    }
  }

  lemma NoCandidates(b: Batch, raw: seq<Byte>)
    requires 70 <= |raw|
    ensures CandidatesLie(b, raw, 0) && CandidatesFormed(b, 0) && CandidatesEncoded(b, raw, 0)
  {
    assert b.candidates[..0] == [] && raw[70..70] == [];
  }

  // ---- the whole string ----

  lemma HeaderExactly(b: Batch, raw: seq<Byte>)
    requires 70 <= |raw|
    ensures 1 <= |b.candidates| <= 8 ==>
              (HeaderLies(b.asset, b.amount, b.targetBlock, b.deadline, |b.candidates|, raw)
               <==> Fits(b.asset, 20) && Fits(b.amount, 32) && Fits(b.targetBlock, 8) && Fits(b.deadline, 8)
                    && raw[..70] == EncodeHeader(b))
  {
    hide FromBE, ToBE;
    if 1 <= |b.candidates| <= 8 {
      BytesFit(raw[2..22], 20);
      BytesFit(raw[22..54], 32);
      BytesFit(raw[54..62], 8);
      BytesFit(raw[62..70], 8);
      OneByte(|b.candidates|);
      HeaderFields(1, |b.candidates|, ToBE(b.asset, 20), ToBE(b.amount, 32), ToBE(b.targetBlock, 8),
          ToBE(b.deadline, 8), raw[70..]);
      JoinHeader(raw);
      HeaderTail(raw, EncodeHeader(b));
    }
  }

  lemma HeaderTail(raw: seq<Byte>, header: seq<Byte>)
    requires 70 <= |raw| && |header| == 70
    ensures raw[..70] == header <==> raw == header + raw[70..]
  {
    assert raw == raw[..70] + raw[70..];
    if raw == header + raw[70..] {
      assert raw[..70] == (header + raw[70..])[..70];
    }
  }

  /**
   The layout by position is exactly the format: a string is laid out as a batch if and only if that batch
   is well-formed and the string is its encoding.
   */
  lemma LaidOutExactly(b: Batch, raw: seq<Byte>)
    ensures LaidOut(b, raw) <==> WellFormed(b) && Encode(b) == raw
  {
    hide EncodeHeader, EncodeCandidates, CandidateLies, WellFormedCandidate, Fits, CandidateOffset, CandidatesEncoded,
         FromBE;
    var n := |b.candidates|;
    assert b.candidates[..n] == b.candidates;
    HeaderLength(b);
    CandidatesOffsetIsLength(b, n);
    FormedByIndex(b);
    if 70 <= |raw| {
      HeaderExactly(b, raw);
      CandidatesLieExactly(b, raw, n);
      assert raw == raw[..70] + raw[70..];
      WholeOrParts(b, raw);
    } else {
      TooShort(b, raw);
    }
  }

  lemma HeaderLength(b: Batch)
    ensures |EncodeHeader(b)| == 70
  {
  }

  lemma FormedByIndex(b: Batch)
    ensures CandidatesFormed(b, |b.candidates|) <==> forall c :: c in b.candidates ==> WellFormedCandidate(c)
  {
    hide WellFormedCandidate;
  }

  lemma WholeOrParts(b: Batch, raw: seq<Byte>)
    requires 70 <= |raw| && |EncodeHeader(b)| == 70
    ensures Encode(b) == raw
       <==> raw[..70] == EncodeHeader(b) && CandidatesEncoded(b, raw, |b.candidates|)
            && |raw| == CandidateOffset(Sizes(b), |b.candidates|)
  {
    hide EncodeHeader, EncodeCandidates, CandidateOffset;
    var n := |b.candidates|;
    assert b.candidates[..n] == b.candidates;
    CandidatesOffsetIsLength(b, n);
    assert raw[70..|raw|] == raw[70..];
    if Encode(b) == raw {
      assert raw[..70] == EncodeHeader(b) && raw[70..] == EncodeCandidates(b.candidates);
    } else {
      assert raw == raw[..70] + raw[70..];
    }
  }

  lemma TooShort(b: Batch, raw: seq<Byte>)
    requires |raw| < 70
    ensures !LaidOut(b, raw) && Encode(b) != raw
  {
    hide EncodeHeader, EncodeCandidates;
    HeaderLength(b);
  }
}
