/** The contract's decoder of the packed batch: readers over calldata, and the loop that moves the offset. */
module SolidityDecoder {
  import opened Bytes
  import opened PackedFormat

  /** Every failure of the decoder is the one custom error. */
  datatype InvalidPackedBatch = InvalidPackedBatch

  function Decoded(p: seq<Byte>): Result<Batch, InvalidPackedBatch> {
    match ParseBatch(p)
    case Success(b) => Success(b)
    case Failure(_) => Failure(InvalidPackedBatch)
  }

  method ReadU8(p: seq<Byte>, o: nat) returns (ok: bool, v: nat, n: nat)
    requires o <= |p|
    ensures ok == (o + 1 <= |p|)
    ensures ok ==> v == p[o] && n == o + 1
  {
    v, n := 0, o;
    ok := o + 1 <= |p|;
    if ok { v, n := p[o], o + 1; }
  }

  method ReadU16(p: seq<Byte>, o: nat) returns (ok: bool, v: nat, n: nat)
    requires o <= |p|
    ensures ok == (o + 2 <= |p|)
    ensures ok ==> v == FromBE(p[o..o + 2]) && n == o + 2
  {
    v, n := 0, o;
    ok := o + 2 <= |p|;
    if ok {
      var s := p[o..o + 2];
      assert s[..1] == [p[o]] && [p[o]][..0] == [];
      assert FromBE([p[o]]) == p[o];
      var high: nat, low: nat := p[o], p[o + 1];
      v, n := high * 256 + low, o + 2;
    }
  }

  method ReadU64(p: seq<Byte>, o: nat) returns (ok: bool, v: nat, n: nat)
    requires o <= |p|
    ensures ok == (o + 8 <= |p|)
    ensures ok ==> v == FromBE(p[o..o + 8]) && n == o + 8
  {
    v, n := 0, o;
    ok := o + 8 <= |p|;
    if ok {
      for i := 0 to 8
        invariant v == FromBE(p[o..o + i])
      {
        assert p[o..o + i + 1][..i] == p[o..o + i];
        v := v * 256 + p[o + i];
      }
      n := o + 8;
    }
  }

  /** One calldata word: _readU256, _readBytes32. */
  method ReadWord(p: seq<Byte>, o: nat) returns (ok: bool, v: nat, n: nat)
    requires o <= |p|
    ensures ok == (o + 32 <= |p|)
    ensures ok ==> v == FromBE(p[o..o + 32]) && n == o + 32
  {
    v, n := 0, o;
    ok := o + 32 <= |p|;
    if ok { v, n := FromBE(p[o..o + 32]), o + 32; }
  }

  /** The top 20 bytes of a calldata word. */
  method ReadAddress(p: seq<Byte>, o: nat) returns (ok: bool, v: nat, n: nat)
    requires o <= |p|
    ensures ok == (o + 20 <= |p|)
    ensures ok ==> v == FromBE(p[o..o + 20]) && n == o + 20
  {
    v, n := 0, o;
    ok := o + 20 <= |p|;
    if ok { v, n := FromBE(p[o..o + 20]), o + 20; }
  }

  lemma Within(p: seq<Byte>, o: nat, a: nat, b: nat)
    requires o + a <= o + b <= |p|
    ensures p[o..][a..b] == p[o + a..o + b]
  {
  }

  lemma After(p: seq<Byte>, o: nat, a: nat)
    requires o + a <= |p|
    ensures p[o..][a..] == p[o + a..]
  {
  }

  method DecodeLeg(p: seq<Byte>, start: nat) returns (ok: bool, leg: Leg, o: nat)
    requires start <= |p|
    ensures ok == ParseLeg(p[start..]).Got?
    ensures ok ==> start <= o <= |p| && ParseLeg(p[start..]) == Got(leg, p[o..])
  {
    hide FromBE;
    leg := Leg(0, 0, 0, 0, []);
    var adapter, tokenIn, tokenOut, minOut, dataLen;
    ok, adapter, o := ReadAddress(p, start);
    if !ok { return; }
    ok, tokenIn, o := ReadAddress(p, o);
    if !ok { return; }
    ok, tokenOut, o := ReadAddress(p, o);
    if !ok { return; }
    ok, minOut, o := ReadWord(p, o);
    if !ok { return; }
    ok, dataLen, o := ReadU16(p, o);
    if !ok { return; }
    Within(p, start, 0, 20);
    Within(p, start, 20, 40);
    Within(p, start, 40, 60);
    Within(p, start, 60, 92);
    Within(p, start, 92, 94);
    if dataLen > MAX_PACKED_LEG_DATA || o + dataLen > |p| {
      ok := false;
      return;
    }
    Within(p, start, 94, 94 + dataLen);
    After(p, start, 94 + dataLen);
    leg := Leg(adapter, tokenIn, tokenOut, minOut, p[o..o + dataLen]);
    o := o + dataLen;
  }

  method DecodeLegs(p: seq<Byte>, start: nat, legCount: nat) returns (ok: bool, legs: seq<Leg>, o: nat)
    requires start <= |p|
    ensures ok == ParseLegs(legCount, p[start..]).Got?
    ensures ok ==> start <= o <= |p| && ParseLegs(legCount, p[start..]) == Got(legs, p[o..])
  {
    hide ParseLeg;
    ok, legs, o := true, [], start;
    var i := 0;
    PrependNothing(ParseLegs(legCount, p[start..]));
    while i < legCount
      invariant 0 <= i <= legCount
      invariant start <= o <= |p|
      invariant ok && ParseLegs(legCount, p[start..]) == Prepend(legs, ParseLegs(legCount - i, p[o..]))
    {
      ParseLegsStep(legs, legCount - i, p[o..]);
      var leg;
      ok, leg, o := DecodeLeg(p, o);
      if !ok { return; }
      legs := legs + [leg];
      i := i + 1;
    }
    assert legs + [] == legs;
  }

  method DecodeCandidate(p: seq<Byte>, start: nat) returns (ok: bool, candidate: Candidate, o: nat)
    requires start <= |p|
    ensures ok == ParseCandidate(p[start..]).Got?
    ensures ok ==> start <= o <= |p| && ParseCandidate(p[start..]) == Got(candidate, p[o..])
  {
    hide FromBE, ParseLegs;
    candidate := Candidate(0, 0, []);
    var id, minProfit, legCount, legs;
    ok, id, o := ReadWord(p, start);
    if !ok { return; }
    ok, minProfit, o := ReadWord(p, o);
    if !ok { return; }
    ok, legCount, o := ReadU8(p, o);
    if !ok { return; }
    Within(p, start, 0, 32);
    Within(p, start, 32, 64);
    After(p, start, 65);
    if legCount < 2 || legCount > MAX_PACKED_LEGS {
      ok := false;
      return;
    }
    ok, legs, o := DecodeLegs(p, o, legCount);
    candidate := Candidate(id, minProfit, legs);
  }

  method DecodeCandidates(p: seq<Byte>, start: nat, count: nat) returns (ok: bool, candidates: seq<Candidate>, o: nat)
    requires start <= |p|
    ensures ok == ParseCandidates(count, p[start..]).Got?
    ensures ok ==> start <= o <= |p| && ParseCandidates(count, p[start..]) == Got(candidates, p[o..])
  {
    hide ParseCandidate;
    ok, candidates, o := true, [], start;
    var c := 0;
    PrependNothing(ParseCandidates(count, p[start..]));
    while c < count
      invariant 0 <= c <= count
      invariant start <= o <= |p|
      invariant ok && ParseCandidates(count, p[start..]) == Prepend(candidates, ParseCandidates(count - c, p[o..]))
    {
      ParseCandidatesStep(candidates, count - c, p[o..]);
      var candidate;
      ok, candidate, o := DecodeCandidate(p, o);
      if !ok { return; }
      candidates := candidates + [candidate];
      c := c + 1;
    }
    assert candidates + [] == candidates;
  }

  /** _decodePacked, header and candidates together. */
  method DecodePacked(p: seq<Byte>) returns (r: Result<Batch, InvalidPackedBatch>)
    ensures r == Decoded(p)
  {
    hide FromBE, ParseCandidates;
    var ok, version, candidateCount, asset, amount, targetBlock, deadline, candidates;
    var o := 0;
    ok, version, o := ReadU8(p, o);
    if !ok || version != PACKED_VERSION { return Failure(InvalidPackedBatch); }
    ok, candidateCount, o := ReadU8(p, o);
    if !ok || candidateCount == 0 || candidateCount > MAX_PACKED_CANDIDATES { return Failure(InvalidPackedBatch); }
    ok, asset, o := ReadAddress(p, o);
    if !ok { return Failure(InvalidPackedBatch); }
    ok, amount, o := ReadWord(p, o);
    if !ok { return Failure(InvalidPackedBatch); }
    ok, targetBlock, o := ReadU64(p, o);
    if !ok { return Failure(InvalidPackedBatch); }
    ok, deadline, o := ReadU64(p, o);
    if !ok { return Failure(InvalidPackedBatch); }
    ok, candidates, o := DecodeCandidates(p, o, candidateCount);
    if !ok { return Failure(InvalidPackedBatch); }
    assert p[o..] == [] <==> o == |p|;
    if o != |p| { return Failure(InvalidPackedBatch); }
    return Success(Batch(asset, amount, targetBlock, deadline, candidates));
  }
}
