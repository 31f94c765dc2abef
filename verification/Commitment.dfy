/**
 Commitments. keccak256 is a free constructor: a digest determines its preimage and is never the
 zero word. Folding the legs into one hash therefore binds every field and the number of legs.
 */
module Commitment {
  import opened Bytes
  import opened HexText
  import opened PackedFormat
  import Py = PythonPacked

  datatype Hash = ZeroHash | Digest(of: Preimage)

  datatype Preimage = RawBytes(raw: seq<Byte>) | AbiWords(words: seq<Word>) | AbiRoute(route: Route)

  datatype Word = Number(n: nat) | HashWord(h: Hash)

  datatype Route = Route(
    routeHash: Hash, asset: nat, amount: nat, minProfit: nat, targetBlock: nat, deadline: nat, legs: seq<Leg>)

  function LegWords(h: Hash, l: Leg): Preimage {
    AbiWords([HashWord(h), Number(l.adapter), Number(l.tokenIn), Number(l.tokenOut), Number(l.minOut),
              HashWord(Digest(RawBytes(l.data)))])
  }

  /** The fold over the legs, from the zero word; the last leg is hashed last. */
  function LegsHash(legs: seq<Leg>): Hash {
    if legs == [] then ZeroHash
    else Digest(LegWords(LegsHash(legs[..|legs| - 1]), legs[|legs| - 1]))
  }

  function RouteDigest(r: Route): Hash {
    Digest(AbiWords([Number(r.asset), Number(r.amount), Number(r.minProfit), Number(r.targetBlock), Number(r.deadline),
                     HashWord(LegsHash(r.legs))]))
  }

  /**
   One more leg is hashed behind the hash of all before it: adapter, input, output, minimum, then the hash of its
   data.
   */
  lemma LegsHashAppends(legs: seq<Leg>, l: Leg)
    ensures LegsHash([]) == ZeroHash
    ensures LegsHash(legs + [l])
            == Digest(AbiWords([HashWord(LegsHash(legs)), Number(l.adapter), Number(l.tokenIn), Number(l.tokenOut),
                                Number(l.minOut), HashWord(Digest(RawBytes(l.data)))]))
  {
    assert (legs + [l])[..|legs|] == legs;
  }

  /** Six words are committed to, in this order. */
  lemma RouteWords(r: Route)
    ensures RouteDigest(r)
            == Digest(AbiWords([Number(r.asset), Number(r.amount), Number(r.minProfit), Number(r.targetBlock),
                                Number(r.deadline), HashWord(LegsHash(r.legs))]))
  {
  }

  lemma LegWordsInjective(h: Hash, l: Leg, h': Hash, l': Leg)
    requires LegWords(h, l) == LegWords(h', l')
    ensures h == h' && l == l'
  {
    var a, b := LegWords(h, l).words, LegWords(h', l').words;
    assert a[0] == b[0] && a[1] == b[1] && a[2] == b[2] && a[3] == b[3] && a[4] == b[4] && a[5] == b[5];
  }

  /** Equal folds come from equal lists, peeled from the back: no list is confused with one of another length. */
  lemma {:induction false} LegsHashInjective(legs: seq<Leg>, legs': seq<Leg>)
    requires LegsHash(legs) == LegsHash(legs')
    ensures legs == legs'
  {
    if legs != [] && legs' != [] {
      var n, n' := |legs| - 1, |legs'| - 1;
      LegWordsInjective(LegsHash(legs[..n]), legs[n], LegsHash(legs'[..n']), legs'[n']);
      LegsHashInjective(legs[..n], legs'[..n']);
      assert legs == legs[..n] + [legs[n]] && legs' == legs'[..n'] + [legs'[n']];
    }
  }

  /** Two routes with one commitment agree in every committed field and in the whole list of legs. */
  lemma RouteDigestBinds(r: Route, r': Route)
    requires RouteDigest(r) == RouteDigest(r')
    ensures r' == r.(routeHash := r'.routeHash)
  {
    var a, b := RouteDigest(r).of.words, RouteDigest(r').of.words;
    assert a[0] == b[0] && a[1] == b[1] && a[2] == b[2] && a[3] == b[3] && a[4] == b[4] && a[5] == b[5];
    LegsHashInjective(r.legs, r'.legs);
  }

  /** The contract's _hash and _hashMemory. */
  method HashRoute(r: Route) returns (h: Hash)
    ensures h == RouteDigest(r)
  {
    var legsHash := ZeroHash;
    for i := 0 to |r.legs|
      invariant legsHash == LegsHash(r.legs[..i])
    {
      var leg := r.legs[i];
      assert r.legs[..i + 1][..i] == r.legs[..i];
      legsHash := Digest(AbiWords([HashWord(legsHash), Number(leg.adapter), Number(leg.tokenIn), Number(leg.tokenOut),
                                   Number(leg.minOut), HashWord(Digest(RawBytes(leg.data)))]));
    }
    assert r.legs[..|r.legs|] == r.legs;
    return Digest(AbiWords([Number(r.asset), Number(r.amount), Number(r.minProfit), Number(r.targetBlock),
                            Number(r.deadline), HashWord(legsHash)]));
  }

  // ---- the planner's side ----

  /** to_checksum_address: twenty bytes in hexadecimal digits of either case, with or without 0x or 0X. */
  function AddressText(s: string): Option<nat> {
    var digits := if |s| >= 2 && s[0] == '0' && s[1] in {'x', 'X'} then s[2..] else s;
    match DecodeStrict(digits)
    case None => None
    case Some(raw) => if |raw| == 20 then Some(FromBE(raw)) else None
  }

  /** An address is spelled by its twenty bytes in digits of either case, with or without a prefix of either case. */
  lemma AddressReadsExactly(s: string, a: nat)
    ensures AddressText(s) == Some(a)
            <==> exists raw: seq<Byte> ::
                   |raw| == 20 && FromBE(raw) == a && LowerText(s) in {ToHex(raw), "0x" + ToHex(raw)}
  {
    hide FromBE, ToHex, DecodeStrict, LowerText;
    var prefixed := |s| >= 2 && s[0] == '0' && s[1] in {'x', 'X'};
    var digits := if prefixed then s[2..] else s;
    forall raw: seq<Byte> | |raw| == 20
      ensures DecodeStrict(digits) == Some(raw) <==> LowerText(s) in {ToHex(raw), "0x" + ToHex(raw)}
    {
      DecodeStrictExactly(digits, raw);
      PrefixLowers(s, raw);
    }
    if AddressText(s) == Some(a) {
      var raw := DecodeStrict(digits).value;
      assert |raw| == 20 && FromBE(raw) == a;
    }
  }

  /** A text with a prefix is no bare run of digits, and the other way round. */
  lemma PrefixLowers(s: string, raw: seq<Byte>)
    requires raw != []
    ensures var prefixed := |s| >= 2 && s[0] == '0' && s[1] in {'x', 'X'};
            LowerText(s) in {ToHex(raw), "0x" + ToHex(raw)}
            <==> LowerText(if prefixed then s[2..] else s) == ToHex(raw)
  {
    hide LowerText, ToHex;
    LowerTextLength(s);
    ToHexLength(raw);
    ToHexIsLower(raw);
    assert IsLowerHexDigit(ToHex(raw)[1]);
    if |s| >= 2 {
      LowerTwo(s);
      PairsEqual(Lower(s[0]), Lower(s[1]), LowerText(s[2..]), '0', 'x', ToHex(raw));
      assert "0x" == ['0', 'x'];
    }
  }

  predicate HashableLeg(l: Py.PyLeg) {
    && AddressText(l.adapter).Some? && AddressText(l.tokenIn).Some? && AddressText(l.tokenOut).Some?
    && Py.UintBytes(l.minOut, 32).Some?
  }

  /** Every address reads, and every number fits its ABI type. */
  predicate Hashable(asset: string, amount: int, minProfit: int, targetBlock: int, deadline: int, legs: seq<Py.PyLeg>) {
    && AddressText(asset).Some? && Py.UintBytes(amount, 32).Some? && Py.UintBytes(minProfit, 32).Some?
    && Py.UintBytes(targetBlock, 8).Some? && Py.UintBytes(deadline, 8).Some?
    && forall i :: 0 <= i < |legs| ==> HashableLeg(legs[i])
  }

  function ReadLeg(l: Py.PyLeg): Leg
    requires HashableLeg(l)
  {
    Leg(AddressText(l.adapter).value, AddressText(l.tokenIn).value, AddressText(l.tokenOut).value, l.minOut, l.data)
  }

  function ReadLegs(legs: seq<Py.PyLeg>): (r: seq<Leg>)
    requires forall i :: 0 <= i < |legs| ==> HashableLeg(legs[i])
    ensures |r| == |legs| && forall i :: 0 <= i < |r| ==> r[i] == ReadLeg(legs[i])
  {
    seq(|legs|, i requires 0 <= i < |legs| => ReadLeg(legs[i]))
  }

  const MAX_UINT256: nat := 0xffff_ffff_ffff_ffff_ffff_ffff_ffff_ffff_ffff_ffff_ffff_ffff_ffff_ffff_ffff_ffff

  /** In numbers: twenty-byte addresses, 256-bit amounts, 64-bit block and deadline. */
  lemma HashableExactly(
      asset: string, amount: int, minProfit: int, targetBlock: int, deadline: int, legs: seq<Py.PyLeg>)
    ensures Hashable(asset, amount, minProfit, targetBlock, deadline, legs)
            <==> && AddressText(asset).Some? && 0 <= amount <= MAX_UINT256 && 0 <= minProfit <= MAX_UINT256
                 && 0 <= targetBlock < 0x1_0000_0000_0000_0000 && 0 <= deadline < 0x1_0000_0000_0000_0000
                 && forall i :: 0 <= i < |legs| ==>
                      && AddressText(legs[i].adapter).Some? && AddressText(legs[i].tokenIn).Some?
                      && AddressText(legs[i].tokenOut).Some? && 0 <= legs[i].minOut <= MAX_UINT256
  {
    hide AddressText, Py.UintBytes;
    FitsWords(amount);
    FitsWords(minProfit);
    FitsWords(targetBlock);
    FitsWords(deadline);
    forall i | 0 <= i < |legs|
      ensures Py.UintBytes(legs[i].minOut, 32).Some? <==> 0 <= legs[i].minOut <= MAX_UINT256
    {
      FitsWords(legs[i].minOut);
    }
  }

  lemma FitsWords(value: int)
    ensures Py.UintBytes(value, 32).Some? <==> 0 <= value <= MAX_UINT256
    ensures Py.UintBytes(value, 8).Some? <==> 0 <= value < 0x1_0000_0000_0000_0000
  {
    hide Fits;
    if value >= 0 {
      FitsIffBelow(value, 32);
      FitsIffBelow(value, 8);
    }
    WordRanges();
  }

  /**
   The planner's route_hash: it raises exactly where an address does not read or a number does not fit,
   and otherwise gives the hash that the contract computes for the route these texts mean.
   */
  method PlannerRouteHash(
      asset: string, amount: int, minProfit: int, targetBlock: int, deadline: int, legs: seq<Py.PyLeg>)
    returns (h: Option<Hash>)
    ensures h.Some? <==> Hashable(asset, amount, minProfit, targetBlock, deadline, legs)
    ensures h.Some? ==> forall r: Route ::
              && AddressText(asset) == Some(r.asset) && r.amount == amount && r.minProfit == minProfit
              && r.targetBlock == targetBlock && r.deadline == deadline && |r.legs| == |legs|
              && (forall i :: 0 <= i < |legs| ==>
                    && AddressText(legs[i].adapter) == Some(r.legs[i].adapter)
                    && AddressText(legs[i].tokenIn) == Some(r.legs[i].tokenIn)
                    && AddressText(legs[i].tokenOut) == Some(r.legs[i].tokenOut)
                    && legs[i].minOut == r.legs[i].minOut && legs[i].data == r.legs[i].data) ==>
                h.value == RouteDigest(r)
  {
    hide AddressText, Py.UintBytes;
    var legsHash := ZeroHash;
    for i := 0 to |legs|
      invariant forall k :: 0 <= k < i ==> HashableLeg(legs[k])
      invariant legsHash == LegsHash(ReadLegs(legs[..i]))
    {
      var leg := legs[i];
      var dataHash := Digest(RawBytes(leg.data));
      var adapter, tokenIn, tokenOut := AddressText(leg.adapter), AddressText(leg.tokenIn), AddressText(leg.tokenOut);
      if adapter.None? || tokenIn.None? || tokenOut.None? || Py.UintBytes(leg.minOut, 32).None? {
        assert !HashableLeg(legs[i]);
        return None;
      }
      NonNegative(leg.minOut, 32);
      assert legs[..i + 1][..i] == legs[..i];
      var read := ReadLegs(legs[..i + 1]);
      assert read[..i] == ReadLegs(legs[..i]) && read[i] == ReadLeg(leg);
      legsHash := Digest(AbiWords([HashWord(legsHash), Number(adapter.value), Number(tokenIn.value),
                                   Number(tokenOut.value), Number(leg.minOut), HashWord(dataHash)]));
    }
    assert legs[..|legs|] == legs;
    if AddressText(asset).None? || Py.UintBytes(amount, 32).None? || Py.UintBytes(minProfit, 32).None?
       || Py.UintBytes(targetBlock, 8).None? || Py.UintBytes(deadline, 8).None? {
      return None;
    }
    NonNegative(amount, 32);
    NonNegative(minProfit, 32);
    NonNegative(targetBlock, 8);
    NonNegative(deadline, 8);
    forall read: seq<Leg> | |read| == |legs| && forall i :: 0 <= i < |legs| ==> read[i] == ReadLeg(legs[i])
      ensures read == ReadLegs(legs)
    {
    }
    return Some(Digest(AbiWords([Number(AddressText(asset).value), Number(amount), Number(minProfit),
                                 Number(targetBlock), Number(deadline), HashWord(legsHash)])));
  }

  lemma NonNegative(value: int, size: nat)
    requires Py.UintBytes(value, size).Some?
    ensures value >= 0
  {
  }
}
