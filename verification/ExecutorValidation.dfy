/** What the contract's validation loops accept, said without loops. */
module ExecutorValidation {
  import opened PackedFormat
  import opened TokenLedger
  import opened Commitment
  import opened ExecutorModel

  predicate LegAccepted(s: Store, l: Leg) {
    && l.adapter in s.adapterAllowed && l.tokenIn in s.tokenAllowed && l.tokenOut in s.tokenAllowed
    && l.tokenIn != l.tokenOut
  }

  /** A closed walk from the asset to the asset over accepted legs, each leg starting where the one before ended. */
  predicate LegsAccepted(s: Store, asset: Address, legs: seq<Leg>) {
    && |legs| >= 2
    && legs[0].tokenIn == asset && legs[|legs| - 1].tokenOut == asset
    && Chained(legs)
    && forall i :: 0 <= i < |legs| ==> LegAccepted(s, legs[i])
  }

  predicate RouteAccepted(s: Store, r: Route) {
    r.asset != 0 && r.amount != 0 && r.asset in s.tokenAllowed && LegsAccepted(s, r.asset, r.legs)
  }

  predicate CandidateAccepted(s: Store, asset: Address, c: Candidate) {
    c.candidateId != 0 && |c.legs| <= MAX_PACKED_LEGS && LegsAccepted(s, asset, c.legs)
  }

  predicate BatchAccepted(s: Store, b: Batch) {
    && b.asset != 0 && b.amount != 0 && 1 <= |b.candidates| <= MAX_PACKED_CANDIDATES && b.asset in s.tokenAllowed
    && forall i :: 0 <= i < |b.candidates| ==> CandidateAccepted(s, b.asset, b.candidates[i])
  }

  /** Every interior token other than the asset has a zero balance. */
  predicate Clean(l: Ledger, self: Address, asset: Address, legs: seq<Leg>) {
    forall i :: 0 <= i < |legs| - 1 && legs[i].tokenOut != asset ==> Bal(l, legs[i].tokenOut, self) == 0
  }

  lemma LegErrorExact(s: Store, l: Leg)
    ensures LegError(s, l).None? <==> LegAccepted(s, l)
  {
  }

  lemma {:induction false} FirstLegErrorExact(s: Store, legs: seq<Leg>, i: nat)
    ensures FirstLegError(s, legs, i).None? <==> forall k :: i <= k < |legs| ==> LegAccepted(s, legs[k])
    decreases |legs| - i
  {
    hide LegError, LegAccepted;
    if i < |legs| {
      LegErrorExact(s, legs[i]);
      FirstLegErrorExact(s, legs, i + 1);
    }
  }

  /** _validateRoute and _validateRouteMemory accept exactly the closed, chained, allow-listed routes. */
  lemma RouteErrorExact(s: Store, r: Route)
    ensures RouteError(s, r).None? <==> RouteAccepted(s, r)
  {
    hide FirstLegError, LegAccepted, Chained;
    FirstLegErrorExact(s, r.legs, 0);
  }

  lemma {:induction false} FirstLinkErrorExact(s: Store, legs: seq<Leg>, i: nat)
    ensures FirstLinkError(s, legs, i).None? <==>
              && (forall k :: i <= k < |legs| ==> LegAccepted(s, legs[k]))
              && (forall k :: i <= k < |legs| - 1 ==> legs[k].tokenOut == legs[k + 1].tokenIn)
    decreases |legs| - i
  {
    hide LegError, LegAccepted;
    if i < |legs| {
      LegErrorExact(s, legs[i]);
      FirstLinkErrorExact(s, legs, i + 1);
    }
  }

  lemma CandidateErrorExact(s: Store, asset: Address, c: Candidate)
    ensures CandidateError(s, asset, c).None? <==> CandidateAccepted(s, asset, c)
  {
    hide FirstLinkError, LegAccepted;
    FirstLinkErrorExact(s, c.legs, 0);
  }

  lemma {:induction false} FirstCandidateErrorExact(s: Store, asset: Address, cs: seq<Candidate>, i: nat)
    ensures FirstCandidateError(s, asset, cs, i).None?
            <==> forall k :: i <= k < |cs| ==> CandidateAccepted(s, asset, cs[k])
    decreases |cs| - i
  {
    hide CandidateError, CandidateAccepted;
    if i < |cs| {
      CandidateErrorExact(s, asset, cs[i]);
      FirstCandidateErrorExact(s, asset, cs, i + 1);
    }
  }

  /** _validatePacked accepts exactly the menus of 1 to 8 accepted candidates. */
  lemma BatchErrorExact(s: Store, b: Batch)
    ensures BatchError(s, b).None? <==> BatchAccepted(s, b)
  {
    hide FirstCandidateError, CandidateAccepted;
    FirstCandidateErrorExact(s, b.asset, b.candidates, 0);
  }

  lemma {:induction false} FirstDirtyExact(l: Ledger, self: Address, asset: Address, legs: seq<Leg>, i: nat)
    ensures FirstDirty(l, self, asset, legs, i).None?
       <==> forall k :: i <= k < |legs| - 1 && legs[k].tokenOut != asset ==> Bal(l, legs[k].tokenOut, self) == 0
    decreases |legs| - i
  {
    if i + 1 < |legs| {
      FirstDirtyExact(l, self, asset, legs, i + 1);
    }
  }

  lemma {:induction false} FirstDirtyCandidateExact(
      l: Ledger, self: Address, asset: Address, cs: seq<Candidate>, i: nat)
    ensures FirstDirtyCandidate(l, self, asset, cs, i).None?
            <==> forall k :: i <= k < |cs| ==> Clean(l, self, asset, cs[k].legs)
    decreases |cs| - i
  {
    hide FirstDirty, Clean;
    if i < |cs| {
      CleanExact(l, self, asset, cs[i].legs);
      FirstDirtyCandidateExact(l, self, asset, cs, i + 1);
    }
  }

  /** _requireCleanIntermediates passes exactly on clean interior tokens, the asset itself excepted. */
  lemma CleanExact(l: Ledger, self: Address, asset: Address, legs: seq<Leg>)
    ensures FirstDirty(l, self, asset, legs, 0).None? <==> Clean(l, self, asset, legs)
  {
    FirstDirtyExact(l, self, asset, legs, 0);
  }
}
