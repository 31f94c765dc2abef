/** What the decoders say of bytes that are no batch: too few, too many, or a wrong count. */
module PackedErrors {
  import opened Bytes
  import opened PackedFormat
  import Py = PythonPacked
  import Rs = RustEncoder
  import Sol = SolidityDecoder

  /** The first n bytes of a string that a parser reads in part: cut within what it read, or behind. */
  ghost predicate CutsTo<T>(whole: Parsed<T>, cut: Parsed<T>, s: seq<Byte>, n: nat)
    requires whole.Got? && n <= |s|
  {
    var used := |s| - |whole.rest|;
    if n < used then cut == Bad(Truncated) else |whole.rest| <= |s| && cut == Got(whole.value, s[used..n])
  }

  lemma CutLeg(s: seq<Byte>, n: nat)
    requires ParseLeg(s).Got? && n <= |s|
    ensures CutsTo(ParseLeg(s), ParseLeg(s[..n]), s, n)
    ensures ParseLeg(s).rest == s[|s| - |ParseLeg(s).rest|..]
  {
    hide FromBE;
    var t := s[..n];
    if n >= 94 {
      assert t[..20] == s[..20] && t[20..40] == s[20..40] && t[40..60] == s[40..60] && t[60..92] == s[60..92];
      assert t[92..94] == s[92..94];
      var size := FromBE(s[92..94]);
      if n >= 94 + size {
        assert t[94..94 + size] == s[94..94 + size] && t[94 + size..] == s[94 + size..n];
      }
    }
  }

  lemma {:induction false} CutLegs(k: nat, s: seq<Byte>, n: nat)
    requires ParseLegs(k, s).Got? && n <= |s|
    ensures CutsTo(ParseLegs(k, s), ParseLegs(k, s[..n]), s, n)
    ensures |ParseLegs(k, s).rest| <= |s| && ParseLegs(k, s).rest == s[|s| - |ParseLegs(k, s).rest|..]
  {
    hide ParseLeg;
    if k == 0 {
    } else {
      CutLeg(s, n);
      var first := ParseLeg(s);
      var used := |s| - |first.rest|;
      if n < used {
        CutLegs(k - 1, first.rest, 0);
      } else {
        assert first.rest[..n - used] == s[used..n];
        CutLegs(k - 1, first.rest, n - used);
        var more := ParseLegs(k - 1, first.rest);
        var next := |first.rest| - |more.rest|;
        assert s[used..][next..] == s[used + next..];
        if n - used >= next {
          assert first.rest[next..n - used] == s[used + next..n];
        }
      }
      ParseLegsRest(k, s);
    }
  }

  lemma ParseLegsRest(k: nat, s: seq<Byte>)
    requires k > 0 && ParseLegs(k, s).Got?
    ensures ParseLeg(s).Got? && ParseLegs(k - 1, ParseLeg(s).rest).Got?
    ensures ParseLegs(k, s).rest == ParseLegs(k - 1, ParseLeg(s).rest).rest
  {
  }

  lemma CutCandidate(s: seq<Byte>, n: nat)
    requires ParseCandidate(s).Got? && n <= |s|
    ensures CutsTo(ParseCandidate(s), ParseCandidate(s[..n]), s, n)
    ensures |ParseCandidate(s).rest| <= |s| && ParseCandidate(s).rest == s[|s| - |ParseCandidate(s).rest|..]
  {
    hide FromBE, ParseLegs;
    var t := s[..n];
    CutLegs(s[64], s[65..], if n < 65 then 0 else n - 65);
    var rest := ParseLegs(s[64], s[65..]).rest;
    assert s[65..][|s| - 65 - |rest|..] == s[|s| - |rest|..];
    if n >= 65 {
      assert t[..32] == s[..32] && t[32..64] == s[32..64] && t[65..] == s[65..][..n - 65];
      if |s| - |rest| <= n {
        assert s[65..][|s| - 65 - |rest|..n - 65] == s[|s| - |rest|..n];
      }
    }
  }

  lemma {:induction false} CutCandidates(k: nat, s: seq<Byte>, n: nat)
    requires ParseCandidates(k, s).Got? && n <= |s|
    ensures CutsTo(ParseCandidates(k, s), ParseCandidates(k, s[..n]), s, n)
    ensures |ParseCandidates(k, s).rest| <= |s|
    ensures ParseCandidates(k, s).rest == s[|s| - |ParseCandidates(k, s).rest|..]
  {
    hide ParseCandidate;
    if k == 0 {
    } else {
      CutCandidate(s, n);
      var first := ParseCandidate(s);
      var used := |s| - |first.rest|;
      if n < used {
        CutCandidates(k - 1, first.rest, 0);
      } else {
        assert first.rest[..n - used] == s[used..n];
        CutCandidates(k - 1, first.rest, n - used);
        var more := ParseCandidates(k - 1, first.rest);
        var next := |first.rest| - |more.rest|;
        assert s[used..][next..] == s[used + next..];
        if n - used >= next {
          assert first.rest[next..n - used] == s[used + next..n];
        }
      }
    }
  }

  /** Every proper prefix of an accepted string is refused as truncated. */
  lemma PrefixIsTruncated(raw: seq<Byte>, n: nat)
    requires ParseBatch(raw).Success? && n < |raw|
    ensures Py.PyDecode(raw[..n]) == Failure(Truncated)
  {
    hide FromBE, ParseCandidates;
    CutCandidates(raw[1], raw[70..], if n < 70 then 0 else n - 70);
    if n >= 70 {
      assert raw[..n][70..] == raw[70..][..n - 70];
    }
  }

  /** Bytes behind an accepted string are refused as trailing. */
  lemma ExtensionIsTrailing(raw: seq<Byte>, extra: seq<Byte>)
    requires ParseBatch(raw).Success? && extra != []
    ensures Py.PyDecode(raw + extra) == Failure(Trailing)
  {
    hide FromBE, ParseCandidates;
    assert (raw + extra)[70..] == raw[70..] + extra;
    MoreCandidates(raw[1], raw[70..], extra);
  }

  lemma MoreLeg(s: seq<Byte>, extra: seq<Byte>)
    requires ParseLeg(s).Got?
    ensures ParseLeg(s + extra) == Got(ParseLeg(s).value, ParseLeg(s).rest + extra)
  {
    hide FromBE;
    var t := s + extra;
    assert t[..20] == s[..20] && t[20..40] == s[20..40] && t[40..60] == s[40..60] && t[60..92] == s[60..92];
    assert t[92..94] == s[92..94];
    var size := FromBE(s[92..94]);
    assert t[94..94 + size] == s[94..94 + size] && t[94 + size..] == s[94 + size..] + extra;
  }

  lemma {:induction false} MoreLegs(k: nat, s: seq<Byte>, extra: seq<Byte>)
    requires ParseLegs(k, s).Got?
    ensures ParseLegs(k, s + extra) == Got(ParseLegs(k, s).value, ParseLegs(k, s).rest + extra)
  {
    hide ParseLeg;
    if k == 0 {
    } else {
      MoreLeg(s, extra);
      MoreLegs(k - 1, ParseLeg(s).rest, extra);
    }
  }

  lemma {:induction false} MoreCandidates(k: nat, s: seq<Byte>, extra: seq<Byte>)
    requires ParseCandidates(k, s).Got?
    ensures ParseCandidates(k, s + extra) == Got(ParseCandidates(k, s).value, ParseCandidates(k, s).rest + extra)
  {
    hide ParseCandidate;
    if k == 0 {
    } else {
      MoreCandidate(s, extra);
      MoreCandidates(k - 1, ParseCandidate(s).rest, extra);
    }
  }

  lemma MoreCandidate(s: seq<Byte>, extra: seq<Byte>)
    requires ParseCandidate(s).Got?
    ensures ParseCandidate(s + extra) == Got(ParseCandidate(s).value, ParseCandidate(s).rest + extra)
  {
    hide FromBE, ParseLegs;
    var t := s + extra;
    assert t[..32] == s[..32] && t[32..64] == s[32..64] && t[65..] == s[65..] + extra;
    MoreLegs(s[64], s[65..], extra);
  }

  // ---- the first error ----

  /** What the two leading bytes and the length of the header decide, whatever follows. */
  lemma HeaderErrors(raw: seq<Byte>)
    ensures raw == [] ==> Py.PyDecode(raw) == Failure(Truncated)
    ensures |raw| >= 1 && raw[0] != 1 ==> Py.PyDecode(raw) == Failure(UnsupportedVersion)
    ensures raw == [1] ==> Py.PyDecode(raw) == Failure(Truncated)
    ensures |raw| >= 2 && raw[0] == 1 && (raw[1] == 0 || raw[1] > 8) ==> Py.PyDecode(raw) == Failure(CandidateCount)
    ensures 2 <= |raw| < 70 && raw[0] == 1 && 1 <= raw[1] <= 8 ==> Py.PyDecode(raw) == Failure(Truncated)
  {
    hide FromBE, ParseCandidates;
  }

  /** A first candidate of 0, 1 or more than 4 legs is refused for that. */
  lemma LegCountRefused(raw: seq<Byte>)
    requires |raw| >= 135 && raw[0] == 1 && 1 <= raw[1] <= 8 && (raw[134] < 2 || raw[134] > 4)
    ensures Py.PyDecode(raw) == Failure(DecodeError.LegCount)
  {
    hide FromBE, ParseLegs;
    assert raw[70..][64] == raw[134];
    assert ParseCandidate(raw[70..]) == Bad(DecodeError.LegCount);
  }

  /** A first leg with more than 2048 bytes of data is refused for that. */
  lemma LegDataRefused(raw: seq<Byte>)
    requires |raw| >= 229 && raw[0] == 1 && 1 <= raw[1] <= 8 && 2 <= raw[134] <= 4 && FromBE(raw[227..229]) > 2048
    ensures Py.PyDecode(raw) == Failure(DecodeError.LegData)
  {
    hide FromBE;
    var s := raw[70..];
    assert s[64] == raw[134] && s[65..][92..94] == raw[227..229];
    assert ParseLeg(s[65..]) == Bad(DecodeError.LegData);
    assert ParseLegs(s[64], s[65..]) == Bad(DecodeError.LegData);
    assert ParseCandidate(s) == Bad(DecodeError.LegData);
  }

  /**
   Rust refuses what is shorter than a header at once, and otherwise for the reason Python gives; the contract for all
   alike.
   */
  lemma RefusedAlike(raw: seq<Byte>)
    ensures Rs.Validated(raw) == Failure(Rs.TooShort) <==> |raw| < 70
    ensures |raw| >= 70 ==>
              forall e :: Rs.Validated(raw) == Failure(Rs.Malformed(e)) <==> Py.PyDecode(raw) == Failure(e)
    ensures Py.PyDecode(raw).Failure? <==> Sol.Decoded(raw) == Failure(Sol.InvalidPackedBatch.InvalidPackedBatch)
  {
    hide ParseBatch;
  }
}
