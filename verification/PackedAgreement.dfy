/** Three implementations of one byte format: the statements that tie them together. */
module PackedAgreement {
  import opened Bytes
  import opened PackedFormat
  import Py = PythonPacked
  import PyTrip = PythonRoundTrip
  import Rs = RustEncoder
  import RsNumber = RustPacked
  import Sol = SolidityDecoder

  /**
   The Python decoder, the Rust validator and the Solidity decoder accept the same byte strings,
   which are the encodings of well-formed batches, and Python and Solidity read the same batch.
   */
  lemma DecodersAgree(raw: seq<Byte>)
    ensures Py.PyDecode(raw).Success? <==> Rs.Validated(raw).Success?
    ensures Rs.Validated(raw).Success? <==> Sol.Decoded(raw).Success?
    ensures Sol.Decoded(raw).Success? <==> exists b :: WellFormed(b) && Encode(b) == raw
    ensures Sol.Decoded(raw).Success? ==> Py.PyDecode(raw).value == Py.View(Sol.Decoded(raw).value)
    ensures Sol.Decoded(raw).Success? ==> Encode(Sol.Decoded(raw).value) == raw
  {
    AcceptedExactlyEncodings(raw);
    if ParseBatch(raw).Success? {
      EncodeParse(raw);
      EncodedLength(ParseBatch(raw).value);
    }
  }

  /** What Rust encodes passes Rust's own validator, and the contract reads back the batch that was meant. */
  lemma RustEncodesValid(b: Rs.RsBatch)
    requires Rs.RsEncode(b).Some?
    ensures Rs.Validated(Rs.RsEncode(b).value) == Success(())
    ensures Sol.Decoded(Rs.RsEncode(b).value) == Success(Rs.Meaning(b))
  {
    Rs.MeaningWellFormed(b);
    ParseEncode(Rs.Meaning(b));
    EncodedLength(Rs.Meaning(b));
  }

  /** What Python encodes is read by the contract as the batch that was meant. */
  lemma PythonEncodesValid(b: Py.PyBatch)
    requires Py.PyEncode(b).Some?
    ensures Sol.Decoded(Py.PyEncode(b).value) == Success(Py.Meaning(b))
  {
    PyTrip.MeaningWellFormed(b);
    ParseEncode(Py.Meaning(b));
  }

  /** A Python and a Rust encoding are the same bytes exactly when the two requests mean the same batch. */
  lemma EncodersAgree(p: Py.PyBatch, r: Rs.RsBatch)
    requires Py.PyEncode(p).Some? && Rs.RsEncode(r).Some?
    ensures Py.PyEncode(p) == Rs.RsEncode(r) <==> Py.Meaning(p) == Rs.Meaning(r)
  {
    PythonEncodesValid(p);
    RustEncodesValid(r);
  }

  /**
   Rust's parse_uint of a numeral gives the bytes that Python's _u gives for the number it stands for,
   except that in no bytes at all Python writes zero and Rust refuses it.
   */
  lemma UintBytesAgree(text: string, n: nat)
    requires RsNumber.NumeralValue(text).Some?
    ensures RsNumber.ParsedUint(text, n) == Py.UintBytes(RsNumber.NumeralValue(text).value, n)
       <==> n > 0 || RsNumber.NumeralValue(text).value != 0
  {
    FitsIffBelow(RsNumber.NumeralValue(text).value, n);
    assert Pow256(0) == 1;
  }
}
