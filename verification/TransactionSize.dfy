/** The size of a signed EIP-1559 transaction, and the planner's estimate of it before it is signed. */
module TransactionSize {
  import opened Bytes
  import opened Rlp

  /** What the planner knows about a transaction before it is signed; no recipient is no bytes. */
  datatype Transaction = Transaction(
    chainId: nat, nonce: nat, priorityFee: nat, maxFee: nat, gas: nat, to: seq<Byte>, value: nat, data: seq<Byte>)

  /** The nine unsigned fields of the "Specification" section of EIP-1559, with an empty access list. */
  function UnsignedFields(tx: Transaction): (fields: seq<Item>)
    ensures |fields| == 9
  {
    [Int(tx.chainId), Int(tx.nonce), Int(tx.priorityFee), Int(tx.maxFee), Int(tx.gas), Str(tx.to), Int(tx.value),
     Str(tx.data), List([])]
  }

  function SignedFields(tx: Transaction, parity: nat, r: nat, s: nat): (fields: seq<Item>)
    ensures |fields| == 12
  {
    UnsignedFields(tx) + [Int(parity), Int(r), Int(s)]
  }

  function SignedItem(tx: Transaction, parity: nat, r: nat, s: nat): (x: Item)
    ensures x.List? && |x.items| == 12
  {
    List(SignedFields(tx, parity, r, s))
  }

  /** The type-2 payload that goes on the wire. */
  function Serialize(tx: Transaction, parity: nat, r: nat, s: nat): seq<Byte>
    requires Encodable(SignedItem(tx, parity, r, s))
  {
    [2] + Encode(SignedItem(tx, parity, r, s))
  }

  /** 2^256 - 1, the widest signature scalar. */
  function WidestScalar(): nat {
    Pow256(32) - 1
  }

  /** conservative_eip1559_signed_size. The planner always passes a zero value. */
  function ConservativeSize(tx: Transaction): nat {
    1 + Length(SignedItem(tx.(value := 0), 1, WidestScalar(), WidestScalar()))
  }

  // ---- lengths grow with what is encoded ----

  lemma {:induction false} IntBytesGrow(m: nat, n: nat)
    requires m <= n
    ensures |IntBytes(m)| <= |IntBytes(n)|
  {
    if m > 0 {
      IntBytesGrow(m / 256, n / 256);
    }
  }

  /** A header and its payload together grow strictly with the payload. */
  lemma FramedGrows(m: nat, n: nat)
    requires m <= n
    ensures HeaderLength(m) + m <= HeaderLength(n) + n
    ensures m < n ==> HeaderLength(m) + m < HeaderLength(n) + n
  {
    IntBytesGrow(m, n);
  }

  lemma IntLength(n: nat)
    ensures Length(Int(n)) == if n < 0x80 then 1 else HeaderLength(|IntBytes(n)|) + |IntBytes(n)|
  {
    hide FromBE;
    IntBytesSpell(n);
    if |IntBytes(n)| == 1 {
      FromOneByte(IntBytes(n));
    } else if n > 0 {
      IntBytesAreFewest(n);
      Pow256Monotone(1, |IntBytes(n)| - 1);
      assert Pow256(1) == 256;
    }
  }

  lemma FromOneByte(s: seq<Byte>)
    requires |s| == 1
    ensures FromBE(s) == s[0]
  {
    assert FromBE(s[..0]) == 0;
  }

  lemma IntLengthGrows(m: nat, n: nat)
    requires m <= n
    ensures Length(Int(m)) <= Length(Int(n))
  {
    hide IntBytes, Length;
    IntLength(m);
    IntLength(n);
    IntBytesGrow(m, n);
    FramedGrows(|IntBytes(m)|, |IntBytes(n)|);
  }

  /** Longer byte strings encode to longer or equally long items, whatever the bytes. */
  lemma StringLengthGrows(a: seq<Byte>, b: seq<Byte>)
    requires |a| < |b| || a == b
    ensures Length(Str(a)) <= Length(Str(b))
  {
    hide IntBytes;
    if |a| < |b| {
      FramedGrows(|a|, |b|);
    }
  }

  /** No field longer makes no payload longer; one field shorter makes the payload shorter. */
  lemma {:induction false} PayloadGrows(xs: seq<Item>, ys: seq<Item>)
    requires |xs| == |ys| && forall i :: 0 <= i < |xs| ==> Length(xs[i]) <= Length(ys[i])
    ensures PayloadLength(xs) <= PayloadLength(ys)
    ensures (exists i :: 0 <= i < |xs| && Length(xs[i]) < Length(ys[i])) ==> PayloadLength(xs) < PayloadLength(ys)
    ensures (forall i :: 0 <= i < |xs| ==> Length(xs[i]) == Length(ys[i])) ==> PayloadLength(xs) == PayloadLength(ys)
  {
    hide Length;
    if xs != [] {
      PayloadGrows(xs[1..], ys[1..]);
      assert forall i :: 0 < i < |xs| ==> xs[i] == xs[1..][i - 1] && ys[i] == ys[1..][i - 1];
    }
  }

  lemma ListGrows(xs: seq<Item>, ys: seq<Item>)
    requires |xs| == |ys| && forall i :: 0 <= i < |xs| ==> Length(xs[i]) <= Length(ys[i])
    ensures Length(List(xs)) <= Length(List(ys))
    ensures (exists i :: 0 <= i < |xs| && Length(xs[i]) < Length(ys[i])) ==> Length(List(xs)) < Length(List(ys))
    ensures (forall i :: 0 <= i < |xs| ==> Length(xs[i]) == Length(ys[i])) ==> Length(List(xs)) == Length(List(ys))
  {
    PayloadGrows(xs, ys);
    assert Length(List(xs)) == HeaderLength(PayloadLength(xs)) + PayloadLength(xs);
    assert Length(List(ys)) == HeaderLength(PayloadLength(ys)) + PayloadLength(ys);
    hide Length, PayloadLength, HeaderLength;
    FramedGrows(PayloadLength(xs), PayloadLength(ys));
  }

  // ---- the estimate is an upper bound ----

  predicate Signature(parity: nat, r: nat, s: nat) {
    parity <= 1 && r < Pow256(32) && s < Pow256(32)
  }

  /** A scalar takes all 32 bytes exactly when it is at least 2^248. */
  lemma ScalarLength(n: nat)
    requires n < Pow256(32)
    ensures |IntBytes(n)| <= 32
    ensures Length(Int(n)) <= Length(Int(WidestScalar())) == 33
    ensures Length(Int(n)) == 33 <==> n >= Pow256(31)
  {
    hide IntBytes, Pow256, Length, ToBE;
    Pow256Monotone(1, 31);
    Pow256Next(31);
    OneByteRange();
    IntBytesLength(n, 32);
    IntLength(n);
    ScalarWidth(n);
    ScalarWidth(WidestScalar());
    IntLength(WidestScalar());
  }

  lemma OneByteRange()
    ensures Pow256(1) == 256
  {
    assert Pow256(0) == 1;
  }

  lemma ScalarWidth(n: nat)
    requires n < Pow256(32)
    ensures |IntBytes(n)| == 32 <==> n >= Pow256(31)
    ensures |IntBytes(n)| <= 32
  {
    hide IntBytes, Pow256, ToBE;
    IntBytesLength(n, 32);
    if n >= Pow256(31) {
      if |IntBytes(n)| <= 31 {
        IntBytesAreFewest(n);
        Pow256Monotone(|IntBytes(n)|, 31);
      }
    } else {
      IntBytesLength(n, 31);
    }
  }

  lemma FieldLengths(tx: Transaction, parity: nat, r: nat, s: nat)
    requires Signature(parity, r, s) && tx.value == 0
    ensures var xs, ys := SignedFields(tx, parity, r, s), SignedFields(tx, 1, WidestScalar(), WidestScalar());
            && (forall i :: 0 <= i < 12 ==> Length(xs[i]) <= Length(ys[i]))
            && (forall i :: 0 <= i < 10 ==> Length(xs[i]) == Length(ys[i]))
            && Length(ys[10]) == Length(ys[11]) == 33
            && (Length(xs[10]) == 33 <==> r >= Pow256(31))
            && (Length(xs[11]) == 33 <==> s >= Pow256(31))
  {
    hide IntBytes, Pow256, Length;
    var xs, ys := SignedFields(tx, parity, r, s), SignedFields(tx, 1, WidestScalar(), WidestScalar());
    assert forall i :: 0 <= i < 9 ==> xs[i] == ys[i] == UnsignedFields(tx)[i];
    assert xs[9..] == [Int(parity), Int(r), Int(s)] && ys[9..] == [Int(1), Int(WidestScalar()), Int(WidestScalar())];
    assert xs[9] == Int(parity) && xs[10] == Int(r) && xs[11] == Int(s);
    IntLength(parity);
    IntLength(1);
    ScalarLength(r);
    ScalarLength(s);
  }

  lemma FieldsEncodable(tx: Transaction, parity: nat, r: nat, s: nat)
    requires Signature(parity, r, s) && tx.value == 0
    requires Encodable(SignedItem(tx, 1, WidestScalar(), WidestScalar()))
    ensures Encodable(SignedItem(tx, parity, r, s))
  {
    hide PayloadLength, IntBytes, Pow256, AllEncodable, Length;
    var xs, ys := SignedFields(tx, parity, r, s), SignedFields(tx, 1, WidestScalar(), WidestScalar());
    FieldLengths(tx, parity, r, s);
    PayloadGrows(xs, ys);
    AllEncodableExactly(xs);
    AllEncodableExactly(ys);
    assert forall i :: 0 <= i < 9 ==> xs[i] == ys[i] == UnsignedFields(tx)[i];
    assert xs[9..] == [Int(parity), Int(r), Int(s)];
    assert xs[9] == Int(parity) && xs[10] == Int(r) && xs[11] == Int(s);
    Pow256Monotone(1, 32);
    OneByteRange();
    IntBytesLength(parity, 32);
    ScalarLength(r);
    ScalarLength(s);
  }

  /**
   Whatever signature comes back, the wire size is at most the estimate, and it is the estimate itself
   exactly when both scalars take their full 32 bytes.
   */
  lemma EstimateIsUpperBound(tx: Transaction, parity: nat, r: nat, s: nat)
    requires parity <= 1 && r < Pow256(32) && s < Pow256(32) && tx.value == 0
    requires Encodable(SignedItem(tx, 1, WidestScalar(), WidestScalar()))
    ensures Encodable(SignedItem(tx, parity, r, s))
    ensures |Serialize(tx, parity, r, s)| <= ConservativeSize(tx)
    ensures |Serialize(tx, parity, r, s)| == ConservativeSize(tx) <==> r >= Pow256(31) && s >= Pow256(31)
  {
    hide IntBytes, Pow256, Length, PayloadLength, Encodable, Encode;
    FieldsEncodable(tx, parity, r, s);
    var xs, ys := SignedFields(tx, parity, r, s), SignedFields(tx, 1, WidestScalar(), WidestScalar());
    FieldLengths(tx, parity, r, s);
    ListGrows(xs, ys);
    assert tx.(value := 0) == tx;
    if r < Pow256(31) {
      assert Length(xs[10]) < Length(ys[10]);
    } else if s < Pow256(31) {
      assert Length(xs[11]) < Length(ys[11]);
    } else {
      assert forall i :: 0 <= i < 12 ==> Length(xs[i]) == Length(ys[i]);
    }
  }

  /** What goes on the wire, field by field: the order of EIP-1559 behind its type byte. */
  lemma WireFields(tx: Transaction, parity: nat, r: nat, s: nat)
    requires Encodable(SignedItem(tx, parity, r, s))
    ensures var x := List([Int(tx.chainId), Int(tx.nonce), Int(tx.priorityFee), Int(tx.maxFee), Int(tx.gas), Str(tx.to),
                           Int(tx.value), Str(tx.data), List([]), Int(parity), Int(r), Int(s)]);
            Encodable(x) && Serialize(tx, parity, r, s) == [2] + Encode(x)
  {
    hide Encodable, Encode;
    assert SignedFields(tx, parity, r, s)
        == [Int(tx.chainId), Int(tx.nonce), Int(tx.priorityFee), Int(tx.maxFee), Int(tx.gas), Str(tx.to), Int(tx.value),
            Str(tx.data), List([]), Int(parity), Int(r), Int(s)];
  }

  /** The estimate is attained: it is the size on the wire under parity 1 and two scalars 2^256 - 1. */
  lemma EstimateIsAttained(tx: Transaction)
    requires tx.value == 0 && Encodable(SignedItem(tx, 1, WidestScalar(), WidestScalar()))
    ensures WidestScalar() == 0xFFFF_FFFF_FFFF_FFFF_FFFF_FFFF_FFFF_FFFF_FFFF_FFFF_FFFF_FFFF_FFFF_FFFF_FFFF_FFFF
    ensures ConservativeSize(tx) == |Serialize(tx, 1, WidestScalar(), WidestScalar())|
  {
    hide Encodable, Encode, Length;
    assert tx.(value := 0) == tx;
    WordRanges();
  }

  // ---- the estimate never shrinks ----

  /** No smaller number anywhere, the same recipient, and calldata that is the same or longer. */
  predicate Grows(a: Transaction, b: Transaction) {
    && a.chainId <= b.chainId
    && a.nonce <= b.nonce
    && a.priorityFee <= b.priorityFee
    && a.maxFee <= b.maxFee
    && a.gas <= b.gas
    && a.to == b.to
    && (|a.data| < |b.data| || a.data == b.data)
  }

  /** The estimate grows with nonce, fees, gas limit and calldata length, over every length-header boundary. */
  lemma EstimateNeverShrinks(a: Transaction, b: Transaction)
    requires Grows(a, b)
    ensures ConservativeSize(a) <= ConservativeSize(b)
  {
    hide IntBytes, Pow256, Length, PayloadLength;
    var w := WidestScalar();
    var xs, ys := SignedFields(a.(value := 0), 1, w, w), SignedFields(b.(value := 0), 1, w, w);
    IntLengthGrows(a.chainId, b.chainId);
    IntLengthGrows(a.nonce, b.nonce);
    IntLengthGrows(a.priorityFee, b.priorityFee);
    IntLengthGrows(a.maxFee, b.maxFee);
    IntLengthGrows(a.gas, b.gas);
    StringLengthGrows(a.data, b.data);
    assert forall i :: 0 <= i < 12 ==> Length(xs[i]) <= Length(ys[i]);
    ListGrows(xs, ys);
  }

  /** Same-length calldata can differ by one byte: a lone byte below 0x80 is its own encoding. */
  lemma LoneByteCalldataDiffers(tx: Transaction)
    ensures StringLength([0x7F]) == 1 && StringLength([0x80]) == 2
    ensures ConservativeSize(tx.(data := [0x7F])) < ConservativeSize(tx.(data := [0x80]))
  {
    hide IntBytes, Pow256, Length, PayloadLength;
    var w := WidestScalar();
    var a, b := tx.(data := [0x7F]), tx.(data := [0x80]);
    var xs, ys := SignedFields(a.(value := 0), 1, w, w), SignedFields(b.(value := 0), 1, w, w);
    StrLength([0x7F]);
    StrLength([0x80]);
    assert xs[7] == Str([0x7F]) && ys[7] == Str([0x80]);
    assert forall i :: 0 <= i < 12 && i != 7 ==> xs[i] == ys[i];
    ListGrows(xs, ys);
  }

  lemma StrLength(raw: seq<Byte>)
    ensures Length(Str(raw)) == StringLength(raw)
  {
  }
}
