/**
 The signer gateway: which execution requests it sends to the external signer, and which signed
 payloads it lets back out.
 */
module SignerPolicy {
  import opened Bytes
  import opened HexText
  import opened Rlp
  import opened TransactionSize

  /** The gateway's configuration and the two calldata selectors it signs for. */
  datatype Policy = Policy(
    chainId: nat, signer: string, executor: string, maxGas: nat, maxFee: nat, allowExecution: bool,
    startSelector: seq<Byte>, startPackedSelector: seq<Byte>)

  /**
   An execution request. An address or a quantity is what normalize_address or parse_hex_quantity
   make of its text, None where they raise.
   */
  datatype Request = Request(
    chainId: int, sender: Option<string>, nonce: Option<nat>, gas: Option<nat>, priorityFee: Option<nat>,
    maxFee: Option<nat>, value: Option<nat>, data: string, to: Option<string>, routeId: string, asset: Option<string>)

  /** The normalised request, which the signed payload must repeat. No recipient deploys a contract. */
  datatype Expected = Expected(
    chainId: nat, nonce: nat, priorityFee: nat, maxFee: nat, gas: nat, to: Option<string>, value: nat, data: string)

  datatype Fault =
    | ExecutionDisabled | WrongChain | BadAddress(field: string) | WrongSender | BadQuantity(field: string)
    | BadData(field: string) | GasExceeds | MaxFeeExceeds | PriorityExceeds | ValueForbidden | WrongDestination
    | WrongSelector | BadRouteId
    | NotType2 | Undecodable | FieldCount | AccessListPresent | Unreadable | Changed(field: string)

  // ---- requests ----

  predicate HexData(s: string) {
    HasPrefix(s) && |s| % 2 == 0 && DecodeSpaced(s[2..]).Some?
  }

  /** validate_common. */
  function ValidateCommon(q: Request, p: Policy): Result<Expected, Fault> {
    if q.chainId != p.chainId then Failure(WrongChain)
    else if q.sender.None? then Failure(BadAddress("from"))
    else if q.sender.value != p.signer then Failure(WrongSender)
    else if q.nonce.None? then Failure(BadQuantity("nonce"))
    else if q.gas.None? then Failure(BadQuantity("gas"))
    else if q.priorityFee.None? then Failure(BadQuantity("max_priority_fee_per_gas"))
    else if q.maxFee.None? then Failure(BadQuantity("max_fee_per_gas"))
    else if q.value.None? then Failure(BadQuantity("value"))
    else if !HexData(q.data) then Failure(BadData("data"))
    else if q.gas.value == 0 || q.gas.value > p.maxGas then Failure(GasExceeds)
    else if q.maxFee.value == 0 || q.maxFee.value > p.maxFee then Failure(MaxFeeExceeds)
    else if q.priorityFee.value > q.maxFee.value then Failure(PriorityExceeds)
    else if q.value.value != 0 then Failure(ValueForbidden)
    else Success(Expected(p.chainId, q.nonce.value, q.priorityFee.value, q.maxFee.value, q.gas.value, None,
                          q.value.value, LowerText(q.data)))
  }

  function FirstTen(s: string): string {
    if |s| <= 10 then s else s[..10]
  }

  /** validate_execution. */
  function ValidateExecution(q: Request, p: Policy): Result<Expected, Fault> {
    if !p.allowExecution then Failure(ExecutionDisabled)
    else
      match ValidateCommon(q, p)
      case Failure(fault) => Failure(fault)
      case Success(e) =>
        if q.to.None? then Failure(BadAddress("to"))
        else if q.to.value != p.executor then Failure(WrongDestination)
        else if FirstTen(e.data) !in {"0x" + ToHex(p.startSelector), "0x" + ToHex(p.startPackedSelector)}
            then Failure(WrongSelector)
        else if !HexData(q.routeId) then Failure(BadData("route_id"))
        else if |q.routeId| != 66 then Failure(BadRouteId)
        else if q.asset.None? then Failure(BadAddress("asset"))
        else Success(e.(to := Some(q.to.value)))
  }

  /** Which requests are admitted, and that the normalised request repeats them. */
  lemma AdmitsExactly(q: Request, p: Policy)
    ensures ValidateExecution(q, p).Success?
            <==> && p.allowExecution && q.chainId == p.chainId && q.sender == Some(p.signer)
                 && q.nonce.Some? && q.gas.Some? && q.priorityFee.Some? && q.maxFee.Some? && q.value == Some(0)
                 && 0 < q.gas.value <= p.maxGas
                 && 0 < q.maxFee.value <= p.maxFee && q.priorityFee.value <= q.maxFee.value
                 && HexData(q.data)
                 && FirstTen(LowerText(q.data)) in {"0x" + ToHex(p.startSelector), "0x" + ToHex(p.startPackedSelector)}
                 && q.to == Some(p.executor) && HexData(q.routeId) && |q.routeId| == 66 && q.asset.Some?
    ensures ValidateExecution(q, p).Success? ==>
              ValidateExecution(q, p).value
              == Expected(p.chainId, q.nonce.value, q.priorityFee.value, q.maxFee.value, q.gas.value, q.to, 0,
                  LowerText(q.data))
  {
    hide FirstTen, LowerText, ToHex, HexData;
  }

  /** The five quantities of a request parse. */
  predicate Quantified(q: Request) {
    q.nonce.Some? && q.gas.Some? && q.priorityFee.Some? && q.maxFee.Some? && q.value.Some?
  }

  /** Gas and fees are within the caps, and nothing is paid. */
  predicate WithinCaps(q: Request, p: Policy)
    requires Quantified(q)
  {
    && 1 <= q.gas.value <= p.maxGas && 1 <= q.maxFee.value <= p.maxFee
    && q.priorityFee.value <= q.maxFee.value && q.value.value == 0
  }

  /** Why a request is refused: who asks, what does not parse, what exceeds the caps, what it calls; in this order. */
  lemma RefusalsInOrder(q: Request, p: Policy)
    ensures var v := ValidateExecution(q, p);
            var ours := p.allowExecution && q.chainId == p.chainId && q.sender == Some(p.signer);
            var parses := ours && Quantified(q) && HexData(q.data);
            var capped := parses && WithinCaps(q, p);
            && (!p.allowExecution ==> v == Failure(ExecutionDisabled))
            && (p.allowExecution && q.chainId != p.chainId ==> v == Failure(WrongChain))
            && (p.allowExecution && q.chainId == p.chainId && q.sender != Some(p.signer) ==>
                  v == Failure(if q.sender.None? then BadAddress("from") else WrongSender))
            && (ours && q.nonce.None? ==> v == Failure(BadQuantity("nonce")))
            && (ours && q.nonce.Some? && q.gas.None? ==> v == Failure(BadQuantity("gas")))
            && (ours && q.nonce.Some? && q.gas.Some? && q.priorityFee.None? ==>
                  v == Failure(BadQuantity("max_priority_fee_per_gas")))
            && (ours && q.nonce.Some? && q.gas.Some? && q.priorityFee.Some? && q.maxFee.None? ==>
                  v == Failure(BadQuantity("max_fee_per_gas")))
            && (ours && q.nonce.Some? && q.gas.Some? && q.priorityFee.Some? && q.maxFee.Some? && q.value.None? ==>
                  v == Failure(BadQuantity("value")))
            && (ours && Quantified(q) && !HexData(q.data) ==> v == Failure(BadData("data")))
            && (parses && !(1 <= q.gas.value <= p.maxGas) ==> v == Failure(GasExceeds))
            && (parses && 1 <= q.gas.value <= p.maxGas && !(1 <= q.maxFee.value <= p.maxFee) ==>
                  v == Failure(MaxFeeExceeds))
            && (parses && 1 <= q.gas.value <= p.maxGas && 1 <= q.maxFee.value <= p.maxFee && !WithinCaps(q, p) ==>
                  v == Failure(if q.priorityFee.value > q.maxFee.value then PriorityExceeds else ValueForbidden))
            && (capped && q.to != Some(p.executor) ==>
                  v == Failure(if q.to.None? then BadAddress("to") else WrongDestination))
            && (capped && q.to == Some(p.executor) ==>
                  var selected := FirstTen(LowerText(q.data))
                                  in {"0x" + ToHex(p.startSelector), "0x" + ToHex(p.startPackedSelector)};
                  && (!selected ==> v == Failure(WrongSelector))
                  && (selected && !HexData(q.routeId) ==> v == Failure(BadData("route_id")))
                  && (selected && HexData(q.routeId) && |q.routeId| != 66 ==> v == Failure(BadRouteId))
                  && (selected && HexData(q.routeId) && |q.routeId| == 66 && q.asset.None? ==>
                        v == Failure(BadAddress("asset"))))
  {
    hide FirstTen, LowerText, ToHex, HexData;
  }

  // ---- signed payloads ----

  /** _rlp_int on a decoded field: an empty field of either kind is zero, a non-empty list raises. */
  function ReadInt(x: Item): Option<nat> {
    match x
    case Str(raw) => Some(FromBE(raw))
    case List(items) => if items == [] then Some(0) else None
    case Int(_) => None
  }

  /** bytes() on a decoded field. */
  function ReadBytes(x: Item): Option<seq<Byte>> {
    match x
    case Str(raw) => Some(raw)
    case List(items) => if items == [] then Some([]) else None
    case Int(_) => None
  }

  /** Only the empty string counts as no recipient. */
  function Destination(x: Item): Option<Option<string>> {
    if x == Str([]) then Some(None)
    else
      match ReadBytes(x)
      case None => None
      case Some(raw) => Some(Some("0x" + ToHex(raw)))
  }

  /** The comparisons, in the order the normalised request lists its fields. */
  function CompareFields(f: seq<Item>, e: Expected): Option<Fault>
    requires |f| == 12
  {
    if Destination(f[5]).None? || ReadInt(f[0]).None? || ReadInt(f[1]).None? || ReadInt(f[2]).None?
       || ReadInt(f[3]).None? || ReadInt(f[4]).None? || ReadInt(f[6]).None? || ReadBytes(f[7]).None?
            then Some(Unreadable)
    else if ReadInt(f[0]).value != e.chainId then Some(Changed("chain_id"))
    else if ReadInt(f[1]).value != e.nonce then Some(Changed("nonce"))
    else if ReadInt(f[4]).value != e.gas then Some(Changed("gas"))
    else if ReadInt(f[2]).value != e.priorityFee then Some(Changed("max_priority_fee_per_gas"))
    else if ReadInt(f[3]).value != e.maxFee then Some(Changed("max_fee_per_gas"))
    else if ReadInt(f[6]).value != e.value then Some(Changed("value"))
    else if "0x" + ToHex(ReadBytes(f[7]).value) != e.data then Some(Changed("data"))
    else if Destination(f[5]).value != e.to then Some(Changed("to"))
    else None
  }

  /**
   verify_signed_transaction on the bytes of the payload, up to sender recovery; None lets it through.
   A payload that is one byte string has a length too, and its ninth byte is no empty list.
   */
  function Verify(raw: seq<Byte>, e: Expected): Option<Fault> {
    if raw == [] || raw[0] != 2 then Some(NotType2)
    else
      match Decode(raw[1..])
      case None => Some(Undecodable)
      case Some(Str(body)) => if |body| != 12 then Some(FieldCount) else Some(AccessListPresent)
      case Some(List(f)) =>
        if |f| != 12 then Some(FieldCount)
        else if f[8] != List([]) then Some(AccessListPresent)
        else CompareFields(f, e)
      case Some(Int(_)) => Some(Undecodable)
  }

  /** How a decoded field reads: empty is zero or nothing, and a list that holds something does not read. */
  lemma FieldReadings(raw: seq<Byte>, items: seq<Item>)
    ensures ReadInt(Str(raw)) == Some(FromBE(raw)) && ReadBytes(Str(raw)) == Some(raw)
    ensures ReadInt(List([])) == Some(0) && ReadBytes(List([])) == Some([])
    ensures Destination(Str(raw)) == Some(if raw == [] then None else Some("0x" + ToHex(raw)))
    ensures Destination(List([])) == Some(Some("0x"))
    ensures items != [] ==> ReadInt(List(items)).None? && ReadBytes(List(items)).None? && Destination(List(items)).None?
  {
    hide FromBE;
    assert "0x" + ToHex([]) == "0x";
  }

  /** The shape is checked before the fields: type, encoding, twelve fields, no access list. */
  lemma ShapeFaults(raw: seq<Byte>, e: Expected)
    ensures raw == [] || raw[0] != 2 ==> Verify(raw, e) == Some(NotType2)
    ensures raw != [] && raw[0] == 2 ==>
              var x := Decode(raw[1..]);
              && (x.None? ==> Verify(raw, e) == Some(Undecodable))
              && (x.Some? && x.value.Str? ==>
                    Verify(raw, e) == Some(if |x.value.raw| == 12 then AccessListPresent else FieldCount))
              && (x.Some? && x.value.List? && |x.value.items| != 12 ==> Verify(raw, e) == Some(FieldCount))
              && (x.Some? && x.value.List? && |x.value.items| == 12 && x.value.items[8] != List([]) ==>
                    Verify(raw, e) == Some(AccessListPresent))
              && (x.Some? && x.value.List? && |x.value.items| == 12 && x.value.items[8] == List([]) ==>
                    Verify(raw, e) == CompareFields(x.value.items, e))
  {
    hide Decode, CompareFields;
  }

  /** Of readable fields the first that differs is reported, in the order of the normalised request. */
  lemma FieldFaults(f: seq<Item>, e: Expected)
    requires |f| == 12
    ensures var readable := ReadBytes(f[7]).Some? && Destination(f[5]).Some?
                            && forall i :: i in {0, 1, 2, 3, 4, 6} ==> ReadInt(f[i]).Some?;
            && (!readable ==> CompareFields(f, e) == Some(Unreadable))
            && (readable ==>
                  var number := [ReadInt(f[0]).value, ReadInt(f[1]).value, ReadInt(f[2]).value, ReadInt(f[3]).value,
                                 ReadInt(f[4]).value, 0, ReadInt(f[6]).value];
                  var r := CompareFields(f, e);
                  && (r == Some(Changed("chain_id")) <==> number[0] != e.chainId)
                  && (r == Some(Changed("nonce")) <==> number[1] != e.nonce && number[0] == e.chainId)
                  && (r == Some(Changed("gas")) <==>
                        number[4] != e.gas && number[..2] == [e.chainId, e.nonce])
                  && (r == Some(Changed("max_priority_fee_per_gas")) <==>
                        number[2] != e.priorityFee && number[..2] == [e.chainId, e.nonce] && number[4] == e.gas)
                  && (r == Some(Changed("max_fee_per_gas")) <==>
                        number[3] != e.maxFee && number[..3] == [e.chainId, e.nonce, e.priorityFee]
                            && number[4] == e.gas)
                  && (r in {Some(Changed("value")), Some(Changed("data")), Some(Changed("to")), None} <==>
                        number[..5] == [e.chainId, e.nonce, e.priorityFee, e.maxFee, e.gas])
                  && (number[..5] == [e.chainId, e.nonce, e.priorityFee, e.maxFee, e.gas] ==>
                        && (r == Some(Changed("value")) <==> number[6] != e.value)
                        && (r == Some(Changed("data")) <==>
                              number[6] == e.value && "0x" + ToHex(ReadBytes(f[7]).value) != e.data)
                        && (r == Some(Changed("to")) <==>
                              number[6] == e.value && "0x" + ToHex(ReadBytes(f[7]).value) == e.data
                              && Destination(f[5]).value != e.to)))
  {
    hide ReadInt, ReadBytes, Destination, ToHex;
  }

  // ---- which payloads pass ----

  /** The twelve decoded fields read as the request, with an empty access list. */
  predicate Spells(f: seq<Item>, e: Expected) {
    && |f| == 12
    && ReadInt(f[0]) == Some(e.chainId)
    && ReadInt(f[1]) == Some(e.nonce)
    && ReadInt(f[2]) == Some(e.priorityFee)
    && ReadInt(f[3]) == Some(e.maxFee)
    && ReadInt(f[4]) == Some(e.gas)
    && Destination(f[5]) == Some(e.to)
    && ReadInt(f[6]) == Some(e.value)
    && (ReadBytes(f[7]).Some? && "0x" + ToHex(ReadBytes(f[7]).value) == e.data)
    && f[8] == List([])
  }

  lemma ComparesExactly(f: seq<Item>, e: Expected)
    requires |f| == 12
    ensures CompareFields(f, e) == None && f[8] == List([]) <==> Spells(f, e)
  {
    hide FromBE, ToHex;
  }

  lemma {:induction false} PlainAllAt(xs: seq<Item>)
    ensures |PlainAll(xs)| == |xs| && forall i :: 0 <= i < |xs| ==> PlainAll(xs)[i] == Plain(xs[i])
  {
    hide Plain;
    if xs != [] {
      PlainAllAt(xs[1..]);
      assert forall i :: 0 < i < |xs| ==> xs[i] == xs[1..][i - 1];
    }
  }

  /** A payload that passes is the encoding of the twelve fields that the gateway decoded. */
  lemma PassingDecodes(raw: seq<Byte>, e: Expected)
    requires Verify(raw, e) == None
    ensures var x := Decode(raw[1..]);
            && x.Some? && x.value.List? && Spells(x.value.items, e)
            && Encodable(x.value) && raw == [2] + Encode(x.value)
  {
    hide FromBE, ToHex, DecodeItem, Encode, Encodable, CompareFields;
    var x := Decode(raw[1..]).value;
    EncodeDecode(raw[1..]);
    assert Encode(x) + [] == Encode(x);
    ComparesExactly(x.items, e);
  }

  lemma DecodePayload(f: seq<Item>)
    requires Encodable(List(f))
    ensures Decode(([2] + Encode(List(f)))[1..]) == Some(List(PlainAll(f)))
  {
    hide DecodeItem, Encode, Encodable, PlainAll;
    var s := Encode(List(f));
    assert ([2] + s)[1..] == s + [];
    DecodeEncode(List(f), []);
  }

  lemma EncodedFieldsPass(f: seq<Item>, e: Expected)
    requires Encodable(List(f)) && |f| == 12
    ensures Verify([2] + Encode(List(f)), e) == None <==> Spells(PlainAll(f), e)
  {
    hide FromBE, ToHex, Decode, Encode, Encodable, CompareFields, PlainAll, Spells;
    PlainAllAt(f);
    DecodePayload(f);
    ComparesExactly(PlainAll(f), e);
  }

  /** What the gateway lets out, over all byte strings: type 2, and encoded fields that read as the request. */
  lemma PassesExactly(raw: seq<Byte>, e: Expected)
    ensures Verify(raw, e) == None
            <==> exists f :: Encodable(List(f)) && Spells(PlainAll(f), e) && raw == [2] + Encode(List(f))
  {
    hide FromBE, ToHex, Decode, Encode, Encodable, PlainAll, Spells, Verify;
    if Verify(raw, e) == None {
      PassingDecodes(raw, e);
      var f := Decode(raw[1..]).value.items;
      DecodePayload(f);
      assert raw[1..] == Encode(List(f));
      assert PlainAll(f) == f;
    }
    forall f | Encodable(List(f)) && Spells(PlainAll(f), e) && raw == [2] + Encode(List(f))
      ensures Verify(raw, e) == None
    {
      PlainAllAt(f);
      SpellsTwelve(PlainAll(f), e);
      EncodedFieldsPass(f, e);
    }
  }

  lemma SpellsTwelve(f: seq<Item>, e: Expected)
    requires Spells(f, e)
    ensures |f| == 12
  {
  }

  // ---- payloads built from typed fields ----

  function TypedFields(tx: Transaction, access: Item, parity: nat, r: nat, s: nat): (f: seq<Item>)
    ensures |f| == 12
  {
    SignedFields(tx, parity, r, s)[8 := access]
  }

  function Recipient(to: seq<Byte>): Option<string> {
    if to == [] then None else Some("0x" + ToHex(to))
  }

  predicate Repeats(tx: Transaction, e: Expected) {
    && tx.chainId == e.chainId
    && tx.nonce == e.nonce
    && tx.priorityFee == e.priorityFee
    && tx.maxFee == e.maxFee
    && tx.gas == e.gas
    && Recipient(tx.to) == e.to
    && tx.value == e.value
    && "0x" + ToHex(tx.data) == e.data
  }

  lemma ReadIntOfInt(n: nat)
    ensures ReadInt(Plain(Int(n))) == Some(n)
  {
    hide IntBytes, FromBE;
    IntBytesSpell(n);
  }

  lemma PlainEmptyList(x: Item)
    ensures Plain(x) == List([]) <==> x == List([])
  {
    if x.List? {
      PlainAllAt(x.items);
    }
  }

  lemma RecipientReads(to: seq<Byte>)
    ensures Destination(Plain(Str(to))) == Some(Recipient(to))
  {
  }

  lemma TypedFieldsRead(tx: Transaction, access: Item, parity: nat, r: nat, s: nat, e: Expected)
    ensures |PlainAll(TypedFields(tx, access, parity, r, s))| == 12
    ensures Spells(PlainAll(TypedFields(tx, access, parity, r, s)), e) <==> Repeats(tx, e) && access == List([])
  {
    hide IntBytes, FromBE, ToHex, PlainAll, ReadInt, Destination, Recipient;
    var f := TypedFields(tx, access, parity, r, s);
    var u := UnsignedFields(tx);
    assert forall i :: 0 <= i < 8 ==> f[i] == u[i];
    PlainAllAt(f);
    ReadIntOfInt(tx.chainId);
    ReadIntOfInt(tx.nonce);
    ReadIntOfInt(tx.priorityFee);
    ReadIntOfInt(tx.maxFee);
    ReadIntOfInt(tx.gas);
    ReadIntOfInt(tx.value);
    RecipientReads(tx.to);
    PlainEmptyList(access);
  }

  /**
   A typed transaction passes exactly when every field repeats the normalised request and its access
   list is empty. The signature is free.
   */
  lemma TypedPayloadPassesExactly(tx: Transaction, access: Item, parity: nat, r: nat, s: nat, e: Expected)
    requires Encodable(List(TypedFields(tx, access, parity, r, s)))
    ensures Verify([2] + Encode(List(TypedFields(tx, access, parity, r, s))), e) == None
            <==> Repeats(tx, e) && access == List([])
  {
    hide Encode, Encodable, PlainAll, Verify, Spells, Repeats, TypedFields;
    TypedFieldsRead(tx, access, parity, r, s, e);
    EncodedFieldsPass(TypedFields(tx, access, parity, r, s), e);
  }

  // ---- canonical payloads ----

  lemma {:induction false} PlainEncodesAlike(x: Item)
    ensures Length(Plain(x)) == Length(x)
    ensures Encodable(Plain(x)) <==> Encodable(x)
    ensures Encodable(x) ==> Encode(Plain(x)) == Encode(x)
    decreases x
  {
    hide IntBytes, PayloadLength, EncodeAll, PlainAll, AllEncodable, StringLength, EncodeString, Header, HeaderLength;
    if x.List? {
      PlainAllEncodeAlike(x.items);
    }
  }

  lemma {:induction false} PlainAllEncodeAlike(xs: seq<Item>)
    ensures PayloadLength(PlainAll(xs)) == PayloadLength(xs)
    ensures AllEncodable(PlainAll(xs)) <==> AllEncodable(xs)
    ensures AllEncodable(xs) ==> EncodeAll(PlainAll(xs)) == EncodeAll(xs)
    decreases xs
  {
    hide Encodable, Encode, Plain, Length;
    if xs != [] {
      PlainEncodesAlike(xs[0]);
      PlainAllEncodeAlike(xs[1..]);
      assert PlainAll(xs)[1..] == PlainAll(xs[1..]);
    }
  }

  /** A byte string that spells a number without a leading zero. */
  predicate MinimalInt(x: Item) {
    x.Str? && (x.raw == [] || x.raw[0] != 0)
  }

  /** Every number is spelled minimally, and recipient and calldata are byte strings. */
  predicate Canonically(f: seq<Item>)
    requires |f| == 12
  {
    && MinimalInt(f[0]) && MinimalInt(f[1]) && MinimalInt(f[2]) && MinimalInt(f[3]) && MinimalInt(f[4])
    && f[5].Str? && MinimalInt(f[6]) && f[7].Str?
    && MinimalInt(f[9]) && MinimalInt(f[10]) && MinimalInt(f[11])
  }

  lemma MinimalIntPlain(x: Item)
    requires MinimalInt(x)
    ensures Plain(Int(FromBE(x.raw))) == x
  {
    hide FromBE, IntBytes;
    MinimalIsIntBytes(x.raw);
  }

  lemma PlainIntMinimal(n: nat)
    ensures MinimalInt(Plain(Int(n)))
  {
    hide FromBE;
    IntBytesSpell(n);
  }

  function Canonized(f: seq<Item>): Transaction
    requires |f| == 12 && Canonically(f)
  {
    Transaction(FromBE(f[0].raw), FromBE(f[1].raw), FromBE(f[2].raw), FromBE(f[3].raw), FromBE(f[4].raw), f[5].raw,
                FromBE(f[6].raw), f[7].raw)
  }

  lemma CanonicalFields(f: seq<Item>)
    requires |f| == 12 && Canonically(f) && f[8] == List([])
    ensures PlainAll(SignedFields(Canonized(f), FromBE(f[9].raw), FromBE(f[10].raw), FromBE(f[11].raw))) == f
  {
    hide FromBE, IntBytes, PlainAll;
    var tx, g := Canonized(f), SignedFields(Canonized(f), FromBE(f[9].raw), FromBE(f[10].raw), FromBE(f[11].raw));
    PlainAllAt(g);
    forall i | i in {0, 1, 2, 3, 4, 6, 9, 10, 11}
      ensures Plain(Int(FromBE(f[i].raw))) == f[i]
    {
      MinimalIntPlain(f[i]);
    }
    assert g[9..] == [Int(FromBE(f[9].raw)), Int(FromBE(f[10].raw)), Int(FromBE(f[11].raw))];
    assert forall i :: 0 <= i < 9 ==> g[i] == UnsignedFields(tx)[i];
    PlainEmptyList(List([]));
    assert forall i :: 0 <= i < 12 ==> PlainAll(g)[i] == f[i];
  }

  lemma FieldsCanonical(tx: Transaction, parity: nat, r: nat, s: nat)
    ensures |PlainAll(SignedFields(tx, parity, r, s))| == 12
    ensures Canonically(PlainAll(SignedFields(tx, parity, r, s)))
  {
    hide FromBE, IntBytes, PlainAll, MinimalInt;
    var g := SignedFields(tx, parity, r, s);
    PlainAllAt(g);
    assert forall i :: 0 <= i < 9 ==> g[i] == UnsignedFields(tx)[i];
    assert g[9..] == [Int(parity), Int(r), Int(s)];
    assert g[9] == Int(parity) && g[10] == Int(r) && g[11] == Int(s);
    forall i | 0 <= i < 12 && g[i].Int?
      ensures MinimalInt(Plain(g[i]))
    {
      PlainIntMinimal(g[i].n);
    }
  }

  /**
   A payload that passes is the one canonical serialization of some transaction exactly when its numbers
   have no leading zero and no list stands where bytes belong; the gateway itself does not ask for that.
   */
  lemma PassingIsCanonicalExactly(raw: seq<Byte>, e: Expected)
    requires Verify(raw, e) == None
    ensures |Decode(raw[1..]).value.items| == 12
    ensures Canonically(Decode(raw[1..]).value.items)
            <==> exists tx, parity, r, s ::
                   Encodable(SignedItem(tx, parity, r, s)) && raw == Serialize(tx, parity, r, s)
  {
    hide FromBE, ToHex, IntBytes, Encode, Encodable, PlainAll, Verify, Canonically, SignedFields, Canonized, Decode;
    PassingDecodes(raw, e);
    var f := Decode(raw[1..]).value.items;
    SpellsTwelve(f, e);
    if Canonically(f) {
      CanonicalPayload(raw, f, e);
    }
    forall tx, parity, r, s | Encodable(SignedItem(tx, parity, r, s)) && raw == Serialize(tx, parity, r, s)
      ensures Canonically(f)
    {
      DecodePayload(SignedFields(tx, parity, r, s));
      FieldsCanonical(tx, parity, r, s);
    }
  }

  lemma CanonicalPayload(raw: seq<Byte>, f: seq<Item>, e: Expected)
    requires Spells(f, e) && Canonically(f) && Encodable(List(f)) && raw == [2] + Encode(List(f))
    ensures exists tx, parity, r, s :: Encodable(SignedItem(tx, parity, r, s)) && raw == Serialize(tx, parity, r, s)
  {
    hide FromBE, ToHex, IntBytes, Encode, Encodable, PlainAll, SignedFields, Canonized;
    CanonicalFields(f);
    var tx, parity, r, s := Canonized(f), FromBE(f[9].raw), FromBE(f[10].raw), FromBE(f[11].raw);
    hide Spells, Canonically;
    var x := SignedItem(tx, parity, r, s);
    assert Plain(x) == List(f);
    PlainEncodesAlike(x);
    assert Encodable(x) && raw == Serialize(tx, parity, r, s);
  }

  /** The signed fields with the nonce spelled as one zero byte. */
  function ZeroByteNonce(tx: Transaction, parity: nat, r: nat, s: nat): (f: seq<Item>)
    ensures |f| == 12
  {
    SignedFields(tx, parity, r, s)[1 := Str([0])]
  }

  lemma ZeroByteNonceReads(tx: Transaction, parity: nat, r: nat, s: nat, e: Expected)
    requires tx.nonce == 0
    ensures Spells(PlainAll(ZeroByteNonce(tx, parity, r, s)), e)
            <==> Spells(PlainAll(SignedFields(tx, parity, r, s)), e)
    ensures PlainAll(ZeroByteNonce(tx, parity, r, s)) != PlainAll(SignedFields(tx, parity, r, s))
  {
    hide FromBE, ToHex, IntBytes, PlainAll, SignedFields, Length, ReadBytes, Destination;
    var g, f := SignedFields(tx, parity, r, s), ZeroByteNonce(tx, parity, r, s);
    NonceField(tx, parity, r, s);
    ZeroByteIsZero();
    PlainAllAt(f);
    PlainAllAt(g);
    ReadIntOfInt(0);
    assert PlainAll(f)[1] == Str([0]) && PlainAll(g)[1] == Plain(Int(0)) == Str([]);
    assert forall i :: 0 <= i < 12 && i != 1 ==> PlainAll(f)[i] == PlainAll(g)[i];
  }

  lemma NonceField(tx: Transaction, parity: nat, r: nat, s: nat)
    ensures SignedFields(tx, parity, r, s)[1] == Int(tx.nonce)
  {
  }

  lemma ZeroByteNonceEncodable(tx: Transaction, parity: nat, r: nat, s: nat)
    requires tx.nonce == 0 && Encodable(SignedItem(tx, parity, r, s))
    ensures Encodable(List(ZeroByteNonce(tx, parity, r, s)))
  {
    hide FromBE, IntBytes, PayloadLength, AllEncodable, SignedFields, Length;
    var g, f := SignedFields(tx, parity, r, s), ZeroByteNonce(tx, parity, r, s);
    NonceField(tx, parity, r, s);
    ZeroByteIsZero();
    PayloadGrows(f, g);
    AllEncodableExactly(g);
    AllEncodableExactly(f);
  }

  /** The condition can fail: a zero nonce spelled as one zero byte passes as well, and is not canonical. */
  lemma ZeroNoncePassesTwice(tx: Transaction, parity: nat, r: nat, s: nat, e: Expected)
    requires Encodable(SignedItem(tx, parity, r, s)) && Repeats(tx, e) && tx.nonce == 0
    ensures Encodable(List(ZeroByteNonce(tx, parity, r, s)))
    ensures var raw := [2] + Encode(List(ZeroByteNonce(tx, parity, r, s)));
            && Verify(raw, e) == None && Verify(Serialize(tx, parity, r, s), e) == None
            && raw != Serialize(tx, parity, r, s)
  {
    hide FromBE, ToHex, IntBytes, Encode, Encodable, PlainAll, Verify, PayloadLength, AllEncodable, Spells,
         ZeroByteNonce;
    var g, f := SignedFields(tx, parity, r, s), ZeroByteNonce(tx, parity, r, s);
    assert TypedFields(tx, List([]), parity, r, s) == g;
    hide SignedFields, Repeats;
    TypedPayloadPassesExactly(tx, List([]), parity, r, s, e);
    EncodedFieldsPass(g, e);
    ZeroByteNonceEncodable(tx, parity, r, s);
    ZeroByteNonceReads(tx, parity, r, s, e);
    EncodedFieldsPass(f, e);
    DecodePayload(f);
    DecodePayload(g);
  }

  lemma ZeroByteIsZero()
    ensures FromBE([0]) == 0 && Plain(Int(0)) == Str([]) && Length(Int(0)) == 1 == Length(Str([0]))
    ensures Encodable(Str([0]))
  {
    FromOneByte([0]);
  }

  // ---- from request to wire ----

  function Digits(x: Byte): (s: string)
    ensures |s| == 2
  {
    [HexChar(x / 16), HexChar(x % 16)]
  }

  lemma ToHexStep(s: seq<Byte>)
    requires s != []
    ensures ToHex(s) == Digits(s[0]) + ToHex(s[1..])
  {
    hide HexChar;
  }

  lemma Regroup(x: string, y: string, z: string)
    ensures (x + y) + z == x + (y + z)
  {
  }

  lemma {:induction false} ToHexConcat(a: seq<Byte>, b: seq<Byte>)
    ensures ToHex(a + b) == ToHex(a) + ToHex(b)
    ensures |ToHex(a)| == 2 * |a|
  {
    hide Digits;
    if a == [] {
      assert a + b == b;
    } else {
      ToHexStep(a);
      ToHexStep(a + b);
      hide ToHex;
      ToHexConcat(a[1..], b);
      assert (a + b)[1..] == a[1..] + b;
      Regroup(Digits(a[0]), ToHex(a[1..]), ToHex(b));
    }
  }

  lemma ToHexInjective(a: seq<Byte>, b: seq<Byte>)
    requires ToHex(a) == ToHex(b)
    ensures a == b
  {
    hide ToHex, DecodeStrict;
    ToHexReadsBack(a);
    ToHexReadsBack(b);
  }

  /** The first ten characters of the calldata text are its first four bytes. */
  lemma SelectorBytes(data: seq<Byte>, selector: seq<Byte>)
    requires |selector| == 4 && FirstTen("0x" + ToHex(data)) == "0x" + ToHex(selector)
    ensures |data| >= 4 && data[..4] == selector
  {
    hide ToHex;
    ToHexConcat(selector, []);
    ToHexConcat(data, []);
    var head, tail := data[..4], data[4..];
    assert data == head + tail;
    ToHexConcat(head, tail);
    var text := "0x" + ToHex(data);
    assert text[..10][2..] == ToHex(head);
    assert ("0x" + ToHex(selector))[2..] == ToHex(selector);
    ToHexInjective(head, selector);
  }

  /** The wire fields of an execution transaction that the policy allows. */
  predicate Obeys(f: seq<Item>, p: Policy) {
    && |f| == 12
    && ReadInt(f[0]) == Some(p.chainId)
    && ReadInt(f[2]).Some? && ReadInt(f[3]).Some? && ReadInt(f[4]).Some?
    && ReadInt(f[2]).value <= ReadInt(f[3]).value && 0 < ReadInt(f[3]).value <= p.maxFee
    && 0 < ReadInt(f[4]).value <= p.maxGas
    && Destination(f[5]) == Some(Some(p.executor))
    && ReadInt(f[6]) == Some(0)
    && ReadBytes(f[7]).Some? && |ReadBytes(f[7]).value| >= 4
    && ReadBytes(f[7]).value[..4] in {p.startSelector, p.startPackedSelector}
    && f[8] == List([])
  }

  /** A payload that leaves the gateway for an admitted request obeys the policy in its own bytes. */
  lemma SignedExecutionObeysPolicy(q: Request, p: Policy, raw: seq<Byte>)
    requires ValidateExecution(q, p).Success? && Verify(raw, ValidateExecution(q, p).value) == None
    requires |p.startSelector| == 4 && |p.startPackedSelector| == 4
    ensures p.allowExecution && q.sender == Some(p.signer)
    ensures Decode(raw[1..]).Some? && Decode(raw[1..]).value.List? && Obeys(Decode(raw[1..]).value.items, p)
  {
    hide FromBE, ToHex, Decode, Encode, Encodable, FirstTen, DecodeSpaced, HexData, LowerText, ReadInt;
    var e := ValidateExecution(q, p).value;
    PassingDecodes(raw, e);
    hide Verify;
    var f := Decode(raw[1..]).value.items;
    var data := ReadBytes(f[7]).value;
    if FirstTen(e.data) == "0x" + ToHex(p.startSelector) {
      SelectorBytes(data, p.startSelector);
    } else {
      SelectorBytes(data, p.startPackedSelector);
    }
  }

  function TextBytes(s: string): seq<Byte> {
    if |s| < 2 then [] else match DecodeSpaced(s[2..]) case None => [] case Some(raw) => raw
  }

  lemma {:induction false} LowerDigitsDecode(s: string)
    requires |s| % 2 == 0 && forall i :: 0 <= i < |s| ==> IsLowerHexDigit(s[i])
    ensures DecodeSpaced(s).Some?
  {
    hide HexValue, IsLowerHexDigit, IsHexDigit, IsSpace, HexChar;
    if s != "" {
      LowerDigits(s[0], s[1]);
      LowerDigitsDecode(s[2..]);
      assert s == [s[0], s[1]] + s[2..];
      DecodePair(s[0], s[1], s[2..]);
    }
  }

  lemma CanonicalText(s: string)
    requires Canonical(s) && |s| % 2 == 0
    ensures "0x" + ToHex(TextBytes(s)) == s
  {
    hide ToHex, DecodeSpaced, IsLowerHexDigit;
    LowerDigitsDecode(s[2..]);
    CanonicalReadsBack(s[2..]);
    assert s == "0x" + s[2..];
  }

  /** The transaction that an admitted request asks for, to the executor at these bytes. */
  function Wanted(e: Expected, executor: seq<Byte>): Transaction {
    Transaction(e.chainId, e.nonce, e.priorityFee, e.maxFee, e.gas, executor, e.value, TextBytes(e.data))
  }

  lemma PassingIsPlainText(raw: seq<Byte>, e: Expected)
    requires Verify(raw, e) == None
    ensures Canonical(e.data)
  {
    hide FromBE, ToHex, Decode, Encode, Encodable, Canonical, Verify;
    PassingDecodes(raw, e);
    PrefixedHexCanonical(ReadBytes(Decode(raw[1..]).value.items[7]).value);
  }

  /**
   White space inside calldata is admitted with the request, but then no signed payload can repeat it:
   an admitted request can be answered exactly when its calldata is plain lower-case hex after lowering.
   */
  lemma AnswerableExactly(q: Request, p: Policy, executor: seq<Byte>)
    requires ValidateExecution(q, p).Success?
    requires executor != [] && p.executor == "0x" + ToHex(executor)
    requires Encodable(SignedItem(Wanted(ValidateExecution(q, p).value, executor), 0, 0, 0))
    ensures (exists raw :: Verify(raw, ValidateExecution(q, p).value) == None)
            <==> Canonical(ValidateExecution(q, p).value.data)
  {
    hide FromBE, ToHex, Decode, Encode, Encodable, FirstTen, DecodeSpaced, LowerText, ReadInt, Canonical, TextBytes;
    var e := ValidateExecution(q, p).value;
    assert e.data == LowerText(q.data) && |q.data| % 2 == 0 && e.to == Some(p.executor);
    hide ValidateExecution, ValidateCommon, HexData;
    LowerTextLength(q.data);
    if Canonical(e.data) {
      CanonicalText(e.data);
      var tx := Wanted(e, executor);
      assert TypedFields(tx, List([]), 0, 0, 0) == SignedFields(tx, 0, 0, 0);
      TypedPayloadPassesExactly(tx, List([]), 0, 0, 0, e);
      assert Verify(Serialize(tx, 0, 0, 0), e) == None;
    }
    hide Verify;
    forall raw | Verify(raw, e) == None
      ensures Canonical(e.data)
    {
      PassingIsPlainText(raw, e);
    }
  }

  /** A request to run this selector with two spaces as its only argument. */
  function SpacedRequest(p: Policy): Request {
    Request(p.chainId, Some(p.signer), Some(0), Some(1), Some(1), Some(1), Some(0),
        "0x" + ToHex(p.startSelector) + "  ",
            Some(p.executor), "0x" + ToHex(seq(32, i => 0)), Some(p.executor))
  }

  lemma {:induction false} TrailingSpacesDecode(s: seq<Byte>)
    ensures DecodeSpaced(ToHex(s) + "  ") == Some(s)
  {
    hide HexValue, HexChar, IsHexDigit, IsSpace, IsLowerHexDigit;
    if s == [] {
      assert ToHex(s) + "  " == "  ";
      TwoSpaces();
    } else {
      var a, b, rest := HexChar(s[0] / 16), HexChar(s[0] % 16), ToHex(s[1..]) + "  ";
      TrailingSpacesDecode(s[1..]);
      ByteDigits(s[0]);
      assert ToHex(s) + "  " == [a, b] + rest;
      DecodePair(a, b, rest);
      assert [s[0]] + s[1..] == s;
    }
  }

  lemma TwoSpaces()
    ensures DecodeSpaced("  ") == Some([])
  {
    assert "  "[1..] == " " && " "[1..] == "";
    assert DecodeSpaced(" ") == Some([]);
  }

  lemma SpacedIsHexData(selector: seq<Byte>)
    requires |selector| == 4
    ensures var text := "0x" + ToHex(selector) + "  ";
            && HexData(text) && LowerText(text) == text && FirstTen(text) == "0x" + ToHex(selector) && !Canonical(text)
  {
    hide DecodeSpaced, ToHex;
    var text := "0x" + ToHex(selector) + "  ";
    ToHexConcat(selector, []);
    TrailingSpacesDecode(selector);
    assert text[2..] == ToHex(selector) + "  ";
    ToHexIsLower(selector);
    forall i | 0 <= i < |text|
      ensures Lower(text[i]) == text[i]
    {
      assert 2 <= i < 10 ==> text[i] == ToHex(selector)[i - 2] && IsLowerHexDigit(ToHex(selector)[i - 2]);
    }
    LowerTextUnchanged(text);
    assert text[..10] == "0x" + ToHex(selector);
    assert text[10] == ' ' && !IsLowerHexDigit(text[10]);
  }

  /** Every policy with room for a transaction admits a request, calldata with white space, that no payload answers. */
  lemma SpacedRequestIsUnanswerable(p: Policy)
    requires p.allowExecution && p.maxGas > 0 && p.maxFee > 0 && |p.startSelector| == 4
    ensures ValidateExecution(SpacedRequest(p), p).Success?
    ensures forall raw :: Verify(raw, ValidateExecution(SpacedRequest(p), p).value) != None
  {
    hide DecodeSpaced, ToHex, LowerText, FirstTen, Canonical, Verify, Decode;
    var q := SpacedRequest(p);
    SpacedIsHexData(p.startSelector);
    var id: seq<Byte> := seq(32, i => 0);
    ToHexConcat(id, []);
    ToHexReadsBack(id);
    assert ("0x" + ToHex(id))[2..] == ToHex(id);
    var e := ValidateExecution(q, p).value;
    assert e.data == q.data;
    forall raw
      ensures Verify(raw, e) != None
    {
      if Verify(raw, e) == None {
        PassingIsPlainText(raw, e);
      }
    }
  }
}
