/**
 RLP (Appendix B of the Ethereum Yellow Paper) as the planner encodes it and as the signer gateway's
 strict decoder reads it.
 */
module Rlp {
  import opened Bytes

  datatype Item = Int(n: nat) | Str(raw: seq<Byte>) | List(items: seq<Item>)

  /** _int_bytes: the fewest bytes that spell n, none for zero. */
  function IntBytes(n: nat): seq<Byte> {
    if n == 0 then [] else IntBytes(n / 256) + [n % 256]
  }

  /** What is left of an item once integers are written as bytes. */
  function Plain(x: Item): Item {
    match x
    case Int(n) => Str(IntBytes(n))
    case Str(raw) => x
    case List(items) => List(PlainAll(items))
  }

  function PlainAll(xs: seq<Item>): seq<Item> {
    if xs == [] then [] else [Plain(xs[0])] + PlainAll(xs[1..])
  }

  // ---- lengths ----

  function HeaderLength(n: nat): nat {
    if n <= 55 then 1 else 1 + |IntBytes(n)|
  }

  function StringLength(raw: seq<Byte>): nat {
    if |raw| == 1 && raw[0] < 0x80 then 1 else HeaderLength(|raw|) + |raw|
  }

  function Length(x: Item): nat {
    match x
    case Int(n) => StringLength(IntBytes(n))
    case Str(raw) => StringLength(raw)
    case List(items) => HeaderLength(PayloadLength(items)) + PayloadLength(items)
  }

  function PayloadLength(xs: seq<Item>): nat {
    if xs == [] then 0 else Length(xs[0]) + PayloadLength(xs[1..])
  }

  const LIMIT: nat := 0x1_0000_0000_0000_0000

  /** Every payload is shorter than 2^64 bytes, the bound of the format. */
  predicate Encodable(x: Item) {
    match x
    case Int(n) => |IntBytes(n)| < LIMIT
    case Str(raw) => |raw| < LIMIT
    case List(items) => PayloadLength(items) < LIMIT && AllEncodable(items)
  }

  predicate AllEncodable(xs: seq<Item>) {
    xs == [] || (Encodable(xs[0]) && AllEncodable(xs[1..]))
  }

  lemma {:induction false} AllEncodableExactly(xs: seq<Item>)
    ensures AllEncodable(xs) <==> forall i :: 0 <= i < |xs| ==> Encodable(xs[i])
  {
    hide Encodable;
    if xs != [] {
      AllEncodableExactly(xs[1..]);
      assert forall i :: 0 < i < |xs| ==> xs[i] == xs[1..][i - 1];
      assert forall i :: 0 <= i < |xs| - 1 ==> xs[1..][i] == xs[i + 1];
    }
  }

  // ---- encoding ----

  lemma {:induction false} IntBytesLength(n: nat, k: nat)
    requires n < Pow256(k)
    ensures |IntBytes(n)| <= k
  {
    if n > 0 {
      IntBytesLength(n / 256, k - 1);
    }
  }

  lemma LimitIsEightBytes()
    ensures Pow256(8) == LIMIT
  {
  }

  function Header(base: nat, n: nat): seq<Byte>
    requires base == 0x80 || base == 0xC0
    requires n < LIMIT
  {
    if n <= 55 then [base + n]
    else
      LimitIsEightBytes();
      IntBytesLength(n, 8);
      [base + 55 + |IntBytes(n)|] + IntBytes(n)
  }

  function EncodeString(raw: seq<Byte>): seq<Byte>
    requires |raw| < LIMIT
  {
    if |raw| == 1 && raw[0] < 0x80 then raw else Header(0x80, |raw|) + raw
  }

  /** _rlp. */
  function Encode(x: Item): (s: seq<Byte>)
    requires Encodable(x)
    ensures |s| == Length(x)
  {
    match x
    case Int(n) => EncodeString(IntBytes(n))
    case Str(raw) => EncodeString(raw)
    case List(items) => Header(0xC0, PayloadLength(items)) + EncodeAll(items)
  }

  function EncodeAll(xs: seq<Item>): (s: seq<Byte>)
    requires AllEncodable(xs)
    ensures |s| == PayloadLength(xs)
  {
    if xs == [] then [] else Encode(xs[0]) + EncodeAll(xs[1..])
  }

  // ---- strict decoding ----

  /** What the first bytes announce: a string or a list, where its payload starts, how long it is. */
  datatype Head = Head(list: bool, at: nat, size: nat)

  function LongHead(list: bool, s: seq<Byte>, k: nat): Option<Head> {
    if |s| < 1 + k || k == 0 || s[1] == 0 || FromBE(s[1..1 + k]) <= 55 then None
    else Some(Head(list, 1 + k, FromBE(s[1..1 + k])))
  }

  function ReadHead(s: seq<Byte>): Option<Head> {
    if s == [] then None
    else if s[0] < 0x80 then Some(Head(false, 0, 1))
    else if s[0] <= 0xB7 then Some(Head(false, 1, s[0] - 0x80))
    else if s[0] <= 0xBF then LongHead(false, s, s[0] - 0xB7)
    else if s[0] <= 0xF7 then Some(Head(true, 1, s[0] - 0xC0))
    else LongHead(true, s, s[0] - 0xF7)
  }

  /** One item from the front. Longer spellings of what has a shorter one are refused. */
  function DecodeItem(s: seq<Byte>): (r: Option<(Item, seq<Byte>)>)
    ensures r.Some? ==> |r.value.1| < |s|
    decreases |s|, 0
  {
    match ReadHead(s)
    case None => None
    case Some(h) =>
      if h.at + h.size > |s| || h.at + h.size == 0 then None
      else
        var payload, rest := s[h.at..h.at + h.size], s[h.at + h.size..];
        if !h.list then
          if h.at == 1 && h.size == 1 && payload[0] < 0x80 then None else Some((Str(payload), rest))
        else if h.at == 0 then None
        else
          match DecodeAll(payload)
          case None => None
          case Some(items) => Some((List(items), rest))
  }

  function DecodeAll(s: seq<Byte>): Option<seq<Item>>
    decreases |s|, 1
  {
    if s == [] then Some([])
    else
      match DecodeItem(s)
      case None => None
      case Some(first) =>
        match DecodeAll(first.1)
        case None => None
        case Some(more) => Some([first.0] + more)
  }

  /** The whole string is one item. */
  function Decode(s: seq<Byte>): Option<Item> {
    match DecodeItem(s)
    case None => None
    case Some(first) => if first.1 == [] then Some(first.0) else None
  }

  // ---- integers ----

  lemma {:induction false} IntBytesSpell(n: nat)
    ensures FromBE(IntBytes(n)) == n
    ensures n > 0 ==> IntBytes(n) != [] && IntBytes(n)[0] != 0
  {
    if n > 0 {
      IntBytesSpell(n / 256);
      var s := IntBytes(n);
      assert s[..|s| - 1] == IntBytes(n / 256);
      if n / 256 == 0 {
        assert s == [n % 256];
      }
    }
  }

  /** Bytes without a leading zero are the fewest for the number they spell. */
  lemma {:induction false} MinimalIsIntBytes(s: seq<Byte>)
    requires s == [] || s[0] != 0
    ensures IntBytes(FromBE(s)) == s
  {
    if s != [] {
      var t, d := s[..|s| - 1], s[|s| - 1];
      NonzeroSpelling(s);
      assert FromBE(s) == FromBE(t) * 256 + d && s == t + [d];
      hide FromBE, IntBytes;
      if t != [] {
        assert t[0] == s[0];
      }
      MinimalIsIntBytes(t);
      IntBytesStep(FromBE(t), d);
    }
  }

  lemma IntBytesStep(m: nat, d: Byte)
    requires 256 * m + d > 0
    ensures IntBytes(m * 256 + d) == IntBytes(m) + [d]
  {
    assert (m * 256 + d) / 256 == m && (m * 256 + d) % 256 == d;
  }

  lemma {:induction false} NonzeroSpelling(s: seq<Byte>)
    requires s != [] && s[0] != 0
    ensures FromBE(s) > 0
  {
    if |s| > 1 {
      assert s[..|s| - 1][0] == s[0];
      NonzeroSpelling(s[..|s| - 1]);
    }
  }

  /** The fewest bytes: one byte less is too narrow, and this width spells n in full. */
  lemma {:induction false} IntBytesAreFewest(n: nat)
    requires n > 0
    ensures var k := |IntBytes(n)|;
            && k > 0 && Pow256(k - 1) <= n < Pow256(k)
            && IntBytes(n) == ToBE(n, k)
  {
    if n >= 256 {
      IntBytesAreFewest(n / 256);
    }
  }

  // ---- the format, literally ----

  /** The byte string that a list's items make, one after the other. */
  lemma {:induction false} ItemsInOrder(xs: seq<Item>)
    requires AllEncodable(xs)
    ensures xs == [] ==> EncodeAll(xs) == []
    ensures xs != [] ==> Encodable(xs[|xs| - 1]) && AllEncodable(xs[..|xs| - 1])
    ensures xs != [] ==> EncodeAll(xs) == EncodeAll(xs[..|xs| - 1]) + Encode(xs[|xs| - 1])
  {
    hide Encodable, Encode, Length;
    if |xs| == 1 {
      assert xs[1..] == [] && xs[..0] == [];
      assert EncodeAll(xs) == Encode(xs[0]) + EncodeAll(xs[1..]) == Encode(xs[0]);
      assert EncodeAll(xs[..0]) == [];
    } else if |xs| > 1 {
      var front, tail := xs[..|xs| - 1], xs[1..];
      ItemsInOrder(tail);
      assert tail[..|tail| - 1] == front[1..] && front[0] == xs[0];
      assert EncodeAll(front) == Encode(xs[0]) + EncodeAll(front[1..]);
      assert EncodeAll(xs) == Encode(xs[0]) + EncodeAll(tail);
    }
  }

  /**
   The encoding by cases of Appendix B: a lone byte below 128 stands for itself, up to 55 bytes follow
   one byte that holds their number, and more follow their number in the fewest bytes.
   */
  lemma StringByLength(raw: seq<Byte>)
    requires |raw| < LIMIT
    ensures |raw| == 1 && raw[0] < 128 ==> Encode(Str(raw)) == raw
    ensures |raw| <= 55 && !(|raw| == 1 && raw[0] < 128) ==> Encode(Str(raw)) == [128 + |raw|] + raw
    ensures |raw| > 55 ==>
              exists k: nat :: 1 <= k <= 8 && Pow256(k - 1) <= |raw| < Pow256(k)
                          && Encode(Str(raw)) == [183 + k] + ToBE(|raw|, k) + raw
  {
    hide IntBytes, ToBE, Pow256;
    if |raw| > 55 {
      LimitIsEightBytes();
      IntBytesLength(|raw|, 8);
      IntBytesAreFewest(|raw|);
      var k := |IntBytes(|raw|)|;
      assert Encode(Str(raw)) == [183 + k] + ToBE(|raw|, k) + raw;
    }
  }

  /** The same for a list, from 192 on and from 247 on. */
  lemma ListByLength(xs: seq<Item>)
    requires Encodable(List(xs))
    ensures var body := EncodeAll(xs);
            && (|body| <= 55 ==> Encode(List(xs)) == [192 + |body|] + body)
            && (|body| > 55 ==>
                  exists k: nat :: 1 <= k <= 8 && Pow256(k - 1) <= |body| < Pow256(k)
                              && Encode(List(xs)) == [247 + k] + ToBE(|body|, k) + body)
  {
    hide IntBytes, ToBE, Pow256, EncodeAll, PayloadLength, AllEncodable;
    var body := EncodeAll(xs);
    if |body| > 55 {
      LimitIsEightBytes();
      IntBytesLength(|body|, 8);
      IntBytesAreFewest(|body|);
      var k := |IntBytes(|body|)|;
      assert Encode(List(xs)) == [247 + k] + ToBE(|body|, k) + body;
    }
  }

  /** A number is the string of its big-endian bytes, with no byte to spare; zero is the empty string. */
  lemma IntByWidth(n: nat)
    requires Encodable(Int(n))
    ensures Encode(Int(0)) == [128]
    ensures n > 0 ==>
              exists k: nat :: k > 0 && Pow256(k - 1) <= n < Pow256(k) && |ToBE(n, k)| < LIMIT
                          && Encode(Int(n)) == Encode(Str(ToBE(n, k)))
  {
    hide ToBE, Pow256;
    if n > 0 {
      IntBytesAreFewest(n);
      hide IntBytes;
      var k := |IntBytes(n)|;
      assert Encode(Int(n)) == Encode(Str(ToBE(n, k)));
    }
  }

  // ---- decoding undoes encoding ----

  lemma HeaderReads(base: nat, n: nat, tail: seq<Byte>)
    requires (base == 0x80 || base == 0xC0) && n < LIMIT
    ensures ReadHead(Header(base, n) + tail) == Some(Head(base == 0xC0, |Header(base, n)|, n))
  {
    hide IntBytes, FromBE;
    if n > 55 {
      LimitIsEightBytes();
      IntBytesLength(n, 8);
      IntBytesSpell(n);
      var k := |IntBytes(n)|;
      var s := Header(base, n) + tail;
      assert s[1..1 + k] == IntBytes(n);
      assert s[1] == IntBytes(n)[0];
    }
  }

  lemma CutPayload(head: seq<Byte>, payload: seq<Byte>, rest: seq<Byte>)
    ensures var s := head + payload + rest;
            s[|head|..|head| + |payload|] == payload && s[|head| + |payload|..] == rest
  {
  }

  lemma DecodeEncodedString(raw: seq<Byte>, rest: seq<Byte>)
    requires |raw| < LIMIT
    ensures DecodeItem(EncodeString(raw) + rest) == Some((Str(raw), rest))
  {
    hide DecodeAll, Header;
    if |raw| == 1 && raw[0] < 0x80 {
      assert (raw + rest)[0..1] == raw && (raw + rest)[1..] == rest;
    } else {
      var head := Header(0x80, |raw|);
      assert EncodeString(raw) + rest == head + (raw + rest);
      assert head + (raw + rest) == head + raw + rest;
      HeaderReads(0x80, |raw|, raw + rest);
      CutPayload(head, raw, rest);
      HeaderSize(0x80, |raw|);
    }
  }

  lemma HeaderSize(base: nat, n: nat)
    requires (base == 0x80 || base == 0xC0) && n < LIMIT
    ensures |Header(base, n)| == HeaderLength(n) >= 1
    ensures n <= 55 ==> |Header(base, n)| == 1
  {
    hide IntBytes;
  }

  /** Every encodable item is read back, whatever follows it. */
  lemma {:induction false} DecodeEncode(x: Item, rest: seq<Byte>)
    requires Encodable(x)
    ensures DecodeItem(Encode(x) + rest) == Some((Plain(x), rest))
    decreases x
  {
    hide DecodeAll, Header, EncodeString, IntBytes, PayloadLength, EncodeAll, PlainAll, ReadHead;
    match x {
      case Int(n) => DecodeEncodedString(IntBytes(n), rest);
      case Str(raw) => DecodeEncodedString(raw, rest);
      case List(items) =>
        var payload := EncodeAll(items);
        var head := Header(0xC0, |payload|);
        assert Encode(x) + rest == head + (payload + rest);
        assert head + (payload + rest) == head + payload + rest;
        HeaderReads(0xC0, |payload|, payload + rest);
        HeaderSize(0xC0, |payload|);
        CutPayload(head, payload, rest);
        DecodeEncodeAll(items);
    }
  }

  lemma {:induction false} DecodeEncodeAll(xs: seq<Item>)
    requires AllEncodable(xs)
    ensures DecodeAll(EncodeAll(xs)) == Some(PlainAll(xs))
    decreases xs
  {
    hide DecodeItem, Encode, Plain, Length;
    if xs != [] {
      DecodeEncode(xs[0], EncodeAll(xs[1..]));
      DecodeEncodeAll(xs[1..]);
      EncodeNonempty(xs[0]);
    }
  }

  lemma EncodeNonempty(x: Item)
    requires Encodable(x)
    ensures Encode(x) != []
  {
    hide IntBytes, PayloadLength, EncodeAll;
    match x {
      case Int(n) => if |IntBytes(n)| < LIMIT { HeaderSize(0x80, |IntBytes(n)|); }
      case Str(raw) => HeaderSize(0x80, |raw|);
      case List(items) => HeaderSize(0xC0, PayloadLength(items));
    }
  }

  /** Prefix-free: no encoding is a proper prefix of another, and equal encodings come from equal items. */
  lemma PrefixFree(x: Item, y: Item, s: seq<Byte>, t: seq<Byte>)
    requires Encodable(x) && Encodable(y) && Encode(x) + s == Encode(y) + t
    ensures Plain(x) == Plain(y) && s == t
  {
    hide DecodeItem, Encode, Plain;
    DecodeEncode(x, s);
    DecodeEncode(y, t);
  }

  // ---- encoding undoes decoding ----

  lemma HeadIsHeader(s: seq<Byte>)
    requires ReadHead(s).Some? && ReadHead(s).value.at > 0
    ensures var h := ReadHead(s).value;
            && h.at <= |s| && h.size < LIMIT
            && s[..h.at] == Header(if h.list then 0xC0 else 0x80, h.size)
  {
    hide FromBE, IntBytes;
    var h := ReadHead(s).value;
    if h.at > 1 {
      var bytes := s[1..h.at];
      assert bytes[0] == s[1];
      LimitIsEightBytes();
      ToFromBE(bytes);
      Pow256Monotone(|bytes|, 8);
      MinimalIsIntBytes(bytes);
      assert s[..h.at] == [s[0]] + bytes;
    } else {
      assert s[..1] == [s[0]];
    }
  }

  /** What the decoder accepts is exactly an encoding: nothing has two spellings. */
  lemma {:induction false} EncodeDecode(s: seq<Byte>)
    requires DecodeItem(s).Some?
    ensures Encodable(DecodeItem(s).value.0)
    ensures s == Encode(DecodeItem(s).value.0) + DecodeItem(s).value.1
    decreases |s|, 0
  {
    hide FromBE, IntBytes, Header, PayloadLength, ReadHead;
    var h := ReadHead(s).value;
    var payload, rest := s[h.at..h.at + h.size], s[h.at + h.size..];
    if h.at == 0 {
      OneByteHead(s);
      assert s == payload + rest;
    } else {
      HeadIsHeader(s);
      assert s == s[..h.at] + payload + rest;
      if h.list {
        EncodeDecodeAll(payload);
      } else if h.at > 1 {
        LongStringHead(s);
      }
    }
  }

  lemma OneByteHead(s: seq<Byte>)
    requires ReadHead(s).Some? && ReadHead(s).value.at == 0
    ensures s != [] && s[0] < 0x80 && ReadHead(s).value == Head(false, 0, 1)
  {
    hide FromBE;
  }

  lemma LongStringHead(s: seq<Byte>)
    requires ReadHead(s).Some? && ReadHead(s).value.at > 1
    ensures ReadHead(s).value.size > 55
  {
    hide FromBE;
  }

  lemma {:induction false} EncodeDecodeAll(s: seq<Byte>)
    requires DecodeAll(s).Some?
    ensures AllEncodable(DecodeAll(s).value)
    ensures EncodeAll(DecodeAll(s).value) == s
    decreases |s|, 1
  {
    hide DecodeItem, Encode, Encodable;
    if s != [] {
      EncodeDecode(s);
      var first := DecodeItem(s).value;
      EncodeDecodeAll(first.1);
      var xs := DecodeAll(s).value;
      assert xs == [first.0] + DecodeAll(first.1).value;
      assert xs[1..] == DecodeAll(first.1).value;
    }
  }
}
