/** The BER subset: integers and nested lists, with booleans and strings that can be written but not read back. */
module Ber {
  import opened Bytes
  import opened LongCodec

  datatype Asn =
    | Integer(n: int)
    | Sequence(items: seq<Asn>)
    | Boolean(b: bool)
    | Text(s: bytes)

  /** `decode_next`: no further item, an item, or an exception naming the unknown type. */
  datatype Outcome = Nothing | Item(v: Asn) | Raised(ident: nat)

  datatype ItemsOutcome = Items(vs: seq<Asn>) | ItemsRaised(ident: nat)

  const LONGEST_LENGTH := 0x7f

  // ---- writing ----

  function LengthBytes(n: nat): bytes
    requires n > 0x7f ==> |Deflate(n, true)| <= LONGEST_LENGTH
  {
    if n > 0x7f then [(0x80 + |Deflate(n, true)|) as byte] + Deflate(n, true) else [n as byte]
  }

  predicate HasLength(s: bytes) {
    |s| > 0x7f ==> |Deflate(|s|, true)| <= LONGEST_LENGTH
  }

  function Tlv(ident: byte, s: bytes): bytes
    requires HasLength(s)
  {
    [ident] + LengthBytes(|s|) + s
  }

  /** Every length field fits the one byte that counts its own bytes; `byte_chr` raises for longer ones. */
  predicate Encodable(v: Asn)
    decreases v, 0
  {
    match v
    case Integer(n) => HasLength(Deflate(n, true))
    case Boolean(b) => true
    case Text(s) => HasLength(s)
    case Sequence(items) => EncodableAll(items) && HasLength(EncodingAll(items))
  }

  predicate EncodableAll(items: seq<Asn>)
    decreases items, 0
  {
    items == [] || (Encodable(items[0]) && EncodableAll(items[1..]))
  }

  function Encoding(v: Asn): bytes
    requires Encodable(v)
    decreases v, 1
  {
    match v
    case Integer(n) => Tlv(2, Deflate(n, true))
    case Boolean(b) => Tlv(1, if b then [255] else [0])
    case Text(s) => Tlv(4, s)
    case Sequence(items) => Tlv(0x30, EncodingAll(items))
  }

  function EncodingAll(items: seq<Asn>): bytes
    requires EncodableAll(items)
    decreases items, 1
  {
    if items == [] then [] else Encoding(items[0]) + EncodingAll(items[1..])
  }

  // ---- reading ----

  /** The bytes of a long identifier: seven bits each, the last one without the top bit. */
  function LongIdent(c: bytes, i: nat, ident: nat): (r: (nat, nat))
    requires i <= |c|
    ensures i <= r.1 <= |c|
    decreases |c| - i
  {
    if i == |c| then (ident, i)
    else
      var id := ident * 128 + c[i] % 128;
      if c[i] < 0x80 then (id, i + 1) else LongIdent(c, i + 1, id)
  }

  function Ident(c: bytes, i: nat): (r: (nat, nat))
    requires i < |c|
    ensures i < r.1 <= |c|
  {
    if c[i] % 32 == 31 then LongIdent(c, i + 1, 0) else (c[i], i + 1)
  }

  datatype Span = NoSpan(idx: nat) | Span(from: nat, to: nat)

  /** The extent of the content whose length field starts at `i`. */
  function Extent(c: bytes, i: nat): (r: Span)
    requires i < |c|
    ensures r.Span? ==> i < r.from <= r.to <= |c|
    ensures r.NoSpan? ==> i < r.idx <= |c|
  {
    if c[i] < 0x80 then
      if i + 1 + c[i] > |c| then NoSpan(i + 1) else Span(i + 1, i + 1 + c[i])
    else
      var t := c[i] - 0x80;
      if i + 1 + t > |c| then NoSpan(i + 1)
      else
        var size := Inflate(c[i + 1..i + 1 + t], true);
        if i + 1 + t + size > |c| then NoSpan(i + 1 + t) else Span(i + 1 + t, i + 1 + t + size)
  }

  /** One item from position `i`, and the position after it. */
  function DecodeAt(c: bytes, i: nat): (r: (Outcome, nat))
    requires i <= |c|
    ensures i <= r.1 <= |c|
    ensures r.0.Item? ==> i < r.1
    decreases |c|, |c| - i, 0
  {
    if i == |c| then (Nothing, i)
    else
      var (ident, j) := Ident(c, i);
      if j == |c| then (Nothing, j)
      else
        match Extent(c, j)
        case NoSpan(k) => (Nothing, k)
        case Span(from, to) => (DecodeContent(ident, c[from..to]), to)
  }

  /** The content of one item, by its identifier. */
  function DecodeContent(ident: nat, data: bytes): (x: Outcome)
    ensures x != Nothing
    decreases |data|, |data|, 2
  {
    if ident == 0x30 then
      match DecodeItems(data, 0)
      case Items(vs) => Item(Sequence(vs))
      case ItemsRaised(id) => Raised(id)
    else if ident == 2 then Item(Integer(Inflate(data, false)))
    else Raised(ident)
  }

  /** All items from position `i` on; an item that does not fit silently ends the list. */
  function DecodeItems(c: bytes, i: nat): ItemsOutcome
    requires i <= |c|
    decreases |c|, |c| - i, 1
  {
    var (x, j) := DecodeAt(c, i);
    match x
    case Nothing => Items([])
    case Raised(id) => ItemsRaised(id)
    case Item(v) =>
      match DecodeItems(c, j)
      case Items(vs) => Items([v] + vs)
      case ItemsRaised(id) => ItemsRaised(id)
  }

  // ---- round trip ----

  /** Only integers and lists of them, of any depth, have a reader. */
  predicate Readable(v: Asn) {
    match v
    case Integer(_) => true
    case Sequence(items) => ReadableAll(items)
    case _ => false
  }

  predicate ReadableAll(items: seq<Asn>) {
    items == [] || (Readable(items[0]) && ReadableAll(items[1..]))
  }

  lemma ShortExtent(c: bytes, i: nat, n: nat)
    requires n <= 0x7f && i + 1 + n <= |c| && c[i] == n
    ensures Extent(c, i) == Span(i + 1, i + 1 + n)
  {
  }

  lemma LongExtent(c: bytes, i: nat, n: nat, d: bytes)
    requires 0 < |d| <= LONGEST_LENGTH && Inflate(d, true) == n
    requires i + 1 + |d| + n <= |c| && c[i] == 0x80 + |d| && c[i + 1..i + 1 + |d|] == d
    ensures Extent(c, i) == Span(i + 1 + |d|, i + 1 + |d| + n)
  {
  }

  lemma ExtentOfLength(pre: bytes, s: bytes, post: bytes)
    requires HasLength(s)
    ensures var len := LengthBytes(|s|);
            var c, i := pre + len + s + post, |pre|;
            i < |c| && Extent(c, i) == Span(i + |len|, i + |len| + |s|)
  {
    var len := LengthBytes(|s|);
    var c, i := pre + len + s + post, |pre|;
    assert c[i] == len[0];
    if |s| > 0x7f {
      var d := Deflate(|s|, true);
      InflateDeflate(|s|);
      assert len == [(0x80 + |d|) as byte] + d;
      assert c[i + 1..i + 1 + |d|] == d;
      LongExtent(c, i, |s|, d);
    } else {
      assert len == [|s| as byte];
      ShortExtent(c, i, |s|);
    }
  }

  lemma DecodeTlv(pre: bytes, ident: byte, s: bytes, post: bytes)
    requires HasLength(s) && ident % 32 != 31
    ensures DecodeAt(pre + Tlv(ident, s) + post, |pre|) == (DecodeContent(ident, s), |pre| + |Tlv(ident, s)|)
  {
    var len := LengthBytes(|s|);
    var c, i := pre + Tlv(ident, s) + post, |pre|;
    assert c == (pre + [ident]) + len + s + post;
    ExtentOfLength(pre + [ident], s, post);
    assert c[i] == ident;
    assert Ident(c, i) == (ident as nat, i + 1);
    assert c[i + 1 + |len|..i + 1 + |len| + |s|] == s;
  }

  /**
   * Decoding an encoded value, wherever it stands, gives the value back, with the cursor at the end of its content,
   * exactly when the value is built from integers and lists; anything else raises.
   */
  lemma {:induction false} RoundTrip(pre: bytes, v: Asn, post: bytes)
    requires Encodable(v)
    ensures var (x, j) := DecodeAt(pre + Encoding(v) + post, |pre|);
            && (Readable(v) <==> x == Item(v) && j == |pre| + |Encoding(v)|)
            && (!Readable(v) <==> x.Raised?)
    decreases v, 1
  {
    match v
    case Integer(n) =>
      DecodeTlv(pre, 2, Deflate(n, true), post);
      InflateDeflate(n);
    case Boolean(b) =>
      DecodeTlv(pre, 1, if b then [255] else [0], post);
    case Text(s) =>
      DecodeTlv(pre, 4, s, post);
    case Sequence(items) =>
      DecodeTlv(pre, 0x30, EncodingAll(items), post);
      RoundTripAll([], items);
      assert [] + EncodingAll(items) == EncodingAll(items);
  }

  lemma {:induction false} RoundTripAll(pre: bytes, items: seq<Asn>)
    requires EncodableAll(items)
    ensures var x := DecodeItems(pre + EncodingAll(items), |pre|);
            && (ReadableAll(items) ==> x == Items(items))
            && (!ReadableAll(items) ==> x.ItemsRaised?)
    decreases items, 0
  {
    if items == [] {
    } else {
      var e, post := Encoding(items[0]), EncodingAll(items[1..]);
      assert pre + EncodingAll(items) == pre + e + post;
      RoundTrip(pre, items[0], post);
      RoundTripAll(pre + e, items[1..]);
      assert [items[0]] + items[1..] == items;
    }
  }

  /** A length needs more than 127 bytes of its own only from 2^1015 on, so all that there can be is encodable. */
  lemma ShortIsEncodable(s: bytes)
    requires |s| < Pow256(126)
    ensures HasLength(s) && Encodable(Text(s))
  {
    var n := |s|;
    var t := [0] + Word(n, 126);
    WordValue(n, 126);
    ValueConcat([0], Word(n, 126));
    ValueOne(0);
    assert Inflate(t, false) == n;
    hide Inflate, Deflate, Word, Value, Pow256;
    DeflateIsLeast(n, t);
  }

  lemma BooleanIsEncodable(b: bool)
    ensures Encodable(Boolean(b))
  {
  }

  // ---- what is there, and what is not ----

  /** A long identifier: its seven-bit digits, all but the last marked as having a successor. */
  function Digits128(digits: seq<byte>): nat {
    if digits == [] then 0 else Digits128(digits[..|digits| - 1]) * 128 + digits[|digits| - 1] % 128
  }

  /** `c` has those digits at `i`: the first ones with the top bit, the last one without. */
  predicate HasDigits(c: bytes, i: nat, n: nat) {
    0 < n && i + n <= |c| && c[i + n - 1] < 0x80 && forall j :: i <= j < i + n - 1 ==> c[j] >= 0x80
  }

  lemma {:induction false} LongIdentOf(c: bytes, i: nat, k: nat, n: nat)
    requires k < n && HasDigits(c, i, n)
    ensures LongIdent(c, i + k, Digits128(c[i..i + k])) == (Digits128(c[i..i + n]), i + n)
    decreases n - k
  {
    assert c[i..i + k + 1][..k] == c[i..i + k];
    if k < n - 1 {
      LongIdentOf(c, i, k + 1, n);
    }
  }

  /** Identifiers above 30 are read digit by digit, and raise, since nothing of that kind can be decoded. */
  lemma LongIdentRaises(c: bytes, i: nat, n: nat)
    requires i < |c| && c[i] % 32 == 31 && HasDigits(c, i + 1, n)
    ensures Ident(c, i) == (Digits128(c[i + 1..i + 1 + n]), i + 1 + n)
  {
    assert c[i + 1..i + 1] == [];
    LongIdentOf(c, i + 1, 0, n);
  }

  /** Identifier, length and content, the length in one byte or as a count of bytes and the number in so many. */
  lemma TlvLayout(ident: byte, s: bytes)
    requires HasLength(s)
    ensures var t, n := Tlv(ident, s), |s|;
            && |t| >= 2 + n && t[0] == ident && t[|t| - n..] == s
            && (n <= 127 ==> |t| == 2 + n && t[1] == n)
            && (n > 127 ==> t[1] > 128 && |t| == 2 + (t[1] - 128) + n && Value(t[2..|t| - n]) == n)
  {
    var n := |s|;
    var len := LengthBytes(n);
    assert Tlv(ident, s)[1..1 + |len|] == len;
    if n > 0x7f {
      var d := Deflate(n, true);
      InflateDeflate(n);
      assert Tlv(ident, s)[2..2 + |d|] == d;
    }
  }

  /** The identifiers of the four types. */
  lemma Identifiers(v: Asn)
    requires Encodable(v)
    ensures Encoding(v)[..1] ==
            (match v
             case Boolean(_) => [0x01]
             case Integer(_) => [0x02]
             case Text(_) => [0x04]
             case Sequence(_) => [0x30])
    ensures v.Boolean? ==> Encoding(v)[1..] == [1, if v.b then 0xff else 0x00]
  {
  }

  lemma FrontOf(c: bytes, j: nat, len: bytes, s: bytes, m: nat)
    requires j + m == |c| && 0 < |len| <= m <= |len + s| && c[j..] == (len + s)[..m]
    ensures c[j + 1..j + |len|] == len[1..]
  {
    forall i | 1 <= i < |len|
      ensures c[j + i] == len[i]
    {
      assert c[j..][i] == (len + s)[i];
    }
  }

  lemma ExtentCut(c: bytes, j: nat, s: bytes, m: nat)
    requires HasLength(s) && 0 < m < |LengthBytes(|s|) + s| && |c| == j + m && c[j..] == (LengthBytes(|s|) + s)[..m]
    ensures Extent(c, j).NoSpan?
  {
    hide LengthBytes;
    var len := LengthBytes(|s|);
    if |s| > 0x7f {
      LongLength(|s|);
      assert c[j] == c[j..][0] == len[0];
      if m >= |len| {
        FrontOf(c, j, len, s, m);
      }
    } else {
      ShortLength(|s|);
      assert c[j] == c[j..][0] == len[0];
    }
  }

  lemma ShortLength(n: nat)
    requires n <= 0x7f
    ensures LengthBytes(n) == [n as byte]
  {
  }

  lemma LongLength(n: nat)
    requires n > 0x7f && |Deflate(n, true)| <= LONGEST_LENGTH
    ensures var len := LengthBytes(n);
            2 <= |len| <= 0x80 && len[0] == 0x80 + (|len| - 1) && Inflate(len[1..], true) == n
  {
    InflateDeflate(n);
  }

  /** What has been cut off anywhere is not an item. */
  lemma TruncatedIsNothing(pre: bytes, ident: byte, s: bytes, k: nat)
    requires HasLength(s) && ident % 32 != 31 && k < |Tlv(ident, s)|
    ensures DecodeAt(pre + Tlv(ident, s)[..k], |pre|).0 == Nothing
  {
    hide DecodeAt, Extent, Tlv;
    TlvIs(ident, s);
    TruncatedBody(pre, ident, s, k);
  }

  lemma TlvIs(ident: byte, s: bytes)
    requires HasLength(s)
    ensures Tlv(ident, s) == [ident] + (LengthBytes(|s|) + s)
  {
    hide LengthBytes;
  }

  lemma TruncatedBody(pre: bytes, ident: byte, s: bytes, k: nat)
    requires HasLength(s) && ident % 32 != 31 && k < 1 + |LengthBytes(|s|) + s|
    ensures DecodeAt(pre + ([ident] + (LengthBytes(|s|) + s))[..k], |pre|).0 == Nothing
  {
    hide LengthBytes, DecodeAt, Extent;
    var body := LengthBytes(|s|) + s;
    var c := pre + ([ident] + body)[..k];
    CutBehind(pre, ident, body, k);
    if k >= 2 {
      ExtentCut(c, |pre| + 1, s, k - 1);
    }
    NoItem(c, |pre|);
  }

  lemma CutBehind(pre: bytes, ident: byte, body: bytes, k: nat)
    requires k < 1 + |body|
    ensures var c, i := pre + ([ident] + body)[..k], |pre|;
            && |c| == i + k && (k > 0 ==> c[i] == ident) && (k > 1 ==> c[i + 1..] == body[..k - 1])
  {
  }

  lemma NoItem(c: bytes, i: nat)
    requires i <= |c| && (i < |c| ==> c[i] % 32 != 31)
    requires i + 1 >= |c| || Extent(c, i + 1).NoSpan?
    ensures DecodeAt(c, i).0 == Nothing
  {
    hide Extent, DecodeContent, DecodeItems;
  }

  lemma InThreeParts(c: bytes, ident: bytes, length: bytes, s: bytes)
    ensures c + ident + length + s == c + (ident + length + s)
  {
  }

  // ---- the codec object ----

  class BER {
    var content: bytes
    var idx: nat

    constructor (content: bytes)
      ensures this.content == content && idx == 0
    {
      this.content, idx := content, 0;
    }

    method DecodeNext() returns (x: Outcome)
      requires idx <= |content|
      modifies this`idx
      ensures (x, idx) == DecodeAt(content, old(idx))
      decreases |content|, |content| - idx, 0
    {
      if idx >= |content| {
        return Nothing;
      }
      var ident := DecodeIdent();
      if idx >= |content| {
        return Nothing;
      }
      var span := DecodeLength();
      if span.NoSpan? {
        return Nothing;
      }
      var data := content[span.from..span.to];
      if ident == 0x30 {
        var xs := DecodeSequence(data);
        match xs
        case Items(vs) => x := Item(Sequence(vs));
        case ItemsRaised(id) => x := Raised(id);
      } else if ident == 2 {
        var n := InflateLong(data, false);
        x := Item(Integer(n));
      } else {
        x := Raised(ident);
      }
    }

    method DecodeIdent() returns (ident: nat)
      requires idx < |content|
      modifies this`idx
      ensures (ident, idx) == Ident(content, old(idx))
    {
      ident := content[idx];
      idx := idx + 1;
      if ident % 32 == 31 {
        ident := 0;
        while idx < |content|
          invariant old(idx) + 1 <= idx <= |content|
          invariant LongIdent(content, idx, ident) == LongIdent(content, old(idx) + 1, 0)
        {
          var t := content[idx];
          idx := idx + 1;
          ident := ident * 128 + t % 128;
          if t < 0x80 {
            return;
          }
        }
      }
    }

    method DecodeLength() returns (span: Span)
      requires idx < |content|
      modifies this`idx
      ensures span == Extent(content, old(idx))
      ensures idx == if span.Span? then span.to else span.idx
    {
      var size: nat := content[idx];
      idx := idx + 1;
      if size >= 0x80 {
        var t := size - 0x80;
        if idx + t > |content| {
          return NoSpan(idx);
        }
        size := InflateLong(content[idx..idx + t], true);
        idx := idx + t;
      }
      if idx + size > |content| {
        return NoSpan(idx);
      }
      span := Span(idx, idx + size);
      idx := idx + size;
    }

    static method DecodeSequence(data: bytes) returns (xs: ItemsOutcome)
      ensures xs == DecodeItems(data, 0)
      decreases |data|, |data|, 1
    {
      var out := [];
      var ber := new BER(data);
      while true
        invariant fresh(ber) && ber.content == data && ber.idx <= |data|
        invariant DecodeItems(data, 0) == Prepend(out, DecodeItems(data, ber.idx))
        decreases |data| - ber.idx
      {
        var x := ber.DecodeNext();
        match x
        case Nothing =>
          return Items(out);
        case Raised(id) =>
          return ItemsRaised(id);
        case Item(v) =>
          PrependTwice(out, v, DecodeItems(data, ber.idx));
          out := out + [v];
      }
    }

    method EncodeTlv(ident: byte, s: bytes)
      requires HasLength(s)
      modifies this`content
      ensures content == old(content) + Tlv(ident, s)
    {
      content := content + [ident];
      if |s| > 0x7f {
        var lenstr := DeflateLong(|s|, true);
        content := content + ([(0x80 + |lenstr|) as byte] + lenstr);
      } else {
        content := content + [|s| as byte];
      }
      content := content + s;
      InThreeParts(old(content), [ident], LengthBytes(|s|), s);
    }

    method Encode(v: Asn)
      requires Encodable(v)
      modifies this`content
      ensures content == old(content) + Encoding(v)
      decreases v, 1
    {
      match v
      case Integer(n) =>
        var s := DeflateLong(n, true);
        EncodeTlv(2, s);
      case Boolean(b) =>
        if b {
          EncodeTlv(1, [255]);
        } else {
          EncodeTlv(1, [0]);
        }
      case Text(s) =>
        EncodeTlv(4, s);
      case Sequence(items) =>
        var s := EncodeSequence(items);
        EncodeTlv(0x30, s);
    }

    static method EncodeSequence(items: seq<Asn>) returns (s: bytes)
      requires EncodableAll(items)
      ensures s == EncodingAll(items)
      decreases items, 0
    {
      var ber := new BER([]);
      assert items[0..] == items;
      for i := 0 to |items|
        invariant fresh(ber)
        invariant EncodableAll(items[i..]) && ber.content + EncodingAll(items[i..]) == EncodingAll(items)
      {
        EncodingAllStep(ber.content, items, i);
        ber.Encode(items[i]);
      }
      s := ber.content;
    }
  }

  lemma EncodingAllStep(done: bytes, items: seq<Asn>, i: nat)
    requires i < |items| && EncodableAll(items[i..])
    ensures Encodable(items[i]) && EncodableAll(items[i + 1..])
    ensures done + EncodingAll(items[i..]) == (done + Encoding(items[i])) + EncodingAll(items[i + 1..])
  {
    assert items[i..][1..] == items[i + 1..];
  }

  function Prepend(vs: seq<Asn>, x: ItemsOutcome): ItemsOutcome {
    match x
    case Items(ws) => Items(vs + ws)
    case ItemsRaised(id) => ItemsRaised(id)
  }

  lemma PrependTwice(vs: seq<Asn>, v: Asn, x: ItemsOutcome)
    ensures Prepend(vs + [v], x) == Prepend(vs, Prepend([v], x))
  {
    if x.Items? {
      assert vs + [v] + x.vs == vs + ([v] + x.vs);
    }
  }
}
