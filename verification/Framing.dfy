/** The binary packet form: what one message looks like on the wire, and how a stream is cut back into messages. */
module Framing {
  import opened Basics
  import opened Bytes
  import opened LongCodec

  // ---- block ciphers with chaining state ----

  type BlockStep = (bytes, bytes) -> (bytes, bytes)

  /** A running encryptor or decryptor: one step takes the chaining state and a block to the next state and a block. */
  datatype Cipher = NoCipher | Cipher(step: BlockStep, chain: bytes)

  /** Each block goes to a block of the same size. */
  ghost predicate KeepsBlocks(step: BlockStep, size: nat) {
    forall chain, b :: |b| == size ==> |step(chain, b).1| == size
  }

  /** `dec` undoes `enc` block by block and moves through the same chaining states. */
  ghost predicate Inverts(enc: BlockStep, dec: BlockStep, size: nat) {
    forall chain, b :: |b| == size ==> dec(chain, enc(chain, b).1) == (enc(chain, b).0, b)
  }

  /** `update` on a whole number of blocks: the new chaining state and the output. */
  function Update(step: BlockStep, size: nat, chain: bytes, data: bytes): (bytes, bytes)
    requires size > 0
    decreases |data|
  {
    if |data| < size then (chain, [])
    else
      var (chain1, b) := step(chain, data[..size]);
      var (chain2, rest) := Update(step, size, chain1, data[size..]);
      (chain2, b + rest)
  }

  lemma {:induction false} UpdateLength(step: BlockStep, size: nat, chain: bytes, data: bytes)
    requires size > 0 && KeepsBlocks(step, size) && |data| % size == 0
    ensures |Update(step, size, chain, data).1| == |data|
    decreases |data|
  {
    if |data| >= size {
      MultipleMinusBlock(|data|, size);
      UpdateLength(step, size, step(chain, data[..size]).0, data[size..]);
    } else {
      SmallMultiple(|data|, size);
    }
  }

  lemma SmallMultiple(n: nat, size: nat)
    requires size > 0 && n < size && n % size == 0
    ensures n == 0
  {
  }

  lemma MultipleMinusBlock(n: nat, size: nat)
    requires 0 < size <= n
    ensures (n - size) % size == n % size
  {
    assert n == size * (n / size) + n % size;
    assert n - size == size * (n / size - 1) + n % size;
    RemainderUnique(n - size, n / size - 1, n % size, size);
  }

  /** Updating in two calls, cut at a block boundary, is the same as updating once. */
  lemma {:induction false} UpdateTwice(step: BlockStep, size: nat, chain: bytes, a: bytes, b: bytes)
    requires size > 0 && |a| % size == 0
    ensures var (chain1, x) := Update(step, size, chain, a);
            var (chain2, y) := Update(step, size, chain1, b);
            Update(step, size, chain, a + b) == (chain2, x + y)
    decreases |a|
  {
    if |a| < size {
      SmallMultiple(|a|, size);
      assert a + b == b;
      assert [] + Update(step, size, chain, b).1 == Update(step, size, chain, b).1;
    } else {
      MultipleMinusBlock(|a|, size);
      assert (a + b)[..size] == a[..size] && (a + b)[size..] == a[size..] + b;
      var chain1 := step(chain, a[..size]).0;
      UpdateTwice(step, size, chain1, a[size..], b);
      var head := step(chain, a[..size]).1;
      var (chain2, x) := Update(step, size, chain1, a[size..]);
      var (_, y) := Update(step, size, chain2, b);
      assert head + (x + y) == (head + x) + y;
    }
  }

  lemma {:induction false} UpdateInverts(enc: BlockStep, dec: BlockStep, size: nat, chain: bytes, data: bytes)
    requires size > 0 && |data| % size == 0
    requires KeepsBlocks(enc, size) && Inverts(enc, dec, size)
    ensures var (chain', wire) := Update(enc, size, chain, data);
            Update(dec, size, chain, wire) == (chain', data)
    decreases |data|
  {
    if |data| < size {
      SmallMultiple(|data|, size);
    } else {
      MultipleMinusBlock(|data|, size);
      var (chain1, b) := enc(chain, data[..size]);
      var (chain2, rest) := Update(enc, size, chain1, data[size..]);
      UpdateInverts(enc, dec, size, chain1, data[size..]);
      assert (b + rest)[..size] == b && (b + rest)[size..] == rest;
      assert dec(chain, b) == (chain1, data[..size]);
      assert data[..size] + data[size..] == data;
    }
  }

  // ---- one direction of a connection ----

  /** Cipher, block size, MAC and sequence number of one direction; the MAC engine takes the key and the message. */
  datatype Direction = Direction(
    cipher: Cipher, blockSize: nat, macEngine: (bytes, bytes) -> bytes, macSize: nat, macKey: bytes, seqno: nat)

  ghost predicate Usable(d: Direction) {
    && d.blockSize >= 8
    && d.seqno < WORD
    && (d.cipher.Cipher? ==> KeepsBlocks(d.cipher.step, d.blockSize))
  }

  function Crypt(d: Direction, data: bytes): (r: (Direction, bytes))
    requires d.blockSize > 0
    ensures r.0 == d.(cipher := r.0.cipher)
    ensures d.cipher.NoCipher? ==> r == (d, data)
    ensures d.cipher.Cipher? ==>
              r.0.cipher == Cipher(d.cipher.step, Update(d.cipher.step, d.blockSize, d.cipher.chain, data).0)
    ensures d.cipher.Cipher? ==> r.1 == Update(d.cipher.step, d.blockSize, d.cipher.chain, data).1
  {
    match d.cipher
    case NoCipher => (d, data)
    case Cipher(step, chain) =>
      var (chain', out) := Update(step, d.blockSize, chain, data);
      (d.(cipher := Cipher(step, chain')), out)
  }

  /** Python's `s[i:j]` for a non-negative `i`. */
  function Slice(s: bytes, i: nat, j: int): (r: bytes)
    ensures i <= j <= |s| ==> r == s[i..j]
    ensures i <= |s| <= j ==> r == s[i..]
    ensures j < 0 && i <= |s| + j ==> r == s[i..|s| + j]
    ensures (j < 0 && |s| + j < i) || (0 <= j < i) || |s| < i ==> r == []
  {
    var to := if j < 0 then j + |s| else if j > |s| then |s| else j;
    if i < to then s[i..to] else []
  }

  function Mac(d: Direction, packet: bytes): bytes
    requires d.seqno < WORD
  {
    Slice(d.macEngine(d.macKey, Pack32(d.seqno) + packet), 0, d.macSize)
  }

  function NextSeqno(d: Direction): Direction {
    d.(seqno := (d.seqno + 1) % WORD)
  }

  // ---- writing ----

  function Padding(n: nat, blockSize: nat): (p: nat)
    requires blockSize > 0
  {
    3 + blockSize - (n + 8) % blockSize
  }

  /** The length and padding fields hold the values they are given; packing raises otherwise. */
  predicate Frameable(payload: bytes, blockSize: nat)
    requires blockSize > 0
  {
    Padding(|payload|, blockSize) <= 255 && |payload| + Padding(|payload|, blockSize) + 1 < WORD
  }

  /** Nothing else keeps a payload from being framed. */
  lemma FrameableIffFieldsFit(payload: bytes, blockSize: nat)
    requires blockSize > 0
    ensures var padding := Padding(|payload|, blockSize);
            Frameable(payload, blockSize) <==> padding < 0x100 && |payload| + padding + 1 < 0x1_0000_0000
  {
  }

  function Plain(payload: bytes, pad: bytes): bytes
    requires |pad| <= 255 && |payload| + |pad| + 1 < WORD
  {
    Pack32(|payload| + |pad| + 1) + [|pad| as byte] + payload + pad
  }

  /** A plain packet encrypted and authenticated, and the state the sender is left in. */
  function Seal(d: Direction, packet: bytes): (Direction, bytes)
    requires d.blockSize > 0 && d.seqno < WORD
  {
    var (d', out) := Crypt(d, packet);
    (NextSeqno(d'), if d.cipher.Cipher? then out + Mac(d, packet) else out)
  }

  /** One message on the wire. */
  function Frame(d: Direction, payload: bytes, pad: bytes): (Direction, bytes)
    requires d.blockSize > 0 && d.seqno < WORD
    requires |pad| <= 255 && |payload| + |pad| + 1 < WORD
  {
    Seal(d, Plain(payload, pad))
  }

  // ---- reading ----

  datatype Fault = Blocking | BadMac

  /** A parsed packet with the raw size that is accounted for it, a fault, or too few bytes. */
  datatype Parsed = Incomplete | Malformed(fault: Fault) | Packet(payload: bytes, raw: nat, d: Direction, rest: bytes)

  function Parse(d: Direction, s: bytes): Parsed
    requires Usable(d)
  {
    var bs := d.blockSize;
    if |s| < bs then Incomplete
    else
      var (d1, header) := Crypt(d, s[..bs]);
      HeaderSize(d, s[..bs]);
      var size := Unpack32(header[..4]);
      if (size - (bs - 4)) % bs != 0 then Malformed(Blocking)
      else
        BodyIsBlocks(size, bs);
        if |s| < 4 + size + d.macSize then Incomplete
        else ParseBody(d, d1, header, s[bs..4 + size], s[4 + size..4 + size + d.macSize], s[4 + size + d.macSize..])
  }

  /** Second half: `d` is the state before the packet, `d1` after its first block `header`. */
  function ParseBody(d: Direction, d1: Direction, header: bytes, body: bytes, mac: bytes, rest: bytes): Parsed
    requires Usable(d) && |header| >= 8 && |header| + |body| - 4 < WORD
    requires d1.blockSize > 0
  {
    var (d2, tail) := Crypt(d1, body);
    var size := |header| + |body| - 4;
    var packet := header[4..] + tail;
    if d.macSize > 0 && Mac(d, Pack32(size) + packet) != mac then Malformed(BadMac)
    else Packet(Slice(packet, 1, size - packet[0]), size + d.macSize + 4, NextSeqno(d2), rest)
  }

  lemma CryptLength(d: Direction, data: bytes)
    requires Usable(d) && |data| % d.blockSize == 0
    ensures |Crypt(d, data).1| == |data|
    ensures Usable(Crypt(d, data).0)
  {
    if d.cipher.Cipher? {
      UpdateLength(d.cipher.step, d.blockSize, d.cipher.chain, data);
    }
  }

  lemma HeaderSize(d: Direction, block: bytes)
    requires Usable(d) && |block| == d.blockSize
    ensures |Crypt(d, block).1| == d.blockSize
    ensures Usable(Crypt(d, block).0)
  {
    RemainderUnique(|block|, 1, 0, d.blockSize);
    CryptLength(d, block);
  }

  /** Since the size field is unsigned, the part after the first block is never negative. */
  lemma BodyIsBlocks(size: nat, bs: nat)
    requires bs >= 8 && (size - (bs - 4)) % bs == 0
    ensures size >= bs - 4
  {
    var body := size - (bs - 4);
    if body < 0 {
      RemainderUnique(body, -1, body + bs, bs);
    }
  }

  // ---- the two ends agree ----

  /** Every padding fits its field and is at least four bytes, for all payload lengths, exactly up to block size 252. */
  lemma PaddingRange(bs: nat)
    requires bs > 0
    ensures bs <= 252 <==> forall n: nat :: 4 <= Padding(n, bs) <= 255
    ensures forall n: nat :: (n + Padding(n, bs) + 5) % bs == 0
  {
    forall n: nat
      ensures 4 <= Padding(n, bs) <= bs + 3
      ensures (n + Padding(n, bs) + 5) % bs == 0
    {
      var q := (n + 8) / bs;
      assert n + 8 == bs * q + (n + 8) % bs;
      assert n + Padding(n, bs) + 5 == bs * (q + 1);
      RemainderUnique(n + Padding(n, bs) + 5, q + 1, 0, bs);
    }
    if bs > 252 {
      var n := 2 * bs - 8;
      RemainderUnique(n + 8, 2, 0, bs);
      assert Padding(n, bs) == bs + 3;
    }
  }

  /** Receiver state `i` follows sender state `o`: same sizes, keys and counters, and a decryptor in step. */
  ghost predicate Mirrors(o: Direction, i: Direction) {
    && Usable(o) && Usable(i)
    && i == o.(cipher := i.cipher)
    && (o.cipher.NoCipher? ==> i.cipher.NoCipher? && o.macSize == 0)
    && (o.cipher.Cipher? ==>
          && i.cipher.Cipher? && i.cipher.chain == o.cipher.chain
          && Inverts(o.cipher.step, i.cipher.step, o.blockSize)
          && forall m :: |o.macEngine(o.macKey, m)| >= o.macSize)
  }

  lemma CryptMirrors(o: Direction, i: Direction, data: bytes)
    requires Mirrors(o, i) && |data| % o.blockSize == 0
    ensures Mirrors(Crypt(o, data).0, Crypt(i, Crypt(o, data).1).0)
    ensures Crypt(i, Crypt(o, data).1).1 == data
  {
    CryptLength(o, data);
    if o.cipher.Cipher? {
      UpdateInverts(o.cipher.step, i.cipher.step, o.blockSize, o.cipher.chain, data);
    }
  }

  /** Encrypting a packet in one call is encrypting its first block and then the others. */
  lemma CryptTwice(d: Direction, a: bytes, b: bytes)
    requires d.blockSize > 0 && |a| % d.blockSize == 0
    ensures var (d1, x) := Crypt(d, a);
            var (d2, y) := Crypt(d1, b);
            Crypt(d, a + b) == (d2, x + y)
  {
    if d.cipher.Cipher? {
      UpdateTwice(d.cipher.step, d.blockSize, d.cipher.chain, a, b);
    }
  }

  lemma PlainParts(payload: bytes, pad: bytes, bs: nat)
    requires bs >= 8 && Frameable(payload, bs) && |pad| == Padding(|payload|, bs)
    ensures var p := Plain(payload, pad);
            && |p| == |payload| + |pad| + 5
            && |p| >= bs && |p| % bs == 0 && |p[bs..]| % bs == 0 && |p[..bs]| % bs == 0
            && p[..4] == Pack32(|p| - 4)
            && p[4..][0] == |pad|
            && Slice(p[4..], 1, |p| - 4 - p[4..][0]) == payload
  {
    var p := Plain(payload, pad);
    PaddingRange(bs);
    assert |p| == |payload| + Padding(|payload|, bs) + 5;
    if |p| < bs {
      SmallMultiple(|p|, bs);
    }
    MultipleMinusBlock(|p|, bs);
    RemainderUnique(bs, 1, 0, bs);
    assert p[4..] == [|pad| as byte] + payload + pad;
  }

  lemma FourParts(x: bytes, y: bytes, mac: bytes, rest: bytes)
    ensures var s, i := x + (y + mac + rest), |x| + |y|;
            s[..|x|] == x && s[|x|..i] == y && s[i..i + |mac|] == mac && s[i + |mac|..] == rest
  {
  }

  /** The receiver cuts a stream into first block, other blocks, MAC and rest by the size in the first block. */
  lemma ParseCut(d: Direction, first: bytes, body: bytes, mac: bytes, rest: bytes)
    requires Usable(d) && |first| == d.blockSize && |mac| == d.macSize
    requires |Crypt(d, first).1| == d.blockSize && |body| % d.blockSize == 0
    requires Unpack32(Crypt(d, first).1[..4]) == |first| + |body| - 4
    ensures Parse(d, first + (body + mac + rest)) == ParseBody(d, Crypt(d, first).0, Crypt(d, first).1, body, mac, rest)
  {
    FourParts(first, body, mac, rest);
  }

  lemma ParseCuts(d: Direction, x: bytes, y: bytes, mac: bytes, rest: bytes)
    requires Usable(d) && |x| == d.blockSize && |y| % d.blockSize == 0 && |mac| == d.macSize
    requires |x| + |y| - 4 < WORD
    requires |Crypt(d, x).1| == d.blockSize && Crypt(d, x).1[..4] == Pack32(|x| + |y| - 4)
    ensures Parse(d, x + y + mac + rest) == ParseBody(d, Crypt(d, x).0, Crypt(d, x).1, y, mac, rest)
  {
    Pow256Four();
    WordValue(|x| + |y| - 4, 4);
    ParseCut(d, x, y, mac, rest);
    assert x + y + mac + rest == x + (y + mac + rest);
  }

  /** Sealed as a whole by the sender, a plain packet is cut and opened in two parts by the receiver. */
  lemma ParseSealed(o: Direction, i: Direction, p: bytes, rest: bytes)
    requires Mirrors(o, i) && |p| >= o.blockSize >= 8 && |p| - 4 < WORD && p[..4] == Pack32(|p| - 4)
    requires |p[..o.blockSize]| % o.blockSize == 0 && |p[o.blockSize..]| % o.blockSize == 0
    ensures var (o2, sealed) := Crypt(o, p);
            var q := Parse(i, sealed + Tag(o, p) + rest);
            && q.Packet? && q.payload == Slice(p[4..], 1, |p| - 4 - p[4..][0]) && q.raw == |p| + i.macSize
            && q.rest == rest
            && Mirrors(NextSeqno(o2), q.d)
  {
    var bs := o.blockSize;
    var (o1, x) := Crypt(o, p[..bs]);
    var y := Crypt(o1, p[bs..]).1;
    FrameInTwo(o, i, p);
    TagMirrors(o, i, p);
    HeaderOfBlock(p, bs);
    ParseCuts(i, x, y, Tag(o, p), rest);
    BodyParses(i, Crypt(i, x).0, p, y, Tag(o, p), rest);
  }

  /** A framed payload parses back to itself, whatever follows it, and the two ends stay in step. */
  lemma ParseFrame(o: Direction, i: Direction, payload: bytes, pad: bytes, rest: bytes)
    requires Mirrors(o, i) && Frameable(payload, o.blockSize) && |pad| == Padding(|payload|, o.blockSize)
    ensures var (o', wire) := Frame(o, payload, pad);
            var p := Parse(i, wire + rest);
            && p.Packet? && p.payload == payload && p.rest == rest && p.raw == |wire|
            && Mirrors(o', p.d)
  {
    var p := Plain(payload, pad);
    PlainParts(payload, pad, o.blockSize);
    ParseSealed(o, i, p, rest);
    TagMirrors(o, i, p);
    CryptLength(o, p);
    FrameParts(o, payload, pad, Crypt(o, p).1, Crypt(o, p).0);
  }

  function Tag(o: Direction, p: bytes): bytes
    requires o.seqno < WORD
  {
    if o.cipher.Cipher? then Mac(o, p) else []
  }

  lemma TagMirrors(o: Direction, i: Direction, p: bytes)
    requires Mirrors(o, i)
    ensures |Tag(o, p)| == i.macSize && (i.macSize > 0 ==> Tag(o, p) == Mac(i, p))
  {
  }

  lemma HeaderOfBlock(p: bytes, bs: nat)
    requires 4 <= bs <= |p|
    ensures p[..bs][..4] == p[..4]
  {
  }

  lemma FrameParts(o: Direction, payload: bytes, pad: bytes, sealed: bytes, o2: Direction)
    requires o.blockSize > 0 && o.seqno < WORD && |pad| <= 255 && |payload| + |pad| + 1 < WORD
    requires Crypt(o, Plain(payload, pad)) == (o2, sealed)
    ensures Frame(o, payload, pad) == (NextSeqno(o2), sealed + Tag(o, Plain(payload, pad)))
  {
    assert sealed + [] == sealed;
  }

  /** Both ends pass over the packet block by block and agree on every intermediate state. */
  lemma FrameInTwo(o: Direction, i: Direction, p: bytes)
    requires Mirrors(o, i) && |p| >= o.blockSize
    requires |p[..o.blockSize]| % o.blockSize == 0 && |p[o.blockSize..]| % o.blockSize == 0
    ensures var bs := o.blockSize;
            var (o1, x) := Crypt(o, p[..bs]);
            var (o2, y) := Crypt(o1, p[bs..]);
            var (i1, a) := Crypt(i, x);
            && |x| == bs && |y| == |p| - bs && a == p[..bs]
            && Crypt(o, p) == (o2, x + y)
            && Crypt(i1, y).1 == p[bs..]
            && Mirrors(o2, Crypt(i1, y).0)
  {
    var bs := o.blockSize;
    var a, b := p[..bs], p[bs..];
    assert p == a + b;
    CryptTwice(o, a, b);
    CryptLength(o, a);
    CryptMirrors(o, i, a);
    var (o1, x) := Crypt(o, a);
    CryptLength(o1, b);
    CryptMirrors(o1, Crypt(i, x).0, b);
  }

  lemma BodyParses(d: Direction, d1: Direction, p: bytes, y: bytes, mac: bytes, rest: bytes)
    requires Usable(d) && d1.blockSize == d.blockSize && d.blockSize <= |p| == d.blockSize + |y| && |p| - 4 < WORD
    requires p[..4] == Pack32(|p| - 4)
    requires Crypt(d1, y).1 == p[d.blockSize..]
    requires d.macSize > 0 ==> mac == Mac(d, p)
    ensures ParseBody(d, d1, p[..d.blockSize], y, mac, rest) ==
            Packet(Slice(p[4..], 1, |p| - 4 - p[4..][0]), |p| + d.macSize, NextSeqno(Crypt(d1, y).0), rest)
  {
    var bs := d.blockSize;
    assert p[..bs][4..] + p[bs..] == p[4..];
    assert Pack32(|p| - 4) + p[4..] == p;
  }

  // ---- what is accepted, and what a frame is made of ----

  /** `s` begins with `k` bytes of whole blocks that decrypt to a length field for them, and the MAC bytes are there. */
  predicate Whole(i: Direction, s: bytes, k: nat)
    requires Usable(i)
  {
    && i.blockSize <= k && k % i.blockSize == 0 && k + i.macSize <= |s| && k - 4 < WORD
    && |Crypt(i, s[..k]).1| == k && Value(Crypt(i, s[..k]).1[..4]) == k - 4
  }

  /** The bytes behind those blocks are the MAC of the sequence number and the decrypted packet. */
  predicate Authentic(i: Direction, s: bytes, k: nat)
    requires Usable(i) && k + i.macSize <= |s|
  {
    var tag := i.macEngine(i.macKey, Word(i.seqno, 4) + Crypt(i, s[..k]).1);
    i.macSize == 0 || s[k..k + i.macSize] == if |tag| <= i.macSize then tag else tag[..i.macSize]
  }

  lemma DecryptedInTwo(i: Direction, s: bytes, k: nat)
    requires Usable(i) && i.blockSize <= k <= |s| && k % i.blockSize == 0
    ensures var bs := i.blockSize;
            var (d1, header) := Crypt(i, s[..bs]);
            var (d2, tail) := Crypt(d1, s[bs..k]);
            Crypt(i, s[..k]) == (d2, header + tail) && |header| == bs && |tail| == k - bs
  {
    var bs := i.blockSize;
    assert s[..k] == s[..bs] + s[bs..k];
    RemainderUnique(bs, 1, 0, bs);
    HeaderSize(i, s[..bs]);
    MultipleMinusBlock(k, bs);
    CryptTwice(i, s[..bs], s[bs..k]);
    CryptLength(Crypt(i, s[..bs]).0, s[bs..k]);
  }

  lemma LengthField(plain: bytes, k: nat)
    requires |plain| == k && 4 <= k && k - 4 < WORD && Value(plain[..4]) == k - 4
    ensures Pack32(k - 4) == plain[..4] && Unpack32(plain[..4]) == k - 4
  {
    Pow256Four();
    WordValue(k - 4, 4);
    ValueInjective(Word(k - 4, 4), plain[..4]);
  }

  /** A packet that is all there is handed over if its MAC is right, and refused as such if not. */
  lemma ParseWhole(i: Direction, s: bytes, k: nat)
    requires Usable(i) && Whole(i, s, k)
    ensures var (d, plain) := Crypt(i, s[..k]);
            Parse(i, s) ==
            if !Authentic(i, s, k) then Malformed(BadMac)
            else Packet(Slice(plain[4..], 1, k - 4 - plain[4]), k + i.macSize, d.(seqno := (i.seqno + 1) % WORD),
                        s[k + i.macSize..])
  {
    hide Slice, ParseBody, Parse, Authentic;
    var bs, m := i.blockSize, k + i.macSize;
    DecryptedInTwo(i, s, k);
    var header := Crypt(i, s[..bs]).1;
    var plain := Crypt(i, s[..k]).1;
    assert header[..4] == plain[..4];
    LengthField(plain, k);
    assert s == s[..bs] + (s[bs..k] + s[k..m] + s[m..]);
    MultipleMinusBlock(k, bs);
    ParseCut(i, s[..bs], s[bs..k], s[k..m], s[m..]);
    BodyOfWhole(i, s, k);
  }

  lemma BodyOfWhole(i: Direction, s: bytes, k: nat)
    requires Usable(i) && Whole(i, s, k)
    ensures var (d1, header) := Crypt(i, s[..i.blockSize]);
            var (d, plain) := Crypt(i, s[..k]);
            |header| == i.blockSize &&
            ParseBody(i, d1, header, s[i.blockSize..k], s[k..k + i.macSize], s[k + i.macSize..]) ==
            if !Authentic(i, s, k) then Malformed(BadMac)
            else Packet(Slice(plain[4..], 1, k - 4 - plain[4]), k + i.macSize, d.(seqno := (i.seqno + 1) % WORD),
                        s[k + i.macSize..])
  {
    hide Slice;
    DecryptedInTwo(i, s, k);
    var (d1, header) := Crypt(i, s[..i.blockSize]);
    var tail := Crypt(d1, s[i.blockSize..k]).1;
    var plain := header + tail;
    LengthField(plain, k);
    assert plain[4..] == header[4..] + tail && plain[4..][0] == plain[4];
    assert Pack32(k - 4) + plain[4..] == plain;
    MacIsCut(i, plain);
  }

  lemma MacIsCut(i: Direction, plain: bytes)
    requires i.seqno < WORD
    ensures var tag := i.macEngine(i.macKey, Word(i.seqno, 4) + plain);
            Mac(i, plain) == if |tag| <= i.macSize then tag else tag[..i.macSize]
  {
  }

  /** Nothing else is handed over, and nothing else is refused for its MAC. */
  lemma {:induction false} OnlyWholePacketsCome(i: Direction, s: bytes)
    requires Usable(i)
    ensures Parse(i, s).Packet? <==> exists k: nat :: Whole(i, s, k) && Authentic(i, s, k)
    ensures Parse(i, s) == Malformed(BadMac) <==> exists k: nat :: Whole(i, s, k) && !Authentic(i, s, k)
  {
    forall k: nat | Whole(i, s, k)
      ensures Parse(i, s).Packet? <==> Authentic(i, s, k)
      ensures Parse(i, s) == Malformed(BadMac) <==> !Authentic(i, s, k)
    {
      ParseWhole(i, s, k);
    }
    if Parse(i, s).Packet? || Parse(i, s) == Malformed(BadMac) {
      WholeWhenParsed(i, s);
    }
  }

  lemma WholeWhenParsed(i: Direction, s: bytes)
    requires Usable(i) && (Parse(i, s).Packet? || Parse(i, s) == Malformed(BadMac))
    ensures exists k: nat :: Whole(i, s, k)
  {
    hide ParseBody;
    var bs := i.blockSize;
    HeaderSize(i, s[..bs]);
    var header := Crypt(i, s[..bs]).1;
    var size := Unpack32(header[..4]);
    BodyIsBlocks(size, bs);
    var k := size + 4;
    assert k % bs == 0 by {
      MultipleMinusBlock(k, bs);
    }
    DecryptedInTwo(i, s, k);
    assert Crypt(i, s[..k]).1[..4] == header[..4];
    assert Whole(i, s, k);
  }

  /** The length of the first block is refused exactly when it does not come out at a block boundary. */
  lemma BlockingIsExact(i: Direction, s: bytes)
    requires Usable(i)
    ensures Parse(i, s) == Malformed(Blocking) <==>
              |s| >= i.blockSize
              && |Crypt(i, s[..i.blockSize]).1| == i.blockSize
              && (Value(Crypt(i, s[..i.blockSize]).1[..4]) + 4) % i.blockSize != 0
  {
    hide Mac, Slice, Crypt;
    if |s| >= i.blockSize {
      HeaderSize(i, s[..i.blockSize]);
      BlockEnd(Unpack32(Crypt(i, s[..i.blockSize]).1[..4]), i.blockSize);
    }
  }

  lemma BlockEnd(size: int, bs: int)
    requires bs >= 8
    ensures (size - (bs - 4)) % bs == (size + 4) % bs
  {
    RemainderUnique(size - (bs - 4), (size + 4) / bs - 1, (size + 4) % bs, bs);
  }

  /**
   * The layout of section 6 of RFC 4253: length, padding length, payload and padding, in whole blocks; encrypted as one
   * string, with the MAC of sequence number and plain packet behind it.
   */
  lemma FrameLayout(o: Direction, payload: bytes, pad: bytes)
    requires Usable(o) && Frameable(payload, o.blockSize) && |pad| == Padding(|payload|, o.blockSize)
    ensures var plain, n := Plain(payload, pad), |payload|;
            && |plain| % o.blockSize == 0 && |plain| == 5 + n + |pad| && |pad| >= 4
            && Value(plain[..4]) == |plain| - 4 && plain[4] == |pad| && plain[5..5 + n] == payload
            && plain[5 + n..] == pad
            && var (o', wire) := Frame(o, payload, pad);
               var tag := o.macEngine(o.macKey, Word(o.seqno, 4) + plain);
               && (o.cipher.NoCipher? ==> wire == plain)
               && (o.cipher.Cipher? ==>
                     wire == Update(o.cipher.step, o.blockSize, o.cipher.chain, plain).1
                             + if |tag| <= o.macSize then tag else tag[..o.macSize])
               && o'.seqno == (o.seqno + 1) % WORD && o' == o.(cipher := o'.cipher, seqno := o'.seqno)
  {
    PaddingRange(o.blockSize);
    Pow256Four();
    WordValue(|payload| + |pad| + 1, 4);
    var plain, n := Plain(payload, pad), |payload|;
    assert plain[..4] == Word(n + |pad| + 1, 4) && plain[4] == |pad|;
    assert plain[5..5 + n] == payload && plain[5 + n..] == pad;
  }

  // ---- whole streams, across key switches ----

  /** What both ends install at a key switch; the sequence number is not part of it. */
  datatype Keys = Keys(
    enc: Cipher, dec: Cipher, blockSize: nat, macEngine: (bytes, bytes) -> bytes, macSize: nat, macKey: bytes)

  function Outbound(k: Keys, seqno: nat): Direction {
    Direction(k.enc, k.blockSize, k.macEngine, k.macSize, k.macKey, seqno)
  }

  function Inbound(k: Keys, seqno: nat): Direction {
    Direction(k.dec, k.blockSize, k.macEngine, k.macSize, k.macKey, seqno)
  }

  datatype Item = Payload(data: bytes, pad: bytes) | Switch(keys: Keys)

  /** What the receiver knows beforehand: whether to read a message or to install keys. */
  datatype Cue = Read | Install(keys: Keys)

  function Cues(items: seq<Item>): seq<Cue> {
    if items == [] then []
    else [match items[0] case Payload(_, _) => Read case Switch(k) => Install(k)] + Cues(items[1..])
  }

  function Payloads(items: seq<Item>): seq<bytes> {
    if items == [] then []
    else (match items[0] case Payload(data, _) => [data] case Switch(_) => []) + Payloads(items[1..])
  }

  /** Payloads fit their frames, paddings have the required length, and both ends install matching keys. */
  ghost predicate Sendable(blockSize: nat, items: seq<Item>)
    requires blockSize > 0
    decreases |items|
  {
    items == [] ||
    match items[0]
    case Payload(data, pad) =>
      Frameable(data, blockSize) && |pad| == Padding(|data|, blockSize) && Sendable(blockSize, items[1..])
    case Switch(k) =>
      Mirrors(Outbound(k, 0), Inbound(k, 0)) && Sendable(k.blockSize, items[1..])
  }

  ghost function SendAll(o: Direction, items: seq<Item>): (Direction, bytes)
    requires Usable(o) && Sendable(o.blockSize, items)
    decreases |items|
  {
    if items == [] then (o, [])
    else
      match items[0]
      case Payload(data, pad) =>
        FrameUsable(o, data, pad);
        var (o1, wire) := Frame(o, data, pad);
        var (o2, more) := SendAll(o1, items[1..]);
        (o2, wire + more)
      case Switch(k) =>
        SendAll(Outbound(k, o.seqno), items[1..])
  }

  ghost function ReceiveAll(i: Direction, cues: seq<Cue>, s: bytes): (seq<bytes>, bytes)
    requires Usable(i)
    decreases |cues|
  {
    if cues == [] then ([], s)
    else
      match cues[0]
      case Read =>
        var p := Parse(i, s);
        if p.Packet? && Usable(p.d) then
          var (more, rest) := ReceiveAll(p.d, cues[1..], p.rest);
          ([p.payload] + more, rest)
        else ([], s)
      case Install(k) =>
        var i1 := Inbound(k, i.seqno);
        if Usable(i1) then ReceiveAll(i1, cues[1..], s) else ([], s)
  }

  lemma FrameUsable(o: Direction, payload: bytes, pad: bytes)
    requires Usable(o) && |pad| <= 255 && |payload| + |pad| + 1 < WORD
    ensures Usable(Frame(o, payload, pad).0) && Frame(o, payload, pad).0.blockSize == o.blockSize
  {
  }

  lemma MirrorsAtAnySeqno(k: Keys, seqno: nat)
    requires Mirrors(Outbound(k, 0), Inbound(k, 0)) && seqno < WORD
    ensures Mirrors(Outbound(k, seqno), Inbound(k, seqno))
  {
    assert Outbound(k, 0).macEngine == Outbound(k, seqno).macEngine;
  }

  /**
   * Every list of payloads, with any key switches between them, comes out of the stream in order and unchanged, and
   * nothing that follows is consumed: for every block size, cipher state and sequence number, wrap-around included.
   */
  lemma {:induction false} Transmission(o: Direction, i: Direction, items: seq<Item>, rest: bytes)
    requires Mirrors(o, i) && Sendable(o.blockSize, items)
    ensures ReceiveAll(i, Cues(items), SendAll(o, items).1 + rest) == (Payloads(items), rest)
    decreases |items|
  {
    if items == [] {
      assert [] + rest == rest;
    } else {
      match items[0]
      case Payload(data, pad) =>
        FrameUsable(o, data, pad);
        var (o1, wire) := Frame(o, data, pad);
        var more := SendAll(o1, items[1..]).1;
        assert wire + more + rest == wire + (more + rest);
        ParseFrame(o, i, data, pad, more + rest);
        Transmission(o1, Parse(i, wire + (more + rest)).d, items[1..], rest);
      case Switch(k) =>
        MirrorsAtAnySeqno(k, o.seqno);
        Transmission(Outbound(k, o.seqno), Inbound(k, o.seqno), items[1..], rest);
        assert Cues(items) == [Install(k)] + Cues(items[1..]);
        assert [] + Payloads(items[1..]) == Payloads(items[1..]);
    }
  }
}
