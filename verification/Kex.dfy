/** The two ends of a Diffie-Hellman group exchange: transcript, exchange hash, session id and directional keys. */
module Kex {
  import opened Basics
  import opened Bytes
  import opened Messages
  import opened ModArith
  import opened Negotiation

  const MSG_NEWKEYS: byte := 21
  const MSG_KEXDH_INIT: byte := 30
  const MSG_KEXDH_REPLY: byte := 31

  /** The primitives: a hash with non-empty digests, signatures, and the sizes each algorithm name stands for. */
  datatype Suite = Suite(
    hash: (bytes, bytes) -> bytes,
    sign: (bytes, bytes) -> bytes,
    verify: (bytes, bytes, bytes) -> bool,
    blockSize: bytes -> nat, keySize: bytes -> nat, macKeySize: bytes -> nat)

  /** A key verifies its own signatures, and digests are not empty. */
  ghost predicate Lawful(s: Suite) {
    && (forall kex, m :: s.hash(kex, m) != [])
    && (forall key, h :: s.verify(key, h, s.sign(key, h)))
  }

  /** What one direction is switched to. */
  datatype DirectionKeys = DirectionKeys(cipher: bytes, iv: bytes, key: bytes, mac: bytes, macKey: bytes)

  // ---- key derivation ----

  /** The hash input that precedes the identifying letter or the key material so far. */
  function KeySeed(k: int, h: bytes): bytes
    requires Packable(Mpint(k))
  {
    Wire(Mpint(k)) + h
  }

  /** Key material grown until it is long enough; each new block hashes everything before it. */
  function Grown(s: Suite, kex: bytes, seed: bytes, sofar: bytes, nbytes: nat): (out: bytes)
    requires forall m :: s.hash(kex, m) != []
    ensures |out| >= nbytes && sofar <= out
    decreases nbytes - |sofar|
  {
    if |sofar| >= nbytes then sofar
    else Grown(s, kex, seed, sofar + s.hash(kex, seed + sofar), nbytes)
  }

  function DerivedKey(s: Suite, kex: bytes, k: int, h: bytes, id: byte, sessionId: bytes, nbytes: nat): (key: bytes)
    requires Packable(Mpint(k)) && forall m :: s.hash(kex, m) != []
    ensures |key| == nbytes
  {
    Grown(s, kex, KeySeed(k, h), s.hash(kex, KeySeed(k, h) + [id] + sessionId), nbytes)[..nbytes]
  }

  /** Asking for more bytes only extends the key: shorter keys are beginnings of longer ones. */
  lemma {:induction false} GrownIsPrefix(s: Suite, kex: bytes, seed: bytes, sofar: bytes, n: nat, m: nat)
    requires (forall x :: s.hash(kex, x) != []) && n <= m
    ensures Grown(s, kex, seed, sofar, n) <= Grown(s, kex, seed, sofar, m)
    decreases m - |sofar|
  {
    if |sofar| >= n {
    } else {
      GrownIsPrefix(s, kex, seed, sofar + s.hash(kex, seed + sofar), n, m);
    }
  }

  lemma DerivedKeyIsPrefix(s: Suite, kex: bytes, k: int, h: bytes, id: byte, sessionId: bytes, n: nat, m: nat)
    requires Packable(Mpint(k)) && (forall x :: s.hash(kex, x) != []) && n <= m
    ensures DerivedKey(s, kex, k, h, id, sessionId, n) == DerivedKey(s, kex, k, h, id, sessionId, m)[..n]
  {
    GrownIsPrefix(s, kex, KeySeed(k, h), s.hash(kex, KeySeed(k, h) + [id] + sessionId), n, m);
  }

  /**
   * The first `n` bytes of blocks of which the first hashes secret, hash, letter and session id, and every other one
   * secret, hash and all the blocks before it.
   */
  ghost predicate IsKey(s: Suite, kex: bytes, k: int, h: bytes, id: byte, sessionId: bytes, key: bytes, n: nat)
    requires Packable(Mpint(k))
  {
    exists blocks :: |key| == n && key <= Concat(blocks)
        && IsMaterial(s, kex, Wire(Mpint(k)) + h, [id] + sessionId, blocks)
  }

  ghost predicate IsMaterial(s: Suite, kex: bytes, seed: bytes, first: bytes, blocks: seq<bytes>) {
    forall i :: 0 <= i < |blocks| ==> blocks[i] == s.hash(kex, seed + if i == 0 then first else Concat(blocks[..i]))
  }

  function Concat(blocks: seq<bytes>): bytes {
    if blocks == [] then [] else Concat(blocks[..|blocks| - 1]) + blocks[|blocks| - 1]
  }

  /** However many blocks there are already, growing them adds blocks of that kind. */
  lemma {:induction false} GrownIsMaterial(s: Suite, kex: bytes, seed: bytes, first: bytes, blocks: seq<bytes>, n: nat)
    returns (all: seq<bytes>)
    requires (forall x :: s.hash(kex, x) != []) && blocks != [] && IsMaterial(s, kex, seed, first, blocks)
    ensures IsMaterial(s, kex, seed, first, all) && Concat(all) == Grown(s, kex, seed, Concat(blocks), n)
    decreases n - |Concat(blocks)|
  {
    if |Concat(blocks)| >= n {
      all := blocks;
    } else {
      var more := blocks + [s.hash(kex, seed + Concat(blocks))];
      assert more[..|blocks|] == blocks;
      forall i | 0 <= i < |more|
        ensures more[i] == s.hash(kex, seed + if i == 0 then first else Concat(more[..i]))
      {
        assert i < |blocks| ==> more[..i] == blocks[..i];
      }
      all := GrownIsMaterial(s, kex, seed, first, more, n);
    }
  }

  lemma DerivedKeyIsKey(s: Suite, kex: bytes, k: int, h: bytes, id: byte, sessionId: bytes, n: nat)
    requires Packable(Mpint(k)) && forall m :: s.hash(kex, m) != []
    ensures IsKey(s, kex, k, h, id, sessionId, DerivedKey(s, kex, k, h, id, sessionId, n), n)
  {
    var seed, first := Wire(Mpint(k)) + h, [id] + sessionId;
    var blocks := [s.hash(kex, seed + first)];
    assert blocks[..0] == [];
    assert Concat(blocks) == [] + blocks[0];
    assert seed + first == seed + [id] + sessionId;
    assert Concat(blocks) == blocks[0];
    var all := GrownIsMaterial(s, kex, seed, first, blocks, n);
    var key := DerivedKey(s, kex, k, h, id, sessionId, n);
    assert key == Concat(all)[..n];
    assert key <= Concat(all) && IsMaterial(s, kex, Wire(Mpint(k)) + h, [id] + sessionId, all);
  }

  /** The five values of one direction; A, C, E go from client to server and B, D, F back. */
  function KeysFor(s: Suite, kex: bytes, k: int, h: bytes, sessionId: bytes, toServer: bool, cipher: bytes,
                   mac: bytes): DirectionKeys
    requires Packable(Mpint(k)) && forall m :: s.hash(kex, m) != []
  {
    DirectionKeys(
      cipher,
      DerivedKey(s, kex, k, h, if toServer then 'A' as byte else 'B' as byte, sessionId, s.blockSize(cipher)),
      DerivedKey(s, kex, k, h, if toServer then 'C' as byte else 'D' as byte, sessionId, s.keySize(cipher)),
      mac,
      DerivedKey(s, kex, k, h, if toServer then 'E' as byte else 'F' as byte, sessionId, s.macKeySize(mac)))
  }

  // ---- the transcript ----

  /** V_C, V_S, I_C, I_S, K_S, e, f, K. */
  function TranscriptFields(vc: bytes, vs: bytes, initC: bytes, initS: bytes, ks: bytes, e: int, f: int,
                            k: int): seq<Field>
  {
    [Str(vc), Str(vs), Str(initC), Str(initS), Str(ks), Mpint(e), Mpint(f), Mpint(k)]
  }

  /** `w` reads as two versions, two announcements, a key, two public values and a secret, and nothing else. */
  ghost predicate HashedAs(w: bytes, vc: bytes, vs: bytes, initC: bytes, initS: bytes, ks: bytes, e: int, f: int,
                           k: int)
  {
    ReadAll([StrKind, StrKind, StrKind, StrKind, StrKind, MpintKind, MpintKind, MpintKind], w)
    == ([Str(vc), Str(vs), Str(initC), Str(initS), Str(ks), Mpint(e), Mpint(f), Mpint(k)], [])
  }

  lemma TranscriptReads(vc: bytes, vs: bytes, initC: bytes, initS: bytes, ks: bytes, e: int, f: int, k: int)
    requires AllPackable(TranscriptFields(vc, vs, initC, initS, ks, e, f, k))
    ensures HashedAs(WireAll(TranscriptFields(vc, vs, initC, initS, ks, e, f, k)), vc, vs, initC, initS, ks, e, f, k)
  {
    hide WireAll, ReadAll;
    var fields := TranscriptFields(vc, vs, initC, initS, ks, e, f, k);
    RoundTrip(fields, []);
    assert Kinds(fields)
        == [StrKind, StrKind, StrKind, StrKind, StrKind, MpintKind, MpintKind, MpintKind];
    assert WireAll(fields) + [] == WireAll(fields);
  }

  /** The hashed bytes fix all that goes into them: no two exchanges that differ anywhere hash the same bytes. */
  lemma HashedBytesFixAll(vc: bytes, vs: bytes, initC: bytes, initS: bytes, ks: bytes, e: int, f: int, k: int,
                          vc': bytes, vs': bytes, initC': bytes, initS': bytes, ks': bytes, e': int, f': int, k': int)
    requires AllPackable(TranscriptFields(vc, vs, initC, initS, ks, e, f, k))
    requires AllPackable(TranscriptFields(vc', vs', initC', initS', ks', e', f', k'))
    requires WireAll(TranscriptFields(vc, vs, initC, initS, ks, e, f, k))
             == WireAll(TranscriptFields(vc', vs', initC', initS', ks', e', f', k'))
    ensures vc == vc' && vs == vs' && initC == initC' && initS == initS' && ks == ks' && e == e' && f == f' && k == k'
  {
    hide TranscriptFields, AllPackable, WireAll, ReadAll;
    TranscriptReads(vc, vs, initC, initS, ks, e, f, k);
    TranscriptReads(vc', vs', initC', initS', ks', e', f', k');
    SameReading([Str(vc), Str(vs), Str(initC), Str(initS), Str(ks), Mpint(e), Mpint(f), Mpint(k)],
        [Str(vc'), Str(vs'), Str(initC'), Str(initS'), Str(ks'), Mpint(e'), Mpint(f'), Mpint(k')]);
  }

  lemma SameReading(a: seq<Field>, b: seq<Field>)
    ensures a == b ==> |a| == |b| && forall i :: 0 <= i < |a| ==> a[i] == b[i]
  {
  }

  // ---- one end ----

  class Transport {
    const suite: Suite
    const serverMode: bool
    const preferred: Preferences
    /** Host keys by type, on a server. */
    const serverKeys: map<bytes, bytes>
    const localVersion: bytes
    const remoteVersion: bytes
    var localKexInit: Option<bytes>
    var remoteKexInit: Option<bytes>
    var agreed: Option<Agreement>
    var K: int
    var H: bytes
    var sessionId: Option<bytes>
    var outKeys: Option<DirectionKeys>
    var inKeys: Option<DirectionKeys>
    /** Packets sent, in order. */
    var outbox: seq<bytes>

    constructor (suite: Suite, serverMode: bool, preferred: Preferences, serverKeys: map<bytes, bytes>,
                 localVersion: bytes, remoteVersion: bytes)
      ensures this.suite == suite && this.serverMode == serverMode && this.preferred == preferred
              && this.serverKeys == serverKeys
      ensures this.localVersion == localVersion && this.remoteVersion == remoteVersion
      ensures sessionId == None && outbox == []
    {
      this.suite, this.serverMode, this.preferred, this.serverKeys := suite, serverMode, preferred, serverKeys;
      this.localVersion, this.remoteVersion := localVersion, remoteVersion;
      localKexInit, remoteKexInit, agreed, K, H := None, None, None, 0, [];
      sessionId, outKeys, inKeys, outbox := None, None, None, [];
    }

    /** A client offers every key type it prefers; a server those it has a key for. */
    function AvailableKeys(): (keys: seq<bytes>)
      ensures !serverMode ==> keys == preferred.keys
      ensures serverMode ==> forall name :: name in keys <==> name in preferred.keys && name in serverKeys
    {
      FilterKeeps(preferred.keys, serverKeys.Keys);
      if serverMode then Filter(preferred.keys, serverKeys.Keys) else preferred.keys
    }

    /**
     * The exchange has left the shared secret and the hash of the transcript, and the session id if it is the first.
     */
    ghost predicate Holds(sessionBefore: Option<bytes>, k: int, fields: seq<Field>)
      reads this`agreed, this`K, this`H, this`sessionId
    {
      && AllPackable(fields) && Packable(Mpint(k)) && agreed.Some?
      && K == k && H == suite.hash(agreed.value.kex, WireAll(fields))
      && sessionId == if sessionBefore == None then Some(H) else sessionBefore
    }

    /** The keys we send with. */
    ghost function LocalKeys(): DirectionKeys
      reads this`agreed, this`K, this`H, this`sessionId
      requires Lawful(suite) && agreed.Some? && sessionId.Some? && Packable(Mpint(K))
    {
      KeysFor(suite, agreed.value.kex, K, H, sessionId.value, !serverMode, agreed.value.localCipher,
          agreed.value.localMac)
    }

    /** The keys we receive with. */
    ghost function RemoteKeys(): DirectionKeys
      reads this`agreed, this`K, this`H, this`sessionId
      requires Lawful(suite) && agreed.Some? && sessionId.Some? && Packable(Mpint(K))
    {
      KeysFor(suite, agreed.value.kex, K, H, sessionId.value, serverMode, agreed.value.remoteCipher,
          agreed.value.remoteMac)
    }

    /** Announces our offer and keeps a copy of the packet for the hash; fails when a list cannot be packed. */
    method SendKexInit(cookie: bytes) returns (ok: bool)
      requires |cookie| == 16
      modifies this`localKexInit, this`outbox
      ensures ok == AllPackable(InitFields(OfferOf(preferred, AvailableKeys()), cookie))
      ensures ok ==>
                localKexInit == Some([MSG_KEXINIT] + WireAll(InitFields(OfferOf(preferred, AvailableKeys()), cookie)))
      ensures ok ==> outbox == old(outbox) + [localKexInit.value]
      ensures !ok ==> outbox == old(outbox) && localKexInit == old(localKexInit)
    {
      var m := new Message([]);
      m.AddBytes([MSG_KEXINIT]);
      assert m.packet == [MSG_KEXINIT];
      ok := m.AddAll(InitFields(OfferOf(preferred, AvailableKeys()), cookie));
      if ok {
        localKexInit := Some(m.packet);
        outbox := outbox + [m.packet];
      }
    }

    /**
     * Reads the peer's announcement, whose type byte has been taken off, agrees on algorithms or gives up, and keeps
     * the bytes that were read; anything behind them is not part of the hash.
     */
    method ParseKexInit(m: Message) returns (refused: Option<Mismatch>)
      requires m.Valid() && m.pos == 0
      modifies this`agreed, this`remoteKexInit, m`pos
      ensures m.Valid()
      ensures var (fs, rest) := ReadAll(INIT_KINDS, m.packet);
              && |fs| == 13 && (forall i :: 1 <= i <= 8 ==> fs[i].Names?)
              && match Negotiate(serverMode, preferred, AvailableKeys(), OfferIn(fs))
                 case Refused(why) => refused == Some(why)
                 case Agreed(a) =>
                   && refused == None && agreed == Some(a)
                   && remoteKexInit.Some? && remoteKexInit.value + rest == [MSG_KEXINIT] + m.packet
      ensures var fs := ReadAll(INIT_KINDS, m.packet).0;
              && |fs| == 13 && (forall i :: 1 <= i <= 8 ==> fs[i].Names?)
              && (refused.None? ==> agreed.Some?)
              && PicksFirst(serverMode, preferred, AvailableKeys(), fs,
                            if refused.None? then Agreed(agreed.value) else Refused(refused.value))
    {
      ReadAllShape(INIT_KINDS, m.packet);
      assert m.Remainder() == m.packet;
      var fs := m.GetAll(INIT_KINDS);
      NegotiatePicksFirst(serverMode, preferred, AvailableKeys(), fs);
      refused := AgreeOn(OfferIn(fs));
      if refused == None {
        KeepAnnouncement(m);
      }
    }

    method AgreeOn(offer: Offer) returns (refused: Option<Mismatch>)
      modifies this`agreed
      ensures match Negotiate(serverMode, preferred, AvailableKeys(), offer)
              case Refused(why) => refused == Some(why)
              case Agreed(a) => refused == None && agreed == Some(a)
    {
      match Negotiate(serverMode, preferred, AvailableKeys(), offer)
      case Refused(why) =>
        refused := Some(why);
      case Agreed(a) =>
        agreed := Some(a);
        refused := None;
    }

    /** Keeps what has been read so far, type byte included. */
    method KeepAnnouncement(m: Message)
      requires m.Valid()
      modifies this`remoteKexInit, m`pos
      ensures m.Valid() && m.pos == old(m.pos)
      ensures remoteKexInit.Some? && remoteKexInit.value + m.Remainder() == [MSG_KEXINIT] + m.packet
    {
      var soFar := m.GetSoFar();
      remoteKexInit := Some([MSG_KEXINIT] + soFar);
      assert [MSG_KEXINIT] + soFar + m.Remainder() == [MSG_KEXINIT] + (soFar + m.Remainder());
    }

    /** The first exchange hash becomes the session id and stays it. */
    method SetKH(k: int, h: bytes)
      modifies this`K, this`H, this`sessionId
      ensures K == k && H == h && sessionId == if old(sessionId) == None then Some(h) else old(sessionId)
    {
      K, H := k, h;
      if sessionId == None {
        sessionId := Some(h);
      }
    }

    /** The bytes to hash for the next piece of key material. */
    method HashInput(tail: bytes) returns (bs: bytes)
      requires Packable(Mpint(K))
      ensures bs == KeySeed(K, H) + tail
    {
      var m := new Message([]);
      var ok := m.AddMpint(K);
      m.AddBytes(H);
      m.AddBytes(tail);
      bs := m.packet;
      assert bs == Wire(Mpint(K)) + H + tail;
    }

    method ComputeKey(id: byte, nbytes: nat) returns (key: bytes)
      requires Lawful(suite) && agreed.Some? && sessionId.Some? && Packable(Mpint(K))
      ensures key == DerivedKey(suite, agreed.value.kex, K, H, id, sessionId.value, nbytes)
    {
      var kex, sid := agreed.value.kex, sessionId.value;
      var m := HashInput([id] + sid);
      assert KeySeed(K, H) + ([id] + sid) == KeySeed(K, H) + [id] + sid;
      var out := suite.hash(kex, m);
      var sofar := out;
      ghost var first := out;
      while |out| < nbytes
        invariant out == sofar
        invariant Grown(suite, kex, KeySeed(K, H), sofar, nbytes) == Grown(suite, kex, KeySeed(K, H), first, nbytes)
        decreases nbytes - |out|
      {
        m := HashInput(sofar);
        var digest := suite.hash(kex, m);
        out := out + digest;
        sofar := sofar + digest;
      }
      key := out[..nbytes];
    }

    /** Announces the switch and computes the keys of the sending direction. */
    method ActivateOutbound()
      requires Lawful(suite) && agreed.Some? && sessionId.Some? && Packable(Mpint(K))
      modifies this`outKeys, this`outbox
      ensures outbox == old(outbox) + [[MSG_NEWKEYS]]
      ensures outKeys == Some(LocalKeys())
    {
      outbox := outbox + [[MSG_NEWKEYS]];
      var a := agreed.value;
      var iv, key, macKey;
      if serverMode {
        iv := ComputeKey('B' as byte, suite.blockSize(a.localCipher));
        key := ComputeKey('D' as byte, suite.keySize(a.localCipher));
        macKey := ComputeKey('F' as byte, suite.macKeySize(a.localMac));
      } else {
        iv := ComputeKey('A' as byte, suite.blockSize(a.localCipher));
        key := ComputeKey('C' as byte, suite.keySize(a.localCipher));
        macKey := ComputeKey('E' as byte, suite.macKeySize(a.localMac));
      }
      outKeys := Some(DirectionKeys(a.localCipher, iv, key, a.localMac, macKey));
    }

    method ActivateInbound()
      requires Lawful(suite) && agreed.Some? && sessionId.Some? && Packable(Mpint(K))
      modifies this`inKeys
      ensures inKeys == Some(RemoteKeys())
    {
      var a := agreed.value;
      var iv, key, macKey;
      if serverMode {
        iv := ComputeKey('A' as byte, suite.blockSize(a.remoteCipher));
        key := ComputeKey('C' as byte, suite.keySize(a.remoteCipher));
        macKey := ComputeKey('E' as byte, suite.macKeySize(a.remoteMac));
      } else {
        iv := ComputeKey('B' as byte, suite.blockSize(a.remoteCipher));
        key := ComputeKey('D' as byte, suite.keySize(a.remoteCipher));
        macKey := ComputeKey('F' as byte, suite.macKeySize(a.remoteMac));
      }
      inKeys := Some(DirectionKeys(a.remoteCipher, iv, key, a.remoteMac, macKey));
    }

    /** The peer has switched: so do we, and what only served this exchange is dropped. */
    method ParseNewKeys()
      requires Lawful(suite) && agreed.Some? && sessionId.Some? && Packable(Mpint(K))
      modifies this`inKeys, this`localKexInit, this`remoteKexInit
      ensures inKeys == Some(RemoteKeys())
      ensures localKexInit == remoteKexInit == None
    {
      ActivateInbound();
      localKexInit, remoteKexInit := None, None;
    }
  }

  // ---- the exchange ----

  datatype Fault = OutOfRange | BadSignature | NotPackable

  datatype Outcome = Fine | Failed(f: Fault)

  class KexGroup1 {
    const transport: Transport
    const P: int
    const G: int
    var x: nat
    var e: int
    var f: int

    constructor (transport: Transport, P: int, G: int, x: nat)
      ensures this.transport == transport && this.P == P && this.G == G && this.x == x
    {
      this.transport, this.P, this.G, this.x := transport, P, G, x;
      e, f := 0, 0;
    }

    /** The client sends e; the server has f ready but sends nothing yet. */
    method StartKex() returns (r: Outcome)
      requires P > 0
      modifies this`e, this`f, transport`outbox
      ensures transport.serverMode ==> r == Fine && f == ModPow(G, x, P) && transport.outbox == old(transport.outbox)
      ensures !transport.serverMode ==>
                e == ModPow(G, x, P) && (r == Fine <==> Packable(Mpint(e)))
                && (r == Fine ==> transport.outbox == old(transport.outbox) + [InitMessage(e)])
    {
      if transport.serverMode {
        f := ModPow(G, x, P);
        return Fine;
      }
      e := ModPow(G, x, P);
      var m := new Message([]);
      m.AddBytes([MSG_KEXDH_INIT]);
      assert m.packet == [MSG_KEXDH_INIT];
      var ok := m.AddAll([Mpint(e)]);
      if !ok {
        return Failed(NotPackable);
      }
      transport.outbox := transport.outbox + [m.packet];
      r := Fine;
    }

    /** The exchange hash over the transcript; fails when a field cannot be packed. */
    method TranscriptHash(fields: seq<Field>) returns (h: bytes, ok: bool)
      requires transport.agreed.Some?
      ensures ok == AllPackable(fields)
      ensures ok ==> h == transport.suite.hash(transport.agreed.value.kex, WireAll(fields))
    {
      var hm := new Message([]);
      ok := hm.AddAll(fields);
      h := [];
      if ok {
        assert [] + WireAll(fields) == WireAll(fields);
        h := transport.suite.hash(transport.agreed.value.kex, hm.packet);
      }
    }

    /** Hashes the transcript and hands secret and hash to the transport; fails when a field cannot be packed. */
    method Conclude(k: int, fields: seq<Field>) returns (ok: bool)
      requires transport.agreed.Some? && Mpint(k) in fields
      modifies transport`K, transport`H, transport`sessionId
      ensures ok == AllPackable(fields)
      ensures ok ==> transport.Holds(old(transport.sessionId), k, fields)
      ensures old(transport.sessionId).Some? ==> transport.sessionId == old(transport.sessionId)
    {
      var h;
      h, ok := TranscriptHash(fields);
      if ok {
        transport.SetKH(k, h);
      }
    }

    /** Signs the exchange hash and sends the reply. */
    method SendReply(key: bytes) returns (ok: bool)
      modifies transport`outbox
      ensures ok == AllPackable(ReplyFields(transport.suite, key, f, transport.H))
      ensures ok ==>
                transport.outbox
                    == old(transport.outbox)
                        + [[MSG_KEXDH_REPLY] + WireAll(ReplyFields(transport.suite, key, f, transport.H))]
    {
      var reply := new Message([]);
      reply.AddBytes([MSG_KEXDH_REPLY]);
      assert reply.packet == [MSG_KEXDH_REPLY];
      ok := reply.AddAll(ReplyFields(transport.suite, key, f, transport.H));
      if ok {
        transport.outbox := transport.outbox + [reply.packet];
      }
    }

    /** The server's transcript; the client is the remote side. */
    ghost function ServerTranscript(key: bytes): seq<Field>
      reads this`x, this`e, this`f, transport`localKexInit, transport`remoteKexInit
      requires P > 0 && transport.localKexInit.Some? && transport.remoteKexInit.Some?
    {
      TranscriptFields(transport.remoteVersion, transport.localVersion,
                       transport.remoteKexInit.value, transport.localKexInit.value, key, e, f, ModPow(e, x, P))
    }

    ghost function ClientTranscript(key: bytes): seq<Field>
      reads this`x, this`e, this`f, transport`localKexInit, transport`remoteKexInit
      requires P > 0 && transport.localKexInit.Some? && transport.remoteKexInit.Some?
    {
      TranscriptFields(transport.localVersion, transport.remoteVersion,
                       transport.localKexInit.value, transport.remoteKexInit.value, key, e, f, ModPow(f, x, P))
    }

    /** Server side: the client's e comes in, the reply and our NEWKEYS go out. */
    method ParseKexdhInit(m: Message) returns (r: Outcome)
      requires P > 0 && Lawful(transport.suite)
      requires m.Valid() && transport.agreed.Some? && transport.agreed.value.hostKey in transport.serverKeys
      requires transport.localKexInit.Some? && transport.remoteKexInit.Some?
      modifies this`e, m`pos
      modifies transport`K, transport`H, transport`sessionId, transport`outKeys, transport`outbox
      ensures Mpint(e) == ReadField(MpintKind, old(m.Remainder())).0
      ensures r == Failed(OutOfRange) <==> !(1 <= e <= P - 1)
      ensures r != Failed(BadSignature)
      ensures r == Failed(NotPackable) ==>
                var key := transport.serverKeys[transport.agreed.value.hostKey];
                !AllPackable(ServerTranscript(key)) || !AllPackable(ReplyFields(transport.suite, key, f, transport.H))
      ensures r == Fine ==>
                var key := transport.serverKeys[transport.agreed.value.hostKey];
                var reply := ReplyFields(transport.suite, key, f, transport.H);
                && transport.Holds(old(transport.sessionId), ModPow(e, x, P), ServerTranscript(key))
                && AllPackable(reply)
                && transport.outbox == old(transport.outbox) + [[MSG_KEXDH_REPLY] + WireAll(reply)] + [[MSG_NEWKEYS]]
                && transport.outKeys == Some(transport.LocalKeys())
      ensures old(transport.sessionId).Some? ==> transport.sessionId == old(transport.sessionId)
    {
      hide TranscriptFields, WireAll, ReadField, Packable, AllPackable, Lawful, Transport.LocalKeys, ModPow;
      var ok;
      r := Accept(m);
      if r != Fine {
        return;
      }
      ok := SendReply(transport.serverKeys[transport.agreed.value.hostKey]);
      if !ok {
        return Failed(NotPackable);
      }
      transport.ActivateOutbound();
    }

    /** The part of it that checks e and computes secret and hash. */
    method Accept(m: Message) returns (r: Outcome)
      requires P > 0 && m.Valid() && transport.agreed.Some? && transport.agreed.value.hostKey in transport.serverKeys
      requires transport.localKexInit.Some? && transport.remoteKexInit.Some?
      modifies this`e, m`pos, transport`K, transport`H, transport`sessionId
      ensures Mpint(e) == ReadField(MpintKind, old(m.Remainder())).0
      ensures r == Failed(OutOfRange) <==> !(1 <= e <= P - 1)
      ensures r != Failed(BadSignature)
      ensures r == Failed(NotPackable) ==>
                !AllPackable(ServerTranscript(transport.serverKeys[transport.agreed.value.hostKey]))
      ensures r == Fine ==>
                transport.Holds(old(transport.sessionId), ModPow(e, x, P),
                                ServerTranscript(transport.serverKeys[transport.agreed.value.hostKey]))
      ensures old(transport.sessionId).Some? ==> transport.sessionId == old(transport.sessionId)
    {
      e := m.GetMpint();
      if e < 1 || e > P - 1 {
        return Failed(OutOfRange);
      }
      var k := ModPow(e, x, P);
      var key := transport.serverKeys[transport.agreed.value.hostKey];
      var fields := TranscriptFields(transport.remoteVersion, transport.localVersion,
                                     transport.remoteKexInit.value, transport.localKexInit.value, key, e, f, k);
      assert fields[7] == Mpint(k);
      var ok := Conclude(k, fields);
      r := if ok then Fine else Failed(NotPackable);
    }

    method ConcludeAsClient(key: bytes) returns (ok: bool)
      requires P > 0 && transport.agreed.Some? && transport.localKexInit.Some? && transport.remoteKexInit.Some?
      modifies transport`K, transport`H, transport`sessionId
      ensures ok == AllPackable(ClientTranscript(key))
      ensures ok ==> transport.Holds(old(transport.sessionId), ModPow(f, x, P), ClientTranscript(key))
      ensures old(transport.sessionId).Some? ==> transport.sessionId == old(transport.sessionId)
    {
      var k := ModPow(f, x, P);
      var fields := TranscriptFields(transport.localVersion, transport.remoteVersion,
                                     transport.localKexInit.value, transport.remoteKexInit.value, key, e, f, k);
      assert fields[7] == Mpint(k);
      ok := Conclude(k, fields);
    }

    /** Client side: the server's key, f and signature come in, our NEWKEYS goes out. */
    method ParseKexdhReply(m: Message) returns (r: Outcome, ghost hostKey: bytes, ghost sig: bytes)
      requires P > 0 && Lawful(transport.suite)
      requires m.Valid() && transport.agreed.Some?
      requires transport.localKexInit.Some? && transport.remoteKexInit.Some?
      modifies this`f, m`pos
      modifies transport`K, transport`H, transport`sessionId, transport`outKeys, transport`outbox
      ensures ReadAll([StrKind, MpintKind, StrKind], old(m.Remainder())).0 == [Str(hostKey), Mpint(f), Str(sig)]
      ensures r == Failed(OutOfRange) <==> !(1 <= f <= P - 1)
      ensures r == Failed(NotPackable) ==> !AllPackable(ClientTranscript(hostKey))
      ensures r == Failed(BadSignature) || r == Fine ==>
                && transport.Holds(old(transport.sessionId), ModPow(f, x, P), ClientTranscript(hostKey))
                && (r == Fine <==> transport.suite.verify(hostKey, transport.H, sig))
      ensures r == Fine ==>
                transport.outbox == old(transport.outbox) + [[MSG_NEWKEYS]]
                    && transport.outKeys == Some(transport.LocalKeys())
      ensures old(transport.sessionId).Some? ==> transport.sessionId == old(transport.sessionId)
    {
      hide ReadAll, WireAll, TranscriptFields, Packable, AllPackable, Lawful, Transport.LocalKeys, ModPow;
      ReplyShape(m.Remainder());
      var reply := m.GetAll([StrKind, MpintKind, StrKind]);
      var key, sigBytes := reply[0].s, reply[2].s;
      hostKey, sig := key, sigBytes;
      f := reply[1].n;
      if f < 1 || f > P - 1 {
        return Failed(OutOfRange), hostKey, sig;
      }
      var ok := ConcludeAsClient(key);
      if !ok {
        return Failed(NotPackable), hostKey, sig;
      }
      if !transport.suite.verify(key, transport.H, sigBytes) {
        return Failed(BadSignature), hostKey, sig;
      }
      transport.ActivateOutbound();
      r := Fine;
    }
  }

  function ReplyFields(s: Suite, key: bytes, f: int, h: bytes): seq<Field> {
    [Str(key), Mpint(f), Str(s.sign(key, h))]
  }

  function ReplyPayload(s: Suite, key: bytes, f: int, h: bytes): bytes
    requires AllPackable(ReplyFields(s, key, f, h))
  {
    [MSG_KEXDH_REPLY] + WireAll(ReplyFields(s, key, f, h))
  }

  lemma ReplyShape(r: bytes)
    ensures var fs := ReadAll([StrKind, MpintKind, StrKind], r).0;
            |fs| == 3 && fs[0].Str? && fs[1].Mpint? && fs[2].Str?
  {
    hide ReadAll;
    var kinds := [StrKind, MpintKind, StrKind];
    ReadAllShape(kinds, r);
    assert kinds[0] == StrKind && kinds[1] == MpintKind && kinds[2] == StrKind;
  }

  // ---- both ends of one exchange ----

  /** The two ends of a connection: each one's local version is the other's remote one, and both know the algorithms. */
  ghost predicate Peers(c: Transport, s: Transport) {
    && c != s && !c.serverMode && s.serverMode
    && c.suite == s.suite && Lawful(c.suite)
    && c.localVersion == s.remoteVersion && s.localVersion == c.remoteVersion
    && Announceable(OfferOf(c.preferred, c.AvailableKeys()))
    && Announceable(OfferOf(s.preferred, s.AvailableKeys()))
  }

  /** Each one's saved copy of the peer's announcement is what the peer saved of its own. */
  ghost predicate SameAnnouncements(c: Transport, s: Transport)
    reads c`localKexInit, c`remoteKexInit, s`localKexInit, s`remoteKexInit
  {
    && c.localKexInit.Some? && s.localKexInit.Some?
    && c.remoteKexInit == s.localKexInit && s.remoteKexInit == c.localKexInit
  }

  ghost predicate SameAlgorithms(c: Transport, s: Transport)
    reads c`agreed, s`agreed
  {
    && c.agreed.Some? && s.agreed == Some(Mirrored(c.agreed.value))
    && s.agreed.value.hostKey in s.serverKeys
  }

  /** One end reads the announcement the other has just saved and sent. */
  method HearAnnouncement(t: Transport, peer: Transport, ghost offer: Offer, ghost cookie: bytes)
    returns (refused: Option<Mismatch>)
    requires t != peer && Announceable(offer) && |cookie| == 16 && peer.localKexInit == Some(InitPayload(offer, cookie))
    modifies t`agreed, t`remoteKexInit
    ensures match Negotiate(t.serverMode, t.preferred, t.AvailableKeys(), offer)
            case Refused(why) => refused == Some(why)
            case Agreed(a) => refused == None && t.agreed == Some(a) && t.remoteKexInit == peer.localKexInit
  {
    var packet := peer.localKexInit.value;
    var m := new Message(packet[1..]);
    ReadInit(offer, cookie);
    refused := t.ParseKexInit(m);
    if refused == None {
      assert packet == [MSG_KEXINIT] + packet[1..];
      assert t.remoteKexInit.value + [] == t.remoteKexInit.value;
    }
  }

  /** Both announce and both hear: they agree on everything or refuse for the same reason. */
  method Announce(c: Transport, s: Transport, cookieC: bytes, cookieS: bytes) returns (refused: Option<Mismatch>)
    requires Peers(c, s) && |cookieC| == |cookieS| == 16
    modifies c`localKexInit, c`remoteKexInit, c`agreed, c`outbox
    modifies s`localKexInit, s`remoteKexInit, s`agreed, s`outbox
    ensures var n := Negotiate(false, c.preferred, c.AvailableKeys(), OfferOf(s.preferred, s.AvailableKeys()));
            if n.Refused? then refused == Some(n.why)
            else refused == None && c.agreed == Some(n.a) && SameAlgorithms(c, s) && SameAnnouncements(c, s)
    ensures c.localKexInit == Some(InitPayload(OfferOf(c.preferred, c.AvailableKeys()), cookieC))
    ensures s.localKexInit == Some(InitPayload(OfferOf(s.preferred, s.AvailableKeys()), cookieS))
    ensures c.outbox == old(c.outbox) + [c.localKexInit.value] && s.outbox == old(s.outbox) + [s.localKexInit.value]
  {
    ghost var offerC, offerS := OfferOf(c.preferred, c.AvailableKeys()), OfferOf(s.preferred, s.AvailableKeys());
    InitPackable(offerC, cookieC);
    InitPackable(offerS, cookieS);
    var ok := c.SendKexInit(cookieC);
    ok := s.SendKexInit(cookieS);
    assert c.localKexInit == Some(InitPayload(offerC, cookieC)) && s.localKexInit == Some(InitPayload(offerS, cookieS));
    refused := HearAnnouncement(c, s, offerS, cookieS);
    var refusedToo := HearAnnouncement(s, c, offerC, cookieC);
    SamePick(c.preferred, s.preferred, s.AvailableKeys());
    AgreedKeyIsAvailable(s.preferred, s.AvailableKeys(), offerC);
    FilterKeeps(s.preferred.keys, s.serverKeys.Keys);
  }

  lemma AgreedKeyIsAvailable(p: Preferences, availableKeys: seq<bytes>, peer: Offer)
    ensures var n := Negotiate(true, p, availableKeys, peer);
            n.Agreed? ==> n.a.hostKey in availableKeys
  {
    FilterKeeps(peer.keys, Elements(availableKeys));
    var keys := Common(true, availableKeys, peer.keys);
    assert keys != [] ==> keys[0] in keys;
  }

  /**
   * Both ends hold the same secret, hash and session id, and use the keys derived from them: what one sends with is
   * what the other receives with.
   */
  ghost predicate InAgreement(c: Transport, s: Transport)
    reads c, s
  {
    && Peers(c, s) && SameAlgorithms(c, s)
    && c.K == s.K && c.H == s.H && c.sessionId == s.sessionId && c.sessionId.Some? && Packable(Mpint(c.K))
    && c.outKeys == Some(c.LocalKeys()) && c.inKeys == Some(c.RemoteKeys())
    && s.outKeys == c.inKeys && s.inKeys == c.outKeys
  }

  /** The keys of section 7.2 of RFC 4253: letters A, C and E towards the server, B, D and F towards the client. */
  ghost predicate HasKeys(c: Transport)
    reads c
  {
    && c.agreed.Some? && c.outKeys.Some? && c.inKeys.Some? && c.sessionId.Some? && Packable(Mpint(c.K))
    && var s, a, out, into, id := c.suite, c.agreed.value, c.outKeys.value, c.inKeys.value, c.sessionId.value;
       && out.cipher == a.localCipher && out.mac == a.localMac
       && into.cipher == a.remoteCipher && into.mac == a.remoteMac
       && IsKey(s, a.kex, c.K, c.H, 65, id, out.iv, s.blockSize(out.cipher))
       && IsKey(s, a.kex, c.K, c.H, 66, id, into.iv, s.blockSize(into.cipher))
       && IsKey(s, a.kex, c.K, c.H, 67, id, out.key, s.keySize(out.cipher))
       && IsKey(s, a.kex, c.K, c.H, 68, id, into.key, s.keySize(into.cipher))
       && IsKey(s, a.kex, c.K, c.H, 69, id, out.macKey, s.macKeySize(out.mac))
       && IsKey(s, a.kex, c.K, c.H, 70, id, into.macKey, s.macKeySize(into.mac))
  }

  lemma AgreementHasKeys(c: Transport, s: Transport)
    requires InAgreement(c, s)
    ensures HasKeys(c)
  {
    hide DerivedKey, IsKey, Packable;
    var suite, a, id := c.suite, c.agreed.value, c.sessionId.value;
    DerivedKeyIsKey(suite, a.kex, c.K, c.H, 65, id, suite.blockSize(a.localCipher));
    DerivedKeyIsKey(suite, a.kex, c.K, c.H, 66, id, suite.blockSize(a.remoteCipher));
    DerivedKeyIsKey(suite, a.kex, c.K, c.H, 67, id, suite.keySize(a.localCipher));
    DerivedKeyIsKey(suite, a.kex, c.K, c.H, 68, id, suite.keySize(a.remoteCipher));
    DerivedKeyIsKey(suite, a.kex, c.K, c.H, 69, id, suite.macKeySize(a.localMac));
    DerivedKeyIsKey(suite, a.kex, c.K, c.H, 70, id, suite.macKeySize(a.remoteMac));
  }

  datatype ExchangeResult = Complete | NoAgreement(why: Mismatch) | Broken(f: Fault)

  function InitMessage(e: int): bytes
    requires Packable(Mpint(e))
  {
    [MSG_KEXDH_INIT] + WireAll([Mpint(e)])
  }

  lemma ReadInitMessage(e: int)
    requires Packable(Mpint(e))
    ensures ReadField(MpintKind, InitMessage(e)[1..]).0 == Mpint(e)
  {
    assert WireAll([Mpint(e)]) == Wire(Mpint(e)) + [];
    assert InitMessage(e)[1..] == Wire(Mpint(e)) + [];
    ReadFieldOfWire(Mpint(e), []);
  }

  lemma ReadReplyMessage(fields: seq<Field>)
    requires |fields| == 3 && AllPackable(fields) && fields[0].Str? && fields[1].Mpint? && fields[2].Str?
    ensures ReadAll([StrKind, MpintKind, StrKind], ([MSG_KEXDH_REPLY] + WireAll(fields))[1..]).0 == fields
  {
    var kinds := Kinds(fields);
    assert kinds[0] == StrKind && kinds[1] == MpintKind && kinds[2] == StrKind;
    assert kinds == [StrKind, MpintKind, StrKind];
    ReadPacket(MSG_KEXDH_REPLY, fields, kinds);
  }

  /** The server receives e and answers. */
  method ServerTurn(c: Transport, s: Transport, kexC: KexGroup1, kexS: KexGroup1) returns (r: Outcome, ghost key: bytes)
    requires Peers(c, s) && SameAlgorithms(c, s) && SameAnnouncements(c, s)
    requires kexC.transport == c && kexS.transport == s && kexC != kexS && kexS.P == kexC.P > 0
    requires Packable(Mpint(kexC.e)) && c.outbox != []
    requires c.outbox[|c.outbox| - 1] == InitMessage(kexC.e)
    modifies kexS`e, s`K, s`H, s`sessionId, s`outKeys, s`outbox
    ensures kexS.e == kexC.e
    ensures r == Failed(OutOfRange) <==> !(1 <= kexC.e <= kexC.P - 1)
    ensures r != Failed(BadSignature)
    ensures key == s.serverKeys[s.agreed.value.hostKey] == s.serverKeys[c.agreed.value.hostKey]
    ensures r == Failed(NotPackable) ==>
              !AllPackable(kexS.ServerTranscript(key)) || !AllPackable(ReplyFields(s.suite, key, kexS.f, s.H))
    ensures r == Fine ==>
              && s.Holds(old(s.sessionId), ModPow(kexC.e, kexS.x, kexS.P), kexS.ServerTranscript(key))
              && s.outKeys == Some(s.LocalKeys())
              && AllPackable(ReplyFields(s.suite, key, kexS.f, s.H))
              && s.outbox == old(s.outbox) + [ReplyPayload(s.suite, key, kexS.f, s.H), [MSG_NEWKEYS]]
    ensures old(s.sessionId).Some? ==> s.sessionId == old(s.sessionId)
  {
    key := s.serverKeys[s.agreed.value.hostKey];
    var m := new Message(c.outbox[|c.outbox| - 1][1..]);
    ReadInitMessage(kexC.e);
    assert m.Remainder() == m.packet;
    r := kexS.ParseKexdhInit(m);
  }

  /** What both ends hash is the same, once they saved the same announcements and exchanged the same numbers. */
  lemma SameTranscript(c: Transport, s: Transport, kexC: KexGroup1, kexS: KexGroup1, key: bytes)
    requires Peers(c, s) && SameAnnouncements(c, s)
    requires kexC.transport == c && kexS.transport == s && kexS.P == kexC.P > 0 && kexS.G == kexC.G
    requires kexC.e == kexS.e == ModPow(kexC.G, kexC.x, kexC.P) && kexC.f == kexS.f == ModPow(kexS.G, kexS.x, kexS.P)
    ensures kexC.ClientTranscript(key) == kexS.ServerTranscript(key)
    ensures ModPow(kexC.f, kexC.x, kexC.P) == ModPow(kexS.e, kexS.x, kexS.P)
  {
    SharedSecret(kexC.G, kexC.x, kexS.x, kexC.P);
  }

  /**
   * The client receives the reply; since both transcripts are the same, so are the hashes, and the signature is good.
   */
  method ClientTurn(c: Transport, s: Transport, kexC: KexGroup1, kexS: KexGroup1, ghost key: bytes, ghost k: int)
    returns (r: Outcome)
    requires Peers(c, s) && SameAlgorithms(c, s) && SameAnnouncements(c, s)
    requires kexC.transport == c && kexS.transport == s && kexC != kexS && kexS.P == kexC.P > 0 && kexS.G == kexC.G
    requires kexC.e == kexS.e == ModPow(kexC.G, kexC.x, kexC.P) && kexS.f == ModPow(kexS.G, kexS.x, kexS.P)
    requires AllPackable(ReplyFields(s.suite, key, kexS.f, s.H)) && |s.outbox| >= 2
    requires s.outbox[|s.outbox| - 2] == ReplyPayload(s.suite, key, kexS.f, s.H)
    requires k == ModPow(kexS.e, kexS.x, kexS.P) && s.Holds(c.sessionId, k, kexS.ServerTranscript(key))
    modifies kexC`f, c`K, c`H, c`sessionId, c`outKeys, c`outbox
    ensures r == Fine || r == Failed(OutOfRange)
    ensures r == Failed(OutOfRange) <==> !(1 <= kexS.f <= kexS.P - 1)
    ensures r == Fine ==>
              && c.Holds(old(c.sessionId), k, kexS.ServerTranscript(key)) && c.outKeys == Some(c.LocalKeys())
              && c.outbox == old(c.outbox) + [[MSG_NEWKEYS]]
    ensures old(c.sessionId).Some? ==> c.sessionId == old(c.sessionId)
  {
    var m := new Message(s.outbox[|s.outbox| - 2][1..]);
    ghost var reply := ReplyFields(s.suite, key, kexS.f, s.H);
    ReadReplyMessage(reply);
    assert m.Remainder() == m.packet;
    ghost var hostKey, sig;
    ghost var before, fields := c.sessionId, kexS.ServerTranscript(key);
    r, hostKey, sig := kexC.ParseKexdhReply(m);
    assert kexS.ServerTranscript(key) == fields;
    assert s.Holds(before, k, fields);
    assert reply == [Str(hostKey), Mpint(kexC.f), Str(sig)];
    assert hostKey == key && kexC.f == kexS.f && sig == s.suite.sign(key, s.H);
    SameTranscript(c, s, kexC, kexS, key);
    if r == Fine || r == Failed(BadSignature) {
      SignatureIsGood(c, s, before, k, fields, key);
    }
    OutcomeCases(r);
  }

  lemma OutcomeCases(r: Outcome)
    ensures r == Fine || r == Failed(OutOfRange) || r == Failed(BadSignature) || r == Failed(NotPackable)
  {
    match r
    case Fine =>
    case Failed(f) => assert f == OutOfRange || f == BadSignature || f == NotPackable;
  }

  /** Equal transcripts give equal hashes, so what the server signed is what the client checks. */
  lemma SignatureIsGood(c: Transport, s: Transport, before: Option<bytes>, k: int, fields: seq<Field>, key: bytes)
    requires Peers(c, s) && SameAlgorithms(c, s)
    requires c.Holds(before, k, fields) && s.Holds(before, k, fields)
    ensures c.suite.verify(key, c.H, s.suite.sign(key, s.H))
  {
  }

  /** Both ends switch the receiving direction. */
  method SwitchInbound(c: Transport, s: Transport, ghost before: Option<bytes>, ghost k: int, ghost fields: seq<Field>)
    requires Peers(c, s) && SameAlgorithms(c, s)
    requires c.Holds(before, k, fields) && s.Holds(before, k, fields)
    requires c.outKeys == Some(c.LocalKeys()) && s.outKeys == Some(s.LocalKeys())
    modifies c`inKeys, c`localKexInit, c`remoteKexInit, s`inKeys, s`localKexInit, s`remoteKexInit
    ensures InAgreement(c, s) && c.Holds(before, k, fields) && s.Holds(before, k, fields)
  {
    c.ParseNewKeys();
    s.ParseNewKeys();
  }

  /** Everything that goes into a message has room in its length field. */
  ghost predicate Roomy(c: Transport, s: Transport, P: int)
    reads c`localKexInit, s`localKexInit
  {
    && |c.localVersion| < WORD && |s.localVersion| < WORD
    && (c.localKexInit.Some? ==> |c.localKexInit.value| < WORD)
    && (s.localKexInit.Some? ==> |s.localKexInit.value| < WORD)
    && (forall n :: 0 <= n < P ==> Packable(Mpint(n)))
    && (forall name :: name in s.serverKeys ==> RoomyKey(s, s.serverKeys[name]))
  }

  ghost predicate RoomyKey(s: Transport, key: bytes) {
    |key| < WORD && forall h :: |s.suite.sign(key, h)| < WORD
  }

  lemma RoomyFields(c: Transport, s: Transport, kexS: KexGroup1, key: bytes)
    requires Peers(c, s) && SameAnnouncements(c, s) && SameAlgorithms(c, s) && kexS.transport == s && kexS.P > 0
    requires Roomy(c, s, kexS.P) && key == s.serverKeys[s.agreed.value.hostKey]
    requires 0 <= kexS.e < kexS.P && 0 <= kexS.f < kexS.P
    ensures AllPackable(kexS.ServerTranscript(key)) && AllPackable(ReplyFields(s.suite, key, kexS.f, s.H))
  {
    hide ReplyFields, TranscriptFields;
    assert RoomyKey(s, key);
    var k := ModPow(kexS.e, kexS.x, kexS.P);
    assert Packable(Mpint(k));
    ShortTranscript(s.remoteVersion, s.localVersion, s.remoteKexInit.value, s.localKexInit.value, key, kexS.e, kexS.f,
        k);
    ShortReply(s.suite, key, kexS.f, s.H);
  }

  lemma ShortTranscript(vc: bytes, vs: bytes, initC: bytes, initS: bytes, ks: bytes, e: int, f: int, k: int)
    requires |vc| < WORD && |vs| < WORD && |initC| < WORD && |initS| < WORD && |ks| < WORD
    requires Packable(Mpint(e)) && Packable(Mpint(f)) && Packable(Mpint(k))
    ensures AllPackable(TranscriptFields(vc, vs, initC, initS, ks, e, f, k))
  {
  }

  lemma ShortReply(suite: Suite, key: bytes, f: int, h: bytes)
    requires |key| < WORD && Packable(Mpint(f)) && |suite.sign(key, h)| < WORD
    ensures AllPackable(ReplyFields(suite, key, f, h))
  {
  }

  /** From the first public value to the new keys. */
  method Trade(c: Transport, s: Transport, kexC: KexGroup1, kexS: KexGroup1) returns (r: Outcome)
    requires Peers(c, s) && SameAlgorithms(c, s) && SameAnnouncements(c, s)
    requires kexC.transport == c && kexS.transport == s && kexC != kexS && kexS.P == kexC.P > 0 && kexS.G == kexC.G
    requires c.sessionId == s.sessionId
    modifies kexC, kexS, c`K, c`H, c`sessionId, c`outKeys, c`inKeys, c`localKexInit, c`remoteKexInit, c`outbox
    modifies s`K, s`H, s`sessionId, s`outKeys, s`inKeys, s`localKexInit, s`remoteKexInit, s`outbox
    ensures r == Fine ==>
              var g := Group(kexC.P, kexC.G, old(kexC.x), old(kexS.x));
              var key := s.serverKeys[c.agreed.value.hostKey];
              var fields := Transcript(c, s, old(c.localKexInit.value), old(s.localKexInit.value), key, g);
              && InAgreement(c, s) && c.Holds(old(c.sessionId), Secret(g), fields)
              && s.Holds(old(c.sessionId), Secret(g), fields)
              && Packable(Mpint(ClientValue(g))) && AllPackable(ReplyFields(s.suite, key, ServerValue(g), s.H))
              && c.outbox == old(c.outbox) + [InitMessage(ClientValue(g)), [MSG_NEWKEYS]]
              && s.outbox == old(s.outbox) + [ReplyPayload(s.suite, key, ServerValue(g), s.H), [MSG_NEWKEYS]]
              && ClientValue(g) != 0 && ServerValue(g) != 0
    ensures r != Failed(BadSignature)
    ensures old(Roomy(c, s, kexC.P)) ==> r != Failed(NotPackable)
    ensures r == Failed(OutOfRange) ==>
              ModPow(kexC.G, old(kexC.x), kexC.P) == 0 || ModPow(kexS.G, old(kexS.x), kexS.P) == 0
    ensures old(c.sessionId).Some? ==> c.sessionId == s.sessionId == old(c.sessionId)
  {
    hide InAgreement, Transport.Holds, Transport.LocalKeys, Peers, Transcript, WireAll, ReplyFields, InitMessage;
    hide ReplyPayload, ModPow, Roomy;
    ghost var before, g := c.sessionId, Group(kexC.P, kexC.G, kexC.x, kexS.x);
    SharedSecret(g.G, g.x, g.y, g.P);
    ghost var key;
    r, key := PublicValues(c, s, kexC, kexS, g);
    if r != Fine {
      return;
    }
    ghost var k, fields := ModPow(kexS.e, kexS.x, kexS.P), kexS.ServerTranscript(key);
    SeenFromOutside(c, s, kexC, kexS, key);
    r := ClientTurn(c, s, kexC, kexS, key, k);
    if r != Fine {
      return;
    }
    SwitchInbound(c, s, before, k, fields);
  }

  /** The first half of it: the client's value goes over, and the server answers with its own. */
  method PublicValues(c: Transport, s: Transport, kexC: KexGroup1, kexS: KexGroup1, ghost g: Group)
    returns (r: Outcome, ghost key: bytes)
    requires Peers(c, s) && SameAlgorithms(c, s) && SameAnnouncements(c, s)
    requires kexC.transport == c && kexS.transport == s && kexC != kexS && kexS.P == kexC.P == g.P
             && kexS.G == kexC.G == g.G
    requires kexC.x == g.x && kexS.x == g.y
    modifies kexC`e, kexC`f, kexS`e, kexS`f, c`outbox, s`K, s`H, s`sessionId, s`outKeys, s`outbox
    ensures r != Failed(BadSignature)
    ensures r == Failed(NotPackable) ==> !old(Roomy(c, s, g.P))
    ensures r == Failed(OutOfRange) ==> ClientValue(g) == 0
    ensures old(s.sessionId).Some? ==> s.sessionId == old(s.sessionId)
    ensures r == Fine ==>
              && key == s.serverKeys[c.agreed.value.hostKey] && ClientValue(g) != 0
              && kexC.e == kexS.e == ClientValue(g) && kexS.f == ServerValue(g)
              && s.Holds(old(s.sessionId), ModPow(kexS.e, kexS.x, kexS.P), kexS.ServerTranscript(key))
              && s.outKeys == Some(s.LocalKeys())
              && Packable(Mpint(ClientValue(g))) && c.outbox == old(c.outbox) + [InitMessage(ClientValue(g))]
              && AllPackable(ReplyFields(s.suite, key, ServerValue(g), s.H))
              && s.outbox == old(s.outbox) + [ReplyPayload(s.suite, key, ServerValue(g), s.H), [MSG_NEWKEYS]]
  {
    hide WireAll, ReplyFields, InitMessage, ReplyPayload;
    key := [];
    r := kexS.StartKex();
    r := kexC.StartKex();
    if r != Fine {
      return Failed(NotPackable), key;
    }
    r, key := ServerTurn(c, s, kexC, kexS);
    if r == Failed(NotPackable) && Roomy(c, s, kexS.P) {
      RoomyFields(c, s, kexS, key);
    }
  }

  type Modulus = p: int | p > 0 witness 1

  /** A group and the exponent of each end. */
  datatype Group = Group(P: Modulus, G: int, x: nat, y: nat)

  function ClientValue(g: Group): int
  {
    ModPow(g.G, g.x, g.P)
  }

  function ServerValue(g: Group): int
  {
    ModPow(g.G, g.y, g.P)
  }

  function Secret(g: Group): int
  {
    ModPow(ClientValue(g), g.y, g.P)
  }

  /** What both ends hash, told from the outside. */
  ghost function Transcript(c: Transport, s: Transport, initC: bytes, initS: bytes, key: bytes, g: Group): seq<Field>
  {
    TranscriptFields(c.localVersion, s.localVersion, initC, initS, key, ClientValue(g), ServerValue(g), Secret(g))
  }

  lemma SeenFromOutside(c: Transport, s: Transport, kexC: KexGroup1, kexS: KexGroup1, key: bytes)
    requires Peers(c, s) && SameAnnouncements(c, s)
    requires kexS.transport == s && kexC.P == kexS.P > 0 && kexC.G == kexS.G
    requires kexS.e == ModPow(kexC.G, kexC.x, kexC.P) && kexS.f == ModPow(kexS.G, kexS.x, kexS.P)
    ensures kexS.ServerTranscript(key)
            == Transcript(c, s, c.localKexInit.value, s.localKexInit.value, key, Group(kexC.P, kexC.G, kexC.x, kexS.x))
  {
  }

  /** What varies from one exchange to the next: the group with the exponents, and the cookies of both ends. */
  datatype Round = Round(g: Group, cookieC: Cookie, cookieS: Cookie)

  type Cookie = c: bytes | |c| == 16 witness seq(16, _ => 0)

  ghost function ClientInit(c: Transport, round: Round): bytes
    requires Announceable(OfferOf(c.preferred, c.AvailableKeys()))
  {
    InitPayload(OfferOf(c.preferred, c.AvailableKeys()), round.cookieC)
  }

  ghost function ServerInit(s: Transport, round: Round): bytes
    requires Announceable(OfferOf(s.preferred, s.AvailableKeys()))
  {
    InitPayload(OfferOf(s.preferred, s.AvailableKeys()), round.cookieS)
  }

  /** What the client's end makes of the server's offer; the same in every exchange of a connection. */
  ghost function Pick(c: Transport, s: Transport): Negotiated {
    Negotiate(false, c.preferred, c.AvailableKeys(), OfferOf(s.preferred, s.AvailableKeys()))
  }

  /** The hash of the transcript that a round's inputs stand for. */
  ghost predicate IsHashOf(c: Transport, s: Transport, round: Round, h: bytes)
    requires Peers(c, s)
  {
    && Pick(c, s).Agreed? && Pick(c, s).a.hostKey in s.serverKeys
    && var fields := Transcript(c, s, ClientInit(c, round), ServerInit(s, round), s.serverKeys[Pick(c, s).a.hostKey],
       round.g);
    && AllPackable(fields) && h == c.suite.hash(Pick(c, s).a.kex, WireAll(fields))
  }

  /**
   * A hash of bytes that read as both versions, both announcements, the host key, both public values and the secret.
   */
  ghost predicate Covers(c: Transport, s: Transport, initC: bytes, initS: bytes, a: Agreement, g: Group, h: bytes) {
    && a.hostKey in s.serverKeys
    && exists w ::
         && h == c.suite.hash(a.kex, w)
         && HashedAs(w, c.localVersion, s.localVersion, initC, initS, s.serverKeys[a.hostKey], ModPow(g.G, g.x, g.P),
                ModPow(g.G, g.y, g.P), ModPow(ModPow(g.G, g.x, g.P), g.y, g.P))
  }

  lemma HashCovers(c: Transport, s: Transport, round: Round, h: bytes)
    requires Peers(c, s) && IsHashOf(c, s, round, h)
    ensures Covers(c, s, ClientInit(c, round), ServerInit(s, round), Pick(c, s).a, round.g, h)
  {
    hide TranscriptFields, Packable, Negotiate, Announceable, InitPayload, ModPow, HashedAs, AllPackable;
    var g := round.g;
    var e, f := ModPow(g.G, g.x, g.P), ModPow(g.G, g.y, g.P);
    TranscriptReads(c.localVersion, s.localVersion, ClientInit(c, round), ServerInit(s, round),
        s.serverKeys[Pick(c, s).a.hostKey], e, f, ModPow(e, g.y, g.P));
  }

  /** The packets of a completed exchange, in the order each end sent its own. */
  ghost predicate Exchanged(c: Transport, s: Transport, round: Round, fromC: seq<bytes>, fromS: seq<bytes>)
    reads s`H
    requires Peers(c, s) && Pick(c, s).Agreed? && Pick(c, s).a.hostKey in s.serverKeys
  {
    var key := s.serverKeys[Pick(c, s).a.hostKey];
    && Packable(Mpint(ClientValue(round.g))) && AllPackable(ReplyFields(s.suite, key, ServerValue(round.g), s.H))
    && fromC == [ClientInit(c, round), InitMessage(ClientValue(round.g)), [MSG_NEWKEYS]]
    && fromS == [ServerInit(s, round), ReplyPayload(s.suite, key, ServerValue(round.g), s.H), [MSG_NEWKEYS]]
  }

  /** What these packets are to a reader: announcements, both public values, the key and its signature, and NEWKEYS. */
  lemma PacketsRead(c: Transport, s: Transport, round: Round, fromC: seq<bytes>, fromS: seq<bytes>)
    requires Peers(c, s) && Pick(c, s).Agreed? && Pick(c, s).a.hostKey in s.serverKeys
    requires Exchanged(c, s, round, fromC, fromS)
    ensures |fromC| == |fromS| == 3
    ensures fromC[0] != [] && fromC[0][0] == 20 && fromS[0] != [] && fromS[0][0] == 20
    ensures fromC[1] != [] && fromC[1][0] == 30 && fromS[1] != [] && fromS[1][0] == 31
    ensures fromC[2] == fromS[2] == [21]
    ensures var g, key := round.g, s.serverKeys[Pick(c, s).a.hostKey];
            && ReadField(MpintKind, fromC[1][1..]).0 == Mpint(ModPow(g.G, g.x, g.P))
            && ReadAll([StrKind, MpintKind, StrKind], fromS[1][1..]).0
               == [Str(key), Mpint(ModPow(g.G, g.y, g.P)), Str(s.suite.sign(key, s.H))]
  {
    hide Negotiate, Announceable, WireAll, Packable, AllPackable, ReadField, ReadAll, ModPow;
    ReadInitMessage(ClientValue(round.g));
    ReadReplyMessage(ReplyFields(s.suite, s.serverKeys[Pick(c, s).a.hostKey], ServerValue(round.g), s.H));
  }

  /**
   * What an exchange's result says about its inputs. Completing means the offers met and neither public value was 0;
   * and an exchange does complete unless the offers do not meet, a public value is 0 modulo P, or something is too
   * long for its length field.
   */
  ghost predicate Explained(c: Transport, s: Transport, round: Round, r: ExchangeResult)
    requires Peers(c, s)
  {
    match r
    case Complete => Pick(c, s).Agreed? && ClientValue(round.g) != 0 && ServerValue(round.g) != 0
    case NoAgreement(why) => Pick(c, s) == Refused(why)
    case Broken(f) =>
      && Pick(c, s).Agreed?
      && match f
         case OutOfRange => ClientValue(round.g) == 0 || ServerValue(round.g) == 0
         case NotPackable => !RoomyOffers(c, s, round)
         case BadSignature => false
  }

  /**
   * One whole exchange, first or later. If it completes, both ends hold the secret and the hash of the transcript of
   * this exchange, the first such hash is the session id, and both use the keys derived from them.
   */
  method Exchange(c: Transport, s: Transport, round: Round) returns (r: ExchangeResult)
    requires Peers(c, s)
    requires c.sessionId == s.sessionId
    modifies c, s
    ensures Explained(c, s, round, r)
    ensures r == Complete ==>
              && InAgreement(c, s) && c.K == Secret(round.g) && IsHashOf(c, s, round, c.H)
              && c.agreed == Some(Pick(c, s).a)
              && c.sessionId == if old(c.sessionId) == None then Some(c.H) else old(c.sessionId)
    ensures r == Complete ==>
              && old(c.outbox) <= c.outbox && old(s.outbox) <= s.outbox
              && Exchanged(c, s, round, c.outbox[|old(c.outbox)|..], s.outbox[|old(s.outbox)|..])
              && HasKeys(c)
              && Covers(c, s, c.outbox[|old(c.outbox)|], s.outbox[|old(s.outbox)|], c.agreed.value, round.g, c.H)
    ensures old(c.sessionId).Some? ==> c.sessionId == s.sessionId == old(c.sessionId)
  {
    hide InAgreement, Negotiate, RoomyKey, InitPayload, ReplyPayload, InitMessage, ReplyFields, TranscriptFields;
    hide Packable, AllPackable, ModPow, HasKeys, Covers;
    var refused := Announce(c, s, round.cookieC, round.cookieS);
    if refused.Some? {
      return NoAgreement(refused.value);
    }
    var kexC := new KexGroup1(c, round.g.P, round.g.G, round.g.x);
    var kexS := new KexGroup1(s, round.g.P, round.g.G, round.g.y);
    var broken := Trade(c, s, kexC, kexS);
    OutcomeCases(broken);
    if broken.Failed? {
      return Broken(broken.f);
    }
    AgreementHasKeys(c, s);
    HashCovers(c, s, round, c.H);
    r := Complete;
  }

  /** The same before anything is announced. */
  ghost predicate RoomyOffers(c: Transport, s: Transport, round: Round)
    requires Peers(c, s)
  {
    && |c.localVersion| < WORD && |s.localVersion| < WORD
    && |ClientInit(c, round)| < WORD && |ServerInit(s, round)| < WORD
    && (forall n :: 0 <= n < round.g.P ==> Packable(Mpint(n)))
    && (forall name :: name in s.serverKeys ==> RoomyKey(s, s.serverKeys[name]))
  }

  /**
   * A connection's first exchange and every rekey after it, until one does not complete. The hashes are those of the
   * transcripts, each round's its own; the session id is the first of them and stays it, even if a later exchange
   * breaks off; and what breaks the run off has its cause.
   */
  method Exchanges(c: Transport, s: Transport, rounds: seq<Round>)
    returns (completed: nat, last: ExchangeResult, ghost hashes: seq<bytes>)
    requires Peers(c, s) && c.sessionId == s.sessionId == None
    modifies c, s
    ensures completed == |hashes| <= |rounds|
    ensures forall i :: 0 <= i < completed ==> IsHashOf(c, s, rounds[i], hashes[i])
    ensures completed > 0 ==> c.sessionId == s.sessionId == Some(hashes[0])
    ensures if completed < |rounds| then last != Complete && Explained(c, s, rounds[completed], last)
            else last == Complete
    ensures completed == |rounds| > 0 ==>
              InAgreement(c, s) && c.H == hashes[completed - 1] && c.K == Secret(rounds[completed - 1].g)
  {
    hide InAgreement, IsHashOf, Exchanged, Explained, HasKeys, Covers, Secret, Pick, Announceable;
    completed, last, hashes := 0, Complete, [];
    while completed < |rounds|
      invariant completed == |hashes| <= |rounds| && last == Complete && c.sessionId == s.sessionId
      invariant completed == 0 ==> c.sessionId == None
      invariant completed > 0 ==>
                  && InAgreement(c, s) && c.H == hashes[completed - 1] && c.K == Secret(rounds[completed - 1].g)
                  && c.sessionId == Some(hashes[0])
      invariant forall i :: 0 <= i < completed ==> IsHashOf(c, s, rounds[i], hashes[i])
    {
      last := Exchange(c, s, rounds[completed]);
      if last != Complete {
        return;
      }
      SameSession(c, s);
      hashes := hashes + [c.H];
      completed := completed + 1;
    }
  }

  lemma SameSession(c: Transport, s: Transport)
    requires InAgreement(c, s)
    ensures c.sessionId == s.sessionId
  {
  }
}
