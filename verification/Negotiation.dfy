/** The key exchange announcement: writing it, reading it back, and picking algorithms on both ends. */
module Negotiation {
  import opened Bytes
  import opened Messages

  const MSG_KEXINIT: byte := 20

  /** The name lists of an announcement, in order of preference. */
  datatype Offer = Offer(
    kex: seq<bytes>, keys: seq<bytes>,
    encryptC2S: seq<bytes>, encryptS2C: seq<bytes>,
    macC2S: seq<bytes>, macS2C: seq<bytes>,
    compressC2S: seq<bytes>, compressS2C: seq<bytes>)

  /** What one end prefers; it offers the same lists for both directions. */
  datatype Preferences = Preferences(kex: seq<bytes>, keys: seq<bytes>, ciphers: seq<bytes>, macs: seq<bytes>,
      compression: seq<bytes>)

  /** The names a server has host keys for are the only ones it offers; a client offers all it knows. */
  function OfferOf(p: Preferences, availableKeys: seq<bytes>): Offer {
    Offer(p.kex, availableKeys, p.ciphers, p.ciphers, p.macs, p.macs, p.compression, p.compression)
  }

  // ---- the message ----

  function InitFields(o: Offer, cookie: bytes): (fs: seq<Field>)
    ensures |fs| == 13
  {
    [Raw(cookie), Names(o.kex), Names(o.keys), Names(o.encryptC2S), Names(o.encryptS2C), Names(o.macC2S),
        Names(o.macS2C),
     Names(o.compressC2S), Names(o.compressS2C), Str([]), Str([]), Flag(false), Int(0)]
  }

  /** The getters an announcement is read with; the two language lists are empty strings read as lists. */
  const INIT_KINDS: seq<Kind> :=
    [RawKind(16), NamesKind, NamesKind, NamesKind, NamesKind, NamesKind, NamesKind, NamesKind, NamesKind,
     NamesKind, NamesKind, FlagKind, IntKind]

  predicate Announceable(o: Offer) {
    forall f :: f in InitFields(o, []) ==> Packable(f) && Separable(f)
  }

  function InitPayload(o: Offer, cookie: bytes): bytes
    requires Announceable(o)
  {
    InitPackable(o, cookie);
    [MSG_KEXINIT] + WireAll(InitFields(o, cookie))
  }

  lemma InitPackable(o: Offer, cookie: bytes)
    requires Announceable(o)
    ensures forall f :: f in InitFields(o, cookie) ==> Packable(f) && Separable(f)
  {
    var a, b := InitFields(o, []), InitFields(o, cookie);
    assert forall i :: 1 <= i < 13 ==> b[i] == a[i] && a[i] in a;
  }

  /** The lists of an announcement, from the fields that were read. */
  function OfferIn(fs: seq<Field>): Offer
    requires |fs| == 13 && forall i :: 1 <= i <= 8 ==> fs[i].Names?
  {
    Offer(fs[1].names, fs[2].names, fs[3].names, fs[4].names, fs[5].names, fs[6].names, fs[7].names, fs[8].names)
  }

  /** What the getter of a kind returns. */
  predicate OfKind(f: Field, k: Kind) {
    (k.NamesKind? ==> f.Names?) && (k.StrKind? ==> f.Str?) && (k.MpintKind? ==> f.Mpint?)
  }

  lemma {:induction false} ReadAllShape(kinds: seq<Kind>, r: bytes)
    ensures |ReadAll(kinds, r).0| == |kinds|
    ensures forall i :: 0 <= i < |kinds| ==> OfKind(ReadAll(kinds, r).0[i], kinds[i])
  {
    if kinds != [] {
      assert OfKind(ReadField(kinds[0], r).0, kinds[0]);
      hide OfKind, ReadField;
      var rest := ReadAll(kinds[1..], ReadField(kinds[0], r).1).0;
      ReadAllShape(kinds[1..], ReadField(kinds[0], r).1);
      assert ReadAll(kinds, r).0 == [ReadField(kinds[0], r).0] + rest;
      forall i | 0 <= i < |kinds|
        ensures OfKind(ReadAll(kinds, r).0[i], kinds[i])
      {
        assert i > 0 ==> kinds[i] == kinds[1..][i - 1] && ReadAll(kinds, r).0[i] == rest[i - 1];
      }
    }
  }

  /** An empty string read as a list is a list of one empty name. */
  lemma ReadsEmptyList()
    ensures ReadsAs(NamesKind, Str([]), Names([[]]))
  {
    forall rest: bytes
      ensures ReadField(NamesKind, Wire(Str([])) + rest) == (Names([[]]), rest)
    {
      ReadStringOfWire([], rest);
    }
  }

  /** What stands in an announcement, field by field. */
  lemma InitLayout(p: Preferences, availableKeys: seq<bytes>, cookie: bytes)
    requires Announceable(OfferOf(p, availableKeys)) && |cookie| == 16
    ensures var packet, none := InitPayload(OfferOf(p, availableKeys), cookie), [[]];
            && packet[0] == 20
            && ReadAll(INIT_KINDS, packet[1..])
               == ([Raw(cookie), Names(p.kex), Names(availableKeys), Names(p.ciphers), Names(p.ciphers), Names(p.macs),
                    Names(p.macs), Names(p.compression), Names(p.compression), Names(none), Names(none), Flag(false),
                    Int(0)], [])
  {
    ReadFields(OfferOf(p, availableKeys), cookie);
    var fs := InitFields(OfferOf(p, availableKeys), cookie);
    assert fs[9 := Names([[]])][10 := Names([[]])]
        == [Raw(cookie), Names(p.kex), Names(availableKeys), Names(p.ciphers), Names(p.ciphers), Names(p.macs),
            Names(p.macs), Names(p.compression), Names(p.compression), Names([[]]), Names([[]]), Flag(false), Int(0)];
  }

  /** The offer that was sent is the offer that is read, and everything but the type byte has then been consumed. */
  lemma ReadInit(o: Offer, cookie: bytes)
    requires Announceable(o) && |cookie| == 16
    ensures var (fs, rest) := ReadAll(INIT_KINDS, InitPayload(o, cookie)[1..]);
            && rest == [] && |fs| == 13 && (forall i :: 1 <= i <= 8 ==> fs[i].Names?)
            && OfferIn(fs) == o
  {
    ReadFields(o, cookie);
  }

  lemma ReadFields(o: Offer, cookie: bytes)
    requires Announceable(o) && |cookie| == 16
    ensures ReadAll(INIT_KINDS, InitPayload(o, cookie)[1..])
            == (InitFields(o, cookie)[9 := Names([[]])][10 := Names([[]])], [])
  {
    hide Wire, ReadField, Packable;
    InitPackable(o, cookie);
    var fs := InitFields(o, cookie);
    var got := fs[9 := Names([[]])][10 := Names([[]])];
    forall i | 0 <= i < 13
      ensures ReadsAs(INIT_KINDS[i], fs[i], got[i])
    {
      if i == 9 || i == 10 {
        ReadsEmptyList();
      } else {
        assert KindOf(fs[i]) == INIT_KINDS[i] && fs[i] in fs;
        ReadsBack(fs[i]);
      }
    }
    ReadAllAs(INIT_KINDS, fs, got, []);
    assert WireAll(fs) + [] == WireAll(fs);
    assert InitPayload(o, cookie)[1..] == WireAll(fs);
  }

  // ---- agreeing ----

  /** The names of `list` that `allowed` contains, in the order of `list`. */
  function Filter(list: seq<bytes>, allowed: set<bytes>): seq<bytes> {
    if list == [] then []
    else (if list[0] in allowed then [list[0]] else []) + Filter(list[1..], allowed)
  }

  lemma {:induction false} FilterKeeps(list: seq<bytes>, allowed: set<bytes>)
    ensures forall name :: name in Filter(list, allowed) <==> name in list && name in allowed
  {
    if list == [] {
    } else {
      FilterKeeps(list[1..], allowed);
      assert list == [list[0]] + list[1..];
    }
  }

  /** Filtering keeps the order. */
  lemma {:induction false} FilterInOrder(a: seq<bytes>, b: seq<bytes>, allowed: set<bytes>)
    ensures Filter(a + b, allowed) == Filter(a, allowed) + Filter(b, allowed)
  {
    if a == [] {
      assert a + b == b;
    } else {
      assert (a + b)[1..] == a[1..] + b;
      FilterInOrder(a[1..], b, allowed);
    }
  }

  /** Filtering keeps nothing just when no name is allowed; otherwise it starts with the first allowed name. */
  lemma {:induction false} FilterFirst(list: seq<bytes>, allowed: set<bytes>)
    ensures Filter(list, allowed) == [] <==> forall s :: s in list ==> s !in allowed
    ensures Filter(list, allowed) != [] ==>
              exists i :: 0 <= i < |list| && list[i] == Filter(list, allowed)[0] && list[i] in allowed
                          && forall j :: 0 <= j < i ==> list[j] !in allowed
  {
    if list == [] {
    } else if list[0] !in allowed {
      var tail := list[1..];
      FilterFirst(tail, allowed);
      assert list == [list[0]] + tail;
      if Filter(tail, allowed) != [] {
        var i :| 0 <= i < |tail| && tail[i] == Filter(tail, allowed)[0] && tail[i] in allowed
                 && forall j :: 0 <= j < i ==> tail[j] !in allowed;
        assert forall j :: 0 <= j < i + 1 ==> list[j] !in allowed;
        assert list[i + 1] == tail[i];
      }
    }
  }

  datatype Agreement = Agreement(
    kex: bytes, hostKey: bytes,
    localCipher: bytes, remoteCipher: bytes, localMac: bytes, remoteMac: bytes,
    localCompression: bytes, remoteCompression: bytes)

  /** Which agreement failed first. */
  datatype Mismatch = NoKex | NoHostKey | NoCipher | NoMac | NoCompression

  datatype Negotiated = Agreed(a: Agreement) | Refused(why: Mismatch)

  function Elements(list: seq<bytes>): set<bytes> {
    set name | name in list
  }

  /** Names on both lists, in the client's order whichever end computes them. */
  function Common(serverMode: bool, ours: seq<bytes>, theirs: seq<bytes>): seq<bytes> {
    if serverMode then Filter(theirs, Elements(ours)) else Filter(ours, Elements(theirs))
  }

  /**
   * What one end makes of the other's offer: of each kind the common name the client likes best, or the first kind
   * without one.
   */
  function Negotiate(serverMode: bool, p: Preferences, availableKeys: seq<bytes>, peer: Offer): Negotiated {
    var kex := Common(serverMode, p.kex, peer.kex);
    if kex == [] then Refused(NoKex)
    else
      var keys := Common(serverMode, if serverMode then availableKeys else p.keys, peer.keys);
      if keys == [] then Refused(NoHostKey)
      else
        var localCiphers := Common(serverMode, p.ciphers, if serverMode then peer.encryptS2C else peer.encryptC2S);
        var remoteCiphers := Common(serverMode, p.ciphers, if serverMode then peer.encryptC2S else peer.encryptS2C);
        if localCiphers == [] || remoteCiphers == [] then Refused(NoCipher)
        else
          var localMacs := Common(serverMode, p.macs, if serverMode then peer.macS2C else peer.macC2S);
          var remoteMacs := Common(serverMode, p.macs, if serverMode then peer.macC2S else peer.macS2C);
          if localMacs == [] || remoteMacs == [] then Refused(NoMac)
          else
            var localComp := Common(serverMode, p.compression, if serverMode then peer.compressS2C
                else peer.compressC2S);
            var remoteComp := Common(serverMode, p.compression, if serverMode then peer.compressC2S
                else peer.compressS2C);
            if localComp == [] || remoteComp == [] then Refused(NoCompression)
            else Agreed(Agreement(kex[0], keys[0], localCiphers[0], remoteCiphers[0], localMacs[0], remoteMacs[0],
                                  localComp[0], remoteComp[0]))
  }

  /** The other end's view of an agreement. */
  function Mirrored(a: Agreement): Agreement {
    Agreement(a.kex, a.hostKey, a.remoteCipher, a.localCipher, a.remoteMac, a.localMac, a.remoteCompression,
        a.localCompression)
  }

  /**
   * Client and server pick the same algorithms, one's local being the other's remote, or refuse for the same reason.
   */
  lemma SamePick(client: Preferences, server: Preferences, serverKeys: seq<bytes>)
    ensures var c := Negotiate(false, client, client.keys, OfferOf(server, serverKeys));
            var s := Negotiate(true, server, serverKeys, OfferOf(client, client.keys));
            match c
            case Agreed(a) => s == Agreed(Mirrored(a))
            case Refused(why) => s == Refused(why)
  {
  }
  // ---- what an agreement is ----

  /** The name the client likes best among those the server has. */
  ghost predicate FirstCommon(name: bytes, client: seq<bytes>, server: seq<bytes>) {
    exists i :: 0 <= i < |client| && client[i] == name && name in server
                && forall j :: 0 <= j < i ==> client[j] !in server
  }

  ghost predicate Apart(client: seq<bytes>, server: seq<bytes>) {
    forall name :: name in client ==> name !in server
  }

  ghost predicate Best(serverMode: bool, name: bytes, ours: seq<bytes>, theirs: seq<bytes>) {
    if serverMode then FirstCommon(name, theirs, ours) else FirstCommon(name, ours, theirs)
  }

  /**
   * Of each kind the client's first name that the server has; otherwise the first kind without such a name. The
   * fields 3, 5 and 7 of an announcement are about the direction from client to server, 4, 6 and 8 about the other.
   */
  ghost predicate PicksFirst(serverMode: bool, p: Preferences, availableKeys: seq<bytes>, fs: seq<Field>, n: Negotiated)
    requires |fs| == 13 && forall i :: 1 <= i <= 8 ==> fs[i].Names?
  {
    var keys := if serverMode then availableKeys else p.keys;
    var out, into := if serverMode then 1 else 0, if serverMode then 0 else 1;
    match n
    case Agreed(a) =>
      && Best(serverMode, a.kex, p.kex, fs[1].names) && Best(serverMode, a.hostKey, keys, fs[2].names)
      && Best(serverMode, a.localCipher, p.ciphers, fs[3 + out].names)
      && Best(serverMode, a.remoteCipher, p.ciphers, fs[3 + into].names)
      && Best(serverMode, a.localMac, p.macs, fs[5 + out].names)
      && Best(serverMode, a.remoteMac, p.macs, fs[5 + into].names)
      && Best(serverMode, a.localCompression, p.compression, fs[7 + out].names)
      && Best(serverMode, a.remoteCompression, p.compression, fs[7 + into].names)
    case Refused(why) =>
      && (why == NoKex <==> Apart(p.kex, fs[1].names))
      && (why == NoHostKey <==> !Apart(p.kex, fs[1].names) && Apart(keys, fs[2].names))
      && (why == NoCipher ==>
            !Apart(keys, fs[2].names) && (Apart(p.ciphers, fs[3].names) || Apart(p.ciphers, fs[4].names)))
      && (why == NoMac ==>
            && !Apart(p.ciphers, fs[3].names) && !Apart(p.ciphers, fs[4].names)
            && (Apart(p.macs, fs[5].names) || Apart(p.macs, fs[6].names)))
      && (why == NoCompression ==>
            && !Apart(p.macs, fs[5].names) && !Apart(p.macs, fs[6].names)
            && (Apart(p.compression, fs[7].names) || Apart(p.compression, fs[8].names)))
  }

  lemma CommonIsBest(serverMode: bool, ours: seq<bytes>, theirs: seq<bytes>)
    ensures var common := Common(serverMode, ours, theirs);
            if common == [] then Apart(ours, theirs)
            else !Apart(ours, theirs) && Best(serverMode, common[0], ours, theirs)
  {
    var client, server := if serverMode then theirs else ours, if serverMode then ours else theirs;
    FilterFirst(client, Elements(server));
    var common := Filter(client, Elements(server));
    if common == [] {
      forall name | name in ours
        ensures name !in theirs
      {
        assert name in theirs ==> name in client && name in Elements(server);
      }
    } else {
      var i :| 0 <= i < |client| && client[i] == common[0] && client[i] in Elements(server)
               && forall j :: 0 <= j < i ==> client[j] !in Elements(server);
      assert FirstCommon(common[0], client, server);
      assert common[0] in ours && common[0] in theirs;
    }
  }

  lemma NegotiatePicksFirst(serverMode: bool, p: Preferences, availableKeys: seq<bytes>, fs: seq<Field>)
    requires |fs| == 13 && forall i :: 1 <= i <= 8 ==> fs[i].Names?
    ensures PicksFirst(serverMode, p, availableKeys, fs, Negotiate(serverMode, p, availableKeys, OfferIn(fs)))
  {
    hide Common, Apart, Best;
    CommonIsBest(serverMode, p.kex, fs[1].names);
    CommonIsBest(serverMode, if serverMode then availableKeys else p.keys, fs[2].names);
    CommonIsBest(serverMode, p.ciphers, fs[3].names);
    CommonIsBest(serverMode, p.ciphers, fs[4].names);
    CommonIsBest(serverMode, p.macs, fs[5].names);
    CommonIsBest(serverMode, p.macs, fs[6].names);
    CommonIsBest(serverMode, p.compression, fs[7].names);
    CommonIsBest(serverMode, p.compression, fs[8].names);
  }
}
