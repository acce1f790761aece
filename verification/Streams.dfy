/** A stream of messages between two packetizers: what one end is asked to send comes out of the other. */
module Streams {
  import opened Bytes
  import opened Framing
  import opened Packets
  import Accounting = Rekey

  // ---- the sender ----

  /** What a sender is asked to do: send a message, or switch the outbound keys; `sdctr` marks a counter mode cipher. */
  datatype Order = Send(data: bytes) | Rekey(keys: Keys, sdctr: bool)

  function DataOf(orders: seq<Order>): seq<bytes> {
    if orders == [] then []
    else (if orders[0].Send? then [orders[0].data] else []) + DataOf(orders[1..])
  }

  function CuesOf(orders: seq<Order>): seq<Cue> {
    if orders == [] then []
    else [if orders[0].Send? then Read else Install(orders[0].keys)] + CuesOf(orders[1..])
  }

  /** Both ends can use the keys of every switch. */
  ghost predicate Fitting(orders: seq<Order>) {
    forall i :: 0 <= i < |orders| && orders[i].Rekey? ==>
        Mirrors(Outbound(orders[i].keys, 0), Inbound(orders[i].keys, 0))
  }

  /** The n-th call of a run draws its padding from `random(n)`. */
  ghost predicate Draws(random: nat -> nat -> bytes) {
    forall i, n :: |random(i)(n)| == n
  }

  ghost predicate NoneEmpty(items: seq<Item>) {
    forall item :: item in items && item.Payload? ==> item.data != []
  }

  // ---- how much goes over the wire ----

  /** What the size of a frame depends on. */
  datatype Shape = Shape(blockSize: nat, macSize: nat)

  function ShapeOf(d: Direction): Shape {
    Shape(d.blockSize, if d.cipher.Cipher? then d.macSize else 0)
  }

  function KeyShape(k: Keys): Shape {
    ShapeOf(Outbound(k, 0))
  }

  function WireSize(sh: Shape, n: nat): nat
    requires sh.blockSize > 0
  {
    n + Padding(n, sh.blockSize) + 5 + sh.macSize
  }

  ghost function StreamSize(sh: Shape, orders: seq<Order>): nat
    requires sh.blockSize > 0 && Fitting(orders)
    decreases |orders|
  {
    if orders == [] then 0
    else
      FittingFirst(orders);
      match orders[0]
      case Send(data) => WireSize(sh, |data|) + StreamSize(sh, orders[1..])
      case Rekey(k, _) => StreamSize(KeyShape(k), orders[1..])
  }

  ghost function ShapeAfter(sh: Shape, orders: seq<Order>): (r: Shape)
    requires sh.blockSize > 0 && Fitting(orders)
    ensures r.blockSize > 0
    decreases |orders|
  {
    if orders == [] then sh
    else
      FittingFirst(orders);
      match orders[0]
      case Send(_) => ShapeAfter(sh, orders[1..])
      case Rekey(k, _) => ShapeAfter(KeyShape(k), orders[1..])
  }

  /** A MAC engine that gives at least as many bytes as are taken of it. */
  ghost predicate FullMac(d: Direction) {
    d.cipher.Cipher? ==> forall m :: |d.macEngine(d.macKey, m)| >= d.macSize
  }

  lemma FrameSize(o: Direction, data: bytes, pad: bytes)
    requires Usable(o) && Frameable(data, o.blockSize) && |pad| == Padding(|data|, o.blockSize)
    ensures var (o1, wire) := Frame(o, data, pad);
            && ShapeOf(o1) == ShapeOf(o) && (FullMac(o) ==> FullMac(o1))
            && |wire| <= WireSize(ShapeOf(o), |data|) && (FullMac(o) ==> |wire| == WireSize(ShapeOf(o), |data|))
  {
    PlainParts(data, pad, o.blockSize);
    CryptLength(o, Plain(data, pad));
  }

  lemma FittingPrefix(orders: seq<Order>, n: nat)
    requires n <= |orders| && Fitting(orders)
    ensures Fitting(orders[..n])
  {
    hide Mirrors;
  }

  lemma {:induction false} PrefixIsSmaller(sh: Shape, orders: seq<Order>, n: nat)
    requires sh.blockSize > 0 && Fitting(orders) && n <= |orders|
    ensures Fitting(orders[..n]) && StreamSize(sh, orders[..n]) <= StreamSize(sh, orders)
    decreases |orders|
  {
    hide Fitting, WireSize;
    FittingPrefix(orders, n);
    if n == 0 {
    } else {
      FittingFirst(orders);
      assert orders[..n][1..] == orders[1..][..n - 1];
      PrefixIsSmaller(if orders[0].Send? then sh else KeyShape(orders[0].keys), orders[1..], n - 1);
    }
  }

  /**
   * Why a sender stops at `orders[done]`: a message that cannot be sent as it is, or a socket that breaks, takes
   * nothing, or lets fewer calls through than the stream up to there has bytes.
   */
  ghost predicate Stopped(p: Packetizer, script: seq<Event>, sh: Shape, orders: seq<Order>, done: nat, why: SendOutcome)
    reads p`closed
    requires sh.blockSize > 0 && Fitting(orders) && done < |orders| && orders[done].Send?
  {
    FittingPrefix(orders, done);
    FittingPrefix(orders, done + 1);
    match why
    case Sent => false
    case EmptyData => orders[done].data == []
    case PackError => orders[done].data != [] && !Frameable(orders[done].data, ShapeAfter(sh, orders[..done]).blockSize)
    case NotSent(_) =>
      p.closed || Broken in script || Ready(0) in script || Readies(script, 1) < StreamSize(sh, orders[..done + 1])
  }

  /** One message as an item of the stream, if it goes out whole. */
  method SendOne(p: Packetizer, data: bytes, sdctr: bool, urandom: nat -> bytes)
    returns (r: SendOutcome, ghost item: Item, ghost wire: bytes)
    requires p.Valid() && forall n :: |urandom(n)| == n
    modifies p`blockEngineOut, p`sequenceNumberOut, p.socket
    modifies p`sentBytes, p`sentPackets, p`receivedBytesOverflow, p`receivedPacketsOverflow, p`needRekey
    ensures p.Valid() && Remains(p.socket.script, old(p.socket.script))
    ensures r.Sent? ==>
              && Frameable(data, old(p.blockSizeOut)) && item.Payload? && item.data == data != []
              && |item.pad| == Padding(|data|, old(p.blockSizeOut))
              && (p.Out(), wire) == Frame(old(p.Out()), data, item.pad)
    ensures p.socket.sent == old(p.socket.sent) + wire
    ensures r.Sent? ==> |wire| <= WireSize(ShapeOf(old(p.Out())), |data|) && ShapeOf(p.Out()) == ShapeOf(old(p.Out()))
    ensures r.Sent? ==> Readies(old(p.socket.script), 1) <= Readies(p.socket.script, 1) + |wire|
    ensures match r
            case Sent => true
            case EmptyData => data == [] && wire == []
            case PackError => data != [] && !Frameable(data, old(p.blockSizeOut)) && wire == []
            case NotSent(_) =>
              || p.closed || Broken in old(p.socket.script) || Ready(0) in old(p.socket.script)
              || Readies(old(p.socket.script), 1) < WireSize(ShapeOf(old(p.Out())), |data|)
  {
    hide Frame, ShapeOf, WireSize;
    ghost var pad;
    r, pad := p.SendMessage(data, sdctr, urandom);
    item, wire := Payload(data, pad), [];
    if r.Sent? || r.NotSent? {
      FrameSize(old(p.Out()), data, pad);
    }
    if r.Sent? {
      wire := Frame(old(p.Out()), data, pad).1;
    } else if r.NotSent? {
      ghost var whole := Frame(old(p.Out()), data, pad).1;
      ghost var k :| 0 <= k <= |whole| && p.socket.sent == old(p.socket.sent) + whole[..k];
      wire := whole[..k];
    }
  }

  /**
   * What a run of orders leaves behind, told from the direction, the script and the sent bytes at its start. The `done`
   * orders carried out have left exactly the framed stream of their messages on the socket; the first one that is not
   * carried out ends the run, and a piece of its frame may have gone out behind the stream.
   */
  ghost predicate Carried(p: Packetizer, o: Direction, script: seq<Event>, sent: bytes, orders: seq<Order>,
                          done: nat, why: SendOutcome, items: seq<Item>, partial: bytes)
    reads p, p.socket
    requires Usable(o) && Fitting(orders)
  {
    && p.Valid() && Remains(p.socket.script, script) && done <= |orders|
    && Sendable(o.blockSize, items) && NoneEmpty(items)
    && Payloads(items) == DataOf(orders[..done]) && Cues(items) == CuesOf(orders[..done])
    && p.socket.sent == sent + SendAll(o, items).1 + partial
    && (done == |orders| ==> partial == [] && p.Out() == SendAll(o, items).0)
    && (done < |orders| ==>
          && orders[done].Send? && (!why.NotSent? ==> partial == [])
          && Stopped(p, script, ShapeOf(o), orders, done, why))
  }

  /** Successive sends and outbound key switches. */
  method SendItems(p: Packetizer, orders: seq<Order>, sdctr: bool, random: nat -> nat -> bytes)
    returns (done: nat, why: SendOutcome, ghost items: seq<Item>, ghost partial: bytes)
    requires p.Valid() && Fitting(orders) && Draws(random)
    modifies p`blockEngineOut, p`blockSizeOut, p`macEngineOut, p`macSizeOut, p`macKeyOut, p`sequenceNumberOut
    modifies p`initCount, p`sentBytes, p`sentPackets, p`receivedBytesOverflow, p`receivedPacketsOverflow
    modifies p`needRekey, p.socket
    ensures Carried(p, old(p.Out()), old(p.socket.script), old(p.socket.sent), orders, done, why, items, partial)
    decreases orders
  {
    hide Carried, Frame, Padding, Frameable, Fitting, Mirrors, WireSize, ShapeOf, Remains, Readies;
    ghost var o, script, sent := p.Out(), p.socket.script, p.socket.sent;
    done, why, items, partial := 0, Sent, [], [];
    if orders == [] {
      NothingToCarry(p, orders);
      return;
    }
    FittingFirst(orders);
    if orders[0].Send? {
      ghost var first, wire;
      why, first, wire := SendOne(p, orders[0].data, sdctr, random(0));
      if !why.Sent? {
        partial := wire;
        StoppedFirst(p, o, script, sent, orders, why, partial);
        return;
      }
      ghost var o1, later := p.Out(), p.socket.script;
      done, why, items, partial := SendItems(p, orders[1..], sdctr, i => random(i + 1));
      CarriedAfterMessage(p, o, script, sent, orders, first, o1, wire, later, done, why, items, partial);
      items := [first] + items;
    } else {
      var k := orders[0].keys;
      SwitchKeys(p, k);
      done, why, items, partial := SendItems(p, orders[1..], orders[0].sdctr, random);
      CarriedAfterSwitch(p, o, script, sent, orders, done, why, items, partial);
      items := [Switch(k)] + items;
    }
    done := done + 1;
  }

  lemma NothingToCarry(p: Packetizer, orders: seq<Order>)
    requires p.Valid() && orders == [] && Fitting(orders)
    ensures Carried(p, p.Out(), p.socket.script, p.socket.sent, orders, 0, Sent, [], [])
  {
    NothingYet(p.Out(), orders);
    assert p.socket.sent + [] + [] == p.socket.sent;
  }

  lemma StoppedFirst(p: Packetizer, o: Direction, script: seq<Event>, sent: bytes, orders: seq<Order>,
                     why: SendOutcome, partial: bytes)
    requires p.Valid() && Usable(o) && Fitting(orders) && orders != [] && orders[0].Send?
    requires Remains(p.socket.script, script) && p.socket.sent == sent + partial
    requires match why
             case Sent => false
             case EmptyData => orders[0].data == [] && partial == []
             case PackError => orders[0].data != [] && !Frameable(orders[0].data, o.blockSize) && partial == []
             case NotSent(_) =>
               || p.closed || Broken in script || Ready(0) in script
               || Readies(script, 1) < WireSize(ShapeOf(o), |orders[0].data|)
    ensures Carried(p, o, script, sent, orders, 0, why, [], partial)
  {
    hide Mirrors, Fitting, Stopped, Readies, Remains, Frameable, WireSize;
    NothingYet(o, orders);
    assert sent + [] + partial == sent + partial;
    StoppedAtOnce(p, script, ShapeOf(o), orders, why);
  }

  lemma CarriedAfterMessage(p: Packetizer, o: Direction, script: seq<Event>, sent: bytes, orders: seq<Order>,
                            first: Item, o1: Direction, wire: bytes, later: seq<Event>,
                            done: nat, why: SendOutcome, items: seq<Item>, partial: bytes)
    requires Usable(o) && Fitting(orders) && orders != [] && orders[0].Send? && Fitting(orders[1..])
    requires first.Payload? && first.data == orders[0].data != [] && Frameable(first.data, o.blockSize)
    requires |first.pad| == Padding(|first.data|, o.blockSize)
    requires (o1, wire) == Frame(o, first.data, first.pad) && Usable(o1)
    requires ShapeOf(o1) == ShapeOf(o) && |wire| <= WireSize(ShapeOf(o), |orders[0].data|)
    requires Remains(later, script) && Readies(script, 1) <= Readies(later, 1) + |wire|
    requires Carried(p, o1, later, sent + wire, orders[1..], done, why, items, partial)
    ensures Carried(p, o, script, sent, orders, done + 1, why, [first] + items, partial)
  {
    hide Mirrors, Fitting, Stopped, Frame, SendAll, Sendable, Payloads, Cues, DataOf, CuesOf, WireSize, Frameable;
    hide Padding, NoneEmpty, Readies, ShapeOf;
    ShapeBlock(o);
    PayloadFirst(o, first, o1, wire, items);
    Regroup(sent, wire, SendAll(o1, items).1);
    OrdersFirst(orders, done);
    if done < |orders[1..]| {
      StoppedSince(p, later, script, wire, ShapeOf(o), orders, done, why);
    }
  }

  lemma CarriedAfterSwitch(p: Packetizer, o: Direction, script: seq<Event>, sent: bytes, orders: seq<Order>,
                           done: nat, why: SendOutcome, items: seq<Item>, partial: bytes)
    requires Usable(o) && Fitting(orders) && orders != [] && orders[0].Rekey? && Fitting(orders[1..])
    requires Mirrors(Outbound(orders[0].keys, 0), Inbound(orders[0].keys, 0))
    requires Usable(Outbound(orders[0].keys, o.seqno))
    requires Carried(p, Outbound(orders[0].keys, o.seqno), script, sent, orders[1..], done, why, items, partial)
    ensures Carried(p, o, script, sent, orders, done + 1, why, [Switch(orders[0].keys)] + items, partial)
  {
    hide Mirrors, Fitting, Stopped, SendAll, Sendable, Payloads, Cues, DataOf, CuesOf, NoneEmpty, Readies, Remains;
    ShapeBlock(o);
    SwitchFirst(o, orders[0].keys, items);
    OrdersFirst(orders, done);
    if done < |orders[1..]| {
      StoppedUnderKeys(p, script, ShapeOf(o), orders, done, why);
    }
  }

  method SwitchKeys(p: Packetizer, k: Keys)
    requires p.Valid() && Mirrors(Outbound(k, 0), Inbound(k, 0))
    modifies p`blockEngineOut, p`blockSizeOut, p`macEngineOut, p`macSizeOut, p`macKeyOut
    modifies p`sentBytes, p`sentPackets, p`initCount, p`needRekey
    ensures p.Valid() && p.Out() == Outbound(k, old(p.sequenceNumberOut)) && ShapeOf(p.Out()) == KeyShape(k)
  {
    p.SetOutboundCipher(k.enc, k.blockSize, k.macEngine, k.macSize, k.macKey);
  }

  lemma FittingFirst(orders: seq<Order>)
    requires orders != [] && Fitting(orders)
    ensures Fitting(orders[1..])
    ensures orders[0].Rekey? ==>
              Mirrors(Outbound(orders[0].keys, 0), Inbound(orders[0].keys, 0)) && KeyShape(orders[0].keys).blockSize > 0
  {
    assert forall i :: 0 <= i < |orders[1..]| ==> orders[1..][i] == orders[i + 1];
  }

  lemma ShapeBlock(d: Direction)
    ensures ShapeOf(d).blockSize == d.blockSize
  {
  }

  lemma StoppedAtOnce(p: Packetizer, script: seq<Event>, sh: Shape, orders: seq<Order>, why: SendOutcome)
    requires sh.blockSize > 0 && Fitting(orders) && orders != [] && orders[0].Send?
    requires match why
             case Sent => false
             case EmptyData => orders[0].data == []
             case PackError => orders[0].data != [] && !Frameable(orders[0].data, sh.blockSize)
             case NotSent(_) =>
               || p.closed || Broken in script || Ready(0) in script
               || Readies(script, 1) < WireSize(sh, |orders[0].data|)
    ensures Stopped(p, script, sh, orders, 0, why)
  {
    hide Mirrors, WireSize, Frameable;
    assert orders[..1][1..] == [];
  }

  /** What stops a sender after its first message stops it from the start. */
  lemma StoppedSince(p: Packetizer, later: seq<Event>, script: seq<Event>, wire: bytes, sh: Shape, orders: seq<Order>,
                     done: nat, why: SendOutcome)
    requires sh.blockSize > 0 && Fitting(orders) && orders != [] && orders[0].Send? && Fitting(orders[1..])
    requires Remains(later, script) && Readies(script, 1) <= Readies(later, 1) + |wire|
    requires |wire| <= WireSize(sh, |orders[0].data|)
    requires done < |orders[1..]| && orders[1..][done].Send? && Stopped(p, later, sh, orders[1..], done, why)
    ensures Stopped(p, script, sh, orders, done + 1, why)
  {
    hide Mirrors, WireSize, Frameable, Fitting;
    FittingPrefix(orders, done + 1);
    FittingPrefix(orders, done + 2);
    assert orders[..done + 1][1..] == orders[1..][..done];
    assert orders[..done + 2][1..] == orders[1..][..done + 1];
  }

  lemma StoppedUnderKeys(p: Packetizer, script: seq<Event>, sh: Shape, orders: seq<Order>, done: nat, why: SendOutcome)
    requires sh.blockSize > 0 && Fitting(orders) && orders != [] && orders[0].Rekey? && Fitting(orders[1..])
    requires KeyShape(orders[0].keys).blockSize > 0
    requires done < |orders[1..]| && orders[1..][done].Send?
    requires Stopped(p, script, KeyShape(orders[0].keys), orders[1..], done, why)
    ensures Stopped(p, script, sh, orders, done + 1, why)
  {
    hide Mirrors, WireSize, Frameable, Fitting;
    FittingPrefix(orders, done + 1);
    FittingPrefix(orders, done + 2);
    assert orders[..done + 1][1..] == orders[1..][..done];
    assert orders[..done + 2][1..] == orders[1..][..done + 1];
  }

  lemma NothingYet(o: Direction, orders: seq<Order>)
    requires Usable(o)
    ensures Sendable(o.blockSize, []) && SendAll(o, []) == (o, []) && NoneEmpty([])
    ensures Payloads([]) == DataOf(orders[..0]) && Cues([]) == CuesOf(orders[..0])
  {
  }

  lemma PayloadFirst(o: Direction, first: Item, o1: Direction, wire: bytes, items: seq<Item>)
    requires Usable(o) && first.Payload? && Frameable(first.data, o.blockSize)
             && |first.pad| == Padding(|first.data|, o.blockSize)
    requires (o1, wire) == Frame(o, first.data, first.pad) && Usable(o1) && Sendable(o1.blockSize, items)
    ensures o1.blockSize == o.blockSize && Sendable(o.blockSize, [first] + items)
    ensures NoneEmpty(items) && first.data != [] ==> NoneEmpty([first] + items)
    ensures SendAll(o, [first] + items) == (SendAll(o1, items).0, wire + SendAll(o1, items).1)
    ensures Payloads([first] + items) == [first.data] + Payloads(items) && Cues([first] + items) == [Read] + Cues(items)
  {
    FrameUsable(o, first.data, first.pad);
    assert ([first] + items)[1..] == items;
  }

  lemma SwitchFirst(o: Direction, k: Keys, items: seq<Item>)
    requires Usable(o) && Mirrors(Outbound(k, 0), Inbound(k, 0)) && Sendable(k.blockSize, items)
    ensures Sendable(o.blockSize, [Switch(k)] + items) && Usable(Outbound(k, o.seqno))
    ensures NoneEmpty(items) ==> NoneEmpty([Switch(k)] + items)
    ensures SendAll(o, [Switch(k)] + items) == SendAll(Outbound(k, o.seqno), items)
    ensures Payloads([Switch(k)] + items) == Payloads(items) && Cues([Switch(k)] + items) == [Install(k)] + Cues(items)
  {
    assert ([Switch(k)] + items)[1..] == items;
    assert [] + Payloads(items) == Payloads(items);
  }

  lemma OrdersFirst(orders: seq<Order>, done: nat)
    requires orders != [] && done <= |orders[1..]|
    ensures var rest := orders[1..][..done];
            && DataOf(orders[..done + 1]) == (if orders[0].Send? then [orders[0].data] else []) + DataOf(rest)
            && CuesOf(orders[..done + 1]) == [if orders[0].Send? then Read else Install(orders[0].keys)] + CuesOf(rest)
  {
    assert orders[..done + 1][1..] == orders[1..][..done];
  }

  // ---- the receiver ----

  lemma NextMessage(o: Direction, i: Direction, items: seq<Item>, rest: bytes)
    requires Mirrors(o, i) && Sendable(o.blockSize, items) && items != [] && items[0].Payload?
    ensures Frameable(items[0].data, o.blockSize) && |items[0].pad| == Padding(|items[0].data|, o.blockSize)
    ensures var o2 := Frame(o, items[0].data, items[0].pad).0;
            && Usable(o2) && o2.blockSize == o.blockSize
            && SendAll(o, items)
               == (SendAll(o2, items[1..]).0, Frame(o, items[0].data, items[0].pad).1 + SendAll(o2, items[1..]).1)
            && var p := Parse(i, SendAll(o, items).1 + rest);
               && p.Packet? && p.payload == items[0].data && Mirrors(o2, p.d)
               && p.raw == |Frame(o, items[0].data, items[0].pad).1|
               && p.rest == SendAll(o2, items[1..]).1 + rest
    ensures Payloads(items) == [items[0].data] + Payloads(items[1..]) && items[0].data in Payloads(items)
    ensures Cues(items)[1..] == Cues(items[1..])
  {
    var Payload(data, pad) := items[0];
    FrameUsable(o, data, pad);
    var (o2, wire) := Frame(o, data, pad);
    var more := SendAll(o2, items[1..]).1;
    assert wire + more + rest == wire + (more + rest);
    ParseFrame(o, i, data, pad, more + rest);
  }

  lemma NextSwitch(o: Direction, i: Direction, items: seq<Item>)
    requires Mirrors(o, i) && Sendable(o.blockSize, items) && items != [] && items[0].Switch?
    ensures var k := items[0].keys;
            && Mirrors(Outbound(k, o.seqno), Inbound(k, i.seqno))
            && Sendable(k.blockSize, items[1..])
            && SendAll(o, items) == SendAll(Outbound(k, o.seqno), items[1..])
    ensures Payloads(items) == Payloads(items[1..])
    ensures Cues(items)[1..] == Cues(items[1..])
  {
    MirrorsAtAnySeqno(items[0].keys, o.seqno);
    assert [] + Payloads(items[1..]) == Payloads(items[1..]);
  }

  /** The receiver is in step with a sender that has the items still to deliver, followed by `rest`. */
  ghost predicate InStep(p: Packetizer, o: Direction, items: seq<Item>, rest: bytes)
    reads p, p.socket
  {
    && p.Valid() && Usable(o) && Mirrors(o, p.In()) && Sendable(o.blockSize, items)
    && p.Pending() == SendAll(o, items).1 + rest
  }

  /** A rekey is due before some message is read: the limits are reached on the way. */
  ghost predicate RekeyComes(c: Accounting.Counters, o: Direction, items: seq<Item>)
    requires Usable(o) && Sendable(o.blockSize, items)
    decreases |items|
  {
    items != [] &&
    match items[0]
    case Payload(data, pad) =>
      FrameUsable(o, data, pad);
      var (o1, wire) := Frame(o, data, pad);
      c.needRekey || RekeyComes(Accounting.AfterRead(c, |wire|).0, o1, items[1..])
    case Switch(k) =>
      RekeyComes(Accounting.AfterInbound(c), Outbound(k, o.seqno), items[1..])
  }

  /**
   * Why a receiver may stop short: it is closed or late, a rekey is due, or its socket breaks or lets fewer calls
   * through than there are bytes to receive.
   */
  ghost predicate CutShort(p: Packetizer, script: seq<Event>, size: nat, rekeying: bool)
    reads p`closed, p`handshakeTimedOut
  {
    p.closed || p.handshakeTimedOut || rekeying || Broken in script || Readies(script, 0) < size
  }

  method ReceivePayload(p: Packetizer, ghost o: Direction, ghost items: seq<Item>, ghost rest: bytes)
    returns (got: bytes)
    requires InStep(p, o, items, rest) && items != [] && items[0].Payload? && items[0].data != []
    modifies p`blockEngineIn, p`sequenceNumberIn, p`remainder, p.socket
    modifies p`receivedBytes, p`receivedPackets, p`receivedBytesOverflow, p`receivedPacketsOverflow, p`needRekey
    ensures p.socket.sent == old(p.socket.sent)
    ensures got == [] || got == items[0].data
    ensures Frameable(items[0].data, o.blockSize) && |items[0].pad| == Padding(|items[0].data|, o.blockSize)
    ensures got == [] ==>
              CutShort(p, old(p.socket.script), |Frame(o, items[0].data, items[0].pad).1|, old(p.needRekey))
    ensures Remains(p.socket.script, old(p.socket.script))
    ensures got != [] ==>
              var (o1, wire) := Frame(o, got, items[0].pad);
              && InStep(p, o1, items[1..], rest)
              && SendAll(o, items) == (SendAll(o1, items[1..]).0, wire + SendAll(o1, items[1..]).1)
              && p.Tally() == Accounting.AfterRead(old(p.Tally()), |wire|).0
              && Readies(old(p.socket.script), 0) <= Readies(p.socket.script, 0) + |wire|
  {
    hide Frame, SendAll, Parse, Mirrors;
    NextMessage(o, p.In(), items, rest);
    var r := p.ReadMessage();
    if !r.Message? {
      return [];
    }
    got := [r.cmd] + r.body;
    assert got == items[0].data;
  }

  method InstallKeys(p: Packetizer, k: Keys, ghost o: Direction, ghost items: seq<Item>, ghost rest: bytes)
    requires InStep(p, o, items, rest) && items != [] && items[0] == Switch(k)
    modifies p`blockEngineIn, p`blockSizeIn, p`macEngineIn, p`macSizeIn, p`macKeyIn
    modifies p`receivedBytes, p`receivedPackets, p`receivedBytesOverflow, p`receivedPacketsOverflow
    modifies p`initCount, p`needRekey
    ensures InStep(p, Outbound(k, o.seqno), items[1..], rest) && p.Tally() == Accounting.AfterInbound(old(p.Tally()))
    ensures SendAll(Outbound(k, o.seqno), items[1..]) == SendAll(o, items)
  {
    NextSwitch(o, p.In(), items);
    p.SetInboundCipher(k.dec, k.blockSize, k.macEngine, k.macSize, k.macKey);
  }

  /**
   * Successive reads, with a key switch wherever the sender made one: what has come out so far is a prefix of what
   * was sent, and a run that is not cut short by the socket or by the rekey limit yields all of it and leaves
   * exactly what followed.
   */
  method ReceiveItems(p: Packetizer, cues: seq<Cue>, ghost o: Direction, ghost items: seq<Item>, ghost rest: bytes)
    returns (got: seq<bytes>, complete: bool)
    requires InStep(p, o, items, rest) && cues == Cues(items)
    requires NoneEmpty(items)
    modifies p`blockEngineIn, p`blockSizeIn, p`macEngineIn, p`macSizeIn, p`macKeyIn, p`sequenceNumberIn, p`remainder
    modifies p`receivedBytes, p`receivedPackets, p`receivedBytesOverflow, p`receivedPacketsOverflow
    modifies p`initCount, p`needRekey, p.socket
    ensures p.socket.sent == old(p.socket.sent)
    ensures got <= Payloads(items)
    ensures complete ==>
              got == Payloads(items) && p.Pending() == rest && p.Valid() && Mirrors(SendAll(o, items).0, p.In())
    ensures !complete ==>
              CutShort(p, old(p.socket.script), |SendAll(o, items).1|, RekeyComes(old(p.Tally()), o, items))
    decreases |items|
  {
    hide SendAll, Payloads, Cues, Mirrors, Sendable, RekeyComes, Frame, Accounting.AfterRead, Accounting.AfterInbound;
    got := [];
    if cues == [] {
      NothingLeft(o, items, rest);
      return [], true;
    }
    ghost var script, c := p.socket.script, p.Tally();
    CueFirst(items);
    match cues[0] {
      case Read =>
        MessageOrRekey(c, o, items);
        var data := ReceivePayload(p, o, items, rest);
        if data == [] {
          return [], false;
        }
        ghost var o1 := Frame(o, data, items[0].pad).0;
        got, complete := ReceiveItems(p, cues[1..], o1, items[1..], rest);
        got := [data] + got;
      case Install(k) =>
        SwitchOrRekey(c, o, items);
        InstallKeys(p, k, o, items, rest);
        got, complete := ReceiveItems(p, cues[1..], Outbound(k, o.seqno), items[1..], rest);
    }
  }

  lemma NothingLeft(o: Direction, items: seq<Item>, rest: bytes)
    requires Cues(items) == []
    ensures items == [] && Payloads(items) == []
    ensures Usable(o) ==>
              Sendable(o.blockSize, items) && SendAll(o, items) == (o, []) && SendAll(o, items).1 + rest == rest
  {
    assert [] + rest == rest;
  }

  lemma CueFirst(items: seq<Item>)
    requires Cues(items) != []
    ensures items != [] && Cues(items)[1..] == Cues(items[1..]) && items[0] in items
    ensures Cues(items)[0] == match items[0] case Payload(_, _) => Read case Switch(k) => Install(k)
    ensures Payloads(items)
            == (match items[0] case Payload(data, _) => [data] case Switch(_) => []) + Payloads(items[1..])
    ensures items[0].Switch? ==> Payloads(items) == Payloads(items[1..])
  {
    assert [] + Payloads(items[1..]) == Payloads(items[1..]);
  }

  /** A rekey that is due now or after the first message comes before the end. */
  lemma MessageOrRekey(c: Accounting.Counters, o: Direction, items: seq<Item>)
    requires Usable(o) && Sendable(o.blockSize, items) && items != [] && items[0].Payload?
    ensures Frameable(items[0].data, o.blockSize) && |items[0].pad| == Padding(|items[0].data|, o.blockSize)
    ensures var (o1, wire) := Frame(o, items[0].data, items[0].pad);
            && Usable(o1) && Sendable(o1.blockSize, items[1..]) && |wire| <= |SendAll(o, items).1|
            && (RekeyComes(c, o, items) <==>
               c.needRekey || RekeyComes(Accounting.AfterRead(c, |wire|).0, o1, items[1..]))
  {
    FrameUsable(o, items[0].data, items[0].pad);
  }

  lemma SwitchOrRekey(c: Accounting.Counters, o: Direction, items: seq<Item>)
    requires Usable(o) && Sendable(o.blockSize, items) && items != [] && items[0].Switch?
    ensures var o1 := Outbound(items[0].keys, o.seqno);
            && Usable(o1) && Sendable(o1.blockSize, items[1..])
            && (RekeyComes(c, o, items) <==> RekeyComes(Accounting.AfterInbound(c), o1, items[1..]))
  {
  }

  // ---- both ends ----

  /** The same on the orders: the counters of the receiver when it gets the messages of these sizes. */
  ghost predicate LimitReached(c: Accounting.Counters, sh: Shape, orders: seq<Order>)
    requires sh.blockSize > 0 && Fitting(orders)
    decreases |orders|
  {
    orders != [] && (FittingFirst(orders);
    match orders[0]
    case Send(data) =>
      c.needRekey || LimitReached(Accounting.AfterRead(c, WireSize(sh, |data|)).0, sh, orders[1..])
    case Rekey(k, _) =>
      LimitReached(Accounting.AfterInbound(c), KeyShape(k), orders[1..]))
  }

  /** Enough room below both limits, even without a switch that starts the counting afresh. */
  lemma {:induction false} ShortOfLimits(c: Accounting.Counters, sh: Shape, orders: seq<Order>)
    requires sh.blockSize > 0 && Fitting(orders) && !c.needRekey
    requires c.receivedPackets + |orders| < Accounting.REKEY_PACKETS
    requires c.receivedBytes + StreamSize(sh, orders) < Accounting.REKEY_BYTES
    ensures !LimitReached(c, sh, orders)
    decreases |orders|
  {
    hide Fitting, Mirrors;
    if orders == [] {
    } else {
      FittingFirst(orders);
      match orders[0]
      case Send(data) => ShortOfLimits(Accounting.AfterRead(c, WireSize(sh, |data|)).0, sh, orders[1..]);
      case Rekey(k, _) => ShortOfLimits(Accounting.AfterInbound(c), KeyShape(k), orders[1..]);
    }
  }

  /** The stream of the items has the size, and brings the receiver to the limits, as the orders say. */
  lemma {:induction false} SizesAgree(c: Accounting.Counters, o: Direction, items: seq<Item>, orders: seq<Order>)
    requires Usable(o) && FullMac(o) && Sendable(o.blockSize, items) && Fitting(orders)
    requires Payloads(items) == DataOf(orders) && Cues(items) == CuesOf(orders)
    ensures |SendAll(o, items).1| == StreamSize(ShapeOf(o), orders)
    ensures RekeyComes(c, o, items) <==> LimitReached(c, ShapeOf(o), orders)
    decreases |items|
  {
    hide Mirrors, Fitting, Frame, WireSize, ShapeOf, FullMac, Accounting.AfterRead, Accounting.AfterInbound;
    ShapeBlock(o);
    if items == [] {
      assert orders == [];
    } else {
      assert orders != [];
      FittingFirst(orders);
      SameHeads(items, orders);
      match items[0]
      case Payload(data, pad) =>
        FrameSize(o, data, pad);
        FrameUsable(o, data, pad);
        var (o1, wire) := Frame(o, data, pad);
        SizesAgree(Accounting.AfterRead(c, |wire|).0, o1, items[1..], orders[1..]);
      case Switch(k) =>
        KeysAreFull(k, o.seqno);
        SizesAgree(Accounting.AfterInbound(c), Outbound(k, o.seqno), items[1..], orders[1..]);
    }
  }

  lemma KeysAreFull(k: Keys, seqno: nat)
    requires Mirrors(Outbound(k, 0), Inbound(k, 0)) && seqno < WORD
    ensures Usable(Outbound(k, seqno)) && FullMac(Outbound(k, seqno)) && ShapeOf(Outbound(k, seqno)) == KeyShape(k)
  {
    assert Outbound(k, 0).macEngine == Outbound(k, seqno).macEngine;
  }

  lemma SameHeads(items: seq<Item>, orders: seq<Order>)
    requires items != [] && Payloads(items) == DataOf(orders) && Cues(items) == CuesOf(orders)
    ensures orders != [] && Payloads(items[1..]) == DataOf(orders[1..]) && Cues(items[1..]) == CuesOf(orders[1..])
    ensures match items[0]
            case Payload(data, _) => orders[0].Send? && orders[0].data == data
            case Switch(k) => orders[0].Rekey? && orders[0].keys == k
  {
    assert Cues(items)[0] == CuesOf(orders)[0];
    assert Cues(items)[1..] == CuesOf(orders)[1..];
    match items[0]
    case Payload(data, _) =>
      assert Payloads(items)[0] == DataOf(orders)[0] && Payloads(items)[1..] == DataOf(orders)[1..];
    case Switch(_) =>
      assert [] + Payloads(items[1..]) == Payloads(items[1..]) && [] + DataOf(orders[1..]) == DataOf(orders[1..]);
  }

  /** Every message is there and fits its frame under the keys it is sent with. */
  ghost predicate AllFit(sh: Shape, orders: seq<Order>)
    requires sh.blockSize > 0 && Fitting(orders)
    decreases |orders|
  {
    orders == [] || (FittingFirst(orders);
    match orders[0]
    case Send(data) => data != [] && Frameable(data, sh.blockSize) && AllFit(sh, orders[1..])
    case Rekey(k, _) => AllFit(KeyShape(k), orders[1..]))
  }

  lemma {:induction false} FitsWhereItIs(sh: Shape, orders: seq<Order>, n: nat)
    requires sh.blockSize > 0 && Fitting(orders) && AllFit(sh, orders) && n < |orders| && orders[n].Send?
    ensures Fitting(orders[..n]) && orders[n].data != []
            && Frameable(orders[n].data, ShapeAfter(sh, orders[..n]).blockSize)
    decreases |orders|
  {
    hide Fitting, Mirrors, Frameable;
    FittingPrefix(orders, n);
    if n == 0 {
    } else {
      FittingFirst(orders);
      assert orders[..n][1..] == orders[1..][..n - 1];
      FitsWhereItIs(if orders[0].Send? then sh else KeyShape(orders[0].keys), orders[1..], n - 1);
    }
  }

  /** Nothing is in the way of the messages: both ends are open, both sockets let enough through, no rekey is due. */
  ghost predicate Unhindered(a: Packetizer, b: Packetizer, orders: seq<Order>)
    reads a, b, a.socket, b.socket
    requires a.blockSizeOut > 0 && Fitting(orders)
  {
    var sh := ShapeOf(a.Out());
    && !a.closed && !b.closed && !b.handshakeTimedOut && AllFit(sh, orders)
    && Broken !in a.socket.script && Ready(0) !in a.socket.script
    && Readies(a.socket.script, 1) >= StreamSize(sh, orders)
    && Broken !in b.socket.script && Readies(b.socket.script, 0) >= StreamSize(sh, orders)
    && !LimitReached(b.Tally(), sh, orders)
  }

  /** So no sender stops. */
  lemma UnhinderedSends(a: Packetizer, script: seq<Event>, sh: Shape, orders: seq<Order>, done: nat, why: SendOutcome)
    requires sh.blockSize > 0 && Fitting(orders) && done < |orders| && orders[done].Send?
    requires !a.closed && AllFit(sh, orders)
    requires Broken !in script && Ready(0) !in script && Readies(script, 1) >= StreamSize(sh, orders)
    ensures !Stopped(a, script, sh, orders, done, why)
  {
    hide Mirrors, Fitting, AllFit, StreamSize, ShapeAfter, Frameable;
    FitsWhereItIs(sh, orders, done);
    PrefixIsSmaller(sh, orders, done + 1);
  }

  /**
   * From one end to the other: what the sender put on its socket arrives, in pieces of any size. The receiver takes
   * out the messages of the orders that were carried out, in order and unchanged, and nothing else; each end stops
   * short only for a reason that was there before the call, and without one every message is delivered and the two
   * ends can go on in step.
   */
  method Deliver(a: Packetizer, b: Packetizer, orders: seq<Order>, sdctr: bool, random: nat -> nat -> bytes)
    returns (done: nat, why: SendOutcome, got: seq<bytes>, complete: bool)
    requires a != b && a.socket != b.socket && a.Valid() && b.Valid()
    requires Mirrors(a.Out(), b.In()) && b.Pending() == []
    requires Fitting(orders) && Draws(random)
    modifies a`blockEngineOut, a`blockSizeOut, a`macEngineOut, a`macSizeOut, a`macKeyOut, a`sequenceNumberOut
    modifies a`initCount
    modifies a`sentBytes, a`sentPackets, a`receivedBytesOverflow, a`receivedPacketsOverflow, a`needRekey, a.socket
    modifies b`blockEngineIn, b`blockSizeIn, b`macEngineIn, b`macSizeIn, b`macKeyIn, b`sequenceNumberIn, b`remainder
    modifies b`receivedBytes, b`receivedPackets, b`receivedBytesOverflow, b`receivedPacketsOverflow
    modifies b`initCount, b`needRekey, b.socket
    ensures done <= |orders| && Fitting(orders[..done]) && got <= DataOf(orders[..done])
    ensures done < |orders| ==>
              orders[done].Send? && Stopped(a, old(a.socket.script), ShapeOf(old(a.Out())), orders, done, why)
    ensures complete ==> got == DataOf(orders[..done])
    ensures !complete ==>
              var sh := ShapeOf(old(a.Out()));
              CutShort(b, old(b.socket.script), StreamSize(sh, orders[..done]),
                  LimitReached(old(b.Tally()), sh, orders[..done]))
    ensures complete && done == |orders| ==>
              a.Valid() && b.Valid() && Mirrors(a.Out(), b.In()) && b.Pending() == []
    ensures old(Unhindered(a, b, orders)) ==> done == |orders| && complete && got == DataOf(orders)
  {
    hide Stopped, Mirrors, SendAll, Sendable, DataOf, CuesOf, Payloads, Cues, StreamSize, LimitReached, RekeyComes;
    hide AllFit, ShapeOf, FullMac, Fitting;
    ghost var o, items, partial := a.Out(), [], [];
    ghost var script, c, free := a.socket.script, b.Tally(), Unhindered(a, b, orders);
    MirroredMacIsFull(o, b.In());
    ShapeBlock(o);
    var before := a.socket.sent;
    done, why, items, partial := SendItems(a, orders, sdctr, random);
    FittingPrefix(orders, done);
    if free && done < |orders| {
      UnhinderedSends(a, script, ShapeOf(o), orders, done, why);
    }
    Carry(b.socket, a.socket.sent[|before|..]);
    assert b.Pending() == SendAll(o, items).1 + partial;
    got, complete := ReceiveItems(b, CuesOf(orders[..done]), o, items, partial);
    SizesAgree(c, o, items, orders[..done]);
    assert orders[..|orders|] == orders;
  }

  lemma MirroredMacIsFull(o: Direction, i: Direction)
    requires Mirrors(o, i)
    ensures FullMac(o) && Usable(o)
  {
  }

  /** What was sent becomes what there is to receive. */
  method Carry(to: Socket, wire: bytes)
    modifies to`incoming
    ensures to.incoming == old(to.incoming) + wire
  {
    to.incoming := to.incoming + wire;
  }
}
