/**
 * Two channels and the packets between them. Every call on either end, and every packet taken off the wire, is a few
 * steps of the window protocol in each direction, so what holds on its runs holds of the channels.
 */
module Links {
  import opened Basics
  import opened Bytes
  import opened Pipes
  import opened Windows
  import opened Channels

  // ---- the calls do that ----

  /** An open channel that nobody else touches during a call. */
  ghost predicate Sound(c: Channel)
    reads c, c.inbox, c.inbox.main, c.inbox.stderr, c.inbox.main.event, c.inbox.stderr.event
    reads c.inbox.main.OsPipe(), c.inbox.stderr.OsPipe()
  {
    c.Valid() && c.InUse() && c.waits == []
  }

  /** The two inboxes share no object. */
  ghost predicate Apart(i: Inbox, j: Inbox)
    reads i, i.main, i.stderr, i.main.event, i.stderr.event, j, j.main, j.stderr, j.main.event, j.stderr.event
  {
    && i != j && {i.main, i.stderr} !! {j.main, j.stderr}
    && i.main.Flag() + i.stderr.Flag() !! j.main.Flag() + j.stderr.Flag()
    && i.main.OsPipe() + i.stderr.OsPipe() !! j.main.OsPipe() + j.stderr.OsPipe()
  }

  ghost predicate Ends(c: Channel, other: Channel)
    reads c, c.inbox, c.inbox.main, c.inbox.stderr, c.inbox.main.event, c.inbox.stderr.event
    reads c.inbox.main.OsPipe(), c.inbox.stderr.OsPipe()
    reads other, other.inbox, other.inbox.main, other.inbox.stderr, other.inbox.main.event, other.inbox.stderr.event
    reads other.inbox.main.OsPipe(), other.inbox.stderr.OsPipe()
  {
    c != other && Sound(c) && Sound(other) && Apart(c.inbox, other.inbox)
  }

  method SendOn(c: Channel, other: Channel, s: bytes, onStderr: bool) returns (r: SendResult)
    requires Ends(c, other)
    modifies c`outWindowSize, c`closed, c`eofSent, c`waits, c`outbox
    ensures Ends(c, other) && other.Now() == old(other.Now()) && c.Now() == SentBy(old(c.Now()), s, onStderr)
  {
    hide Apart, SentBy, WindowAfter;
    ghost var used;
    r, used := c.Send(s, onStderr);
  }

  method ReadMain(c: Channel, other: Channel, n: nat) returns (r: ReadResult)
    requires Ends(c, other)
    modifies c`inWindowSofar, c`outbox
    modifies c.inbox.main`buffer, c.inbox.main.Flag()`isSet, c.inbox.main.OsPipe()`isSet, c.inbox.main.OsPipe()`content
    ensures Ends(c, other) && other.Now() == old(other.Now()) && c.Now() == ReadBy(old(c.Now()), n, false)
    ensures var e := old(c.Now());
            r == if Readable(e, false) then ReadResult.Data(e.main[..Taking(e, n, false)]) else WouldBlock
  {
    hide Inbox.Accurate, ReadBy;
    r := c.Recv(n);
  }

  method ReadStderr(c: Channel, other: Channel, n: nat) returns (r: ReadResult)
    requires Ends(c, other)
    modifies c`inWindowSofar, c`outbox
    modifies c.inbox.stderr`buffer, c.inbox.stderr.Flag()`isSet, c.inbox.stderr.OsPipe()`isSet
    modifies c.inbox.stderr.OsPipe()`content
    ensures Ends(c, other) && other.Now() == old(other.Now()) && c.Now() == ReadBy(old(c.Now()), n, true)
    ensures var e := old(c.Now());
            r == if Readable(e, true) then ReadResult.Data(e.stderr[..Taking(e, n, true)]) else WouldBlock
  {
    hide Inbox.Accurate, ReadBy;
    r := c.RecvStderr(n);
  }

  method Join(c: Channel, other: Channel, on: bool) returns (was: bool)
    requires Ends(c, other)
    modifies c`combineStderr
    modifies c.inbox.main`buffer, c.inbox.main.Flag()`isSet, c.inbox.main.OsPipe()`isSet, c.inbox.main.OsPipe()`content
    modifies c.inbox.stderr`buffer, c.inbox.stderr.Flag()`isSet, c.inbox.stderr.OsPipe()`isSet
    modifies c.inbox.stderr.OsPipe()`content
    ensures Ends(c, other) && other.Now() == old(other.Now()) && c.Now() == JoinedBy(old(c.Now()), on)
  {
    hide Inbox.Accurate, JoinedBy;
    was := c.SetCombineStderr(on);
  }

  method EndStream(c: Channel, other: Channel)
    requires Ends(c, other)
    modifies c`eofSent, c`outbox
    ensures Ends(c, other) && other.Now() == old(other.Now()) && c.Now() == EndedBy(old(c.Now()))
  {
    hide Apart;
    c.SendEof();
  }

  method Close(c: Channel, other: Channel)
    requires Ends(c, other)
    modifies c`eofSent, c`outbox, c`closed, c.inbox.main`closed, c.inbox.stderr`closed
    modifies c.inbox.main.Flag()`isSet, c.inbox.main.OsPipe()`isSet, c.inbox.main.OsPipe()`content
    modifies c.inbox.main.OsPipe()`forever
    modifies c.inbox.stderr.Flag()`isSet, c.inbox.stderr.OsPipe()`isSet, c.inbox.stderr.OsPipe()`content
    modifies c.inbox.stderr.OsPipe()`forever
    ensures Ends(c, other) && other.Now() == old(other.Now()) && c.Now() == ClosedBy(old(c.Now()))
  {
    hide Inbox.Accurate, ClosedBy;
    c.CloseInternal();
  }

  method HearEof(c: Channel, other: Channel)
    requires Ends(c, other)
    modifies c`eofReceived, c.inbox.main`closed, c.inbox.stderr`closed
    modifies c.inbox.main.Flag()`isSet, c.inbox.main.OsPipe()`isSet, c.inbox.main.OsPipe()`content
    modifies c.inbox.main.OsPipe()`forever
    modifies c.inbox.stderr.Flag()`isSet, c.inbox.stderr.OsPipe()`isSet, c.inbox.stderr.OsPipe()`content
    modifies c.inbox.stderr.OsPipe()`forever
    ensures Ends(c, other) && other.Now() == old(other.Now()) && c.Now() == Got(old(c.Now()), Eof)
  {
    hide Inbox.Accurate, Got;
    c.HandleEof();
  }

  method HearData(c: Channel, other: Channel, m: Msg)
    requires Ends(c, other)
    modifies c.inbox.main`buffer, c.inbox.main.Flag()`isSet, c.inbox.main.OsPipe()`isSet, c.inbox.main.OsPipe()`content
    modifies c.inbox.stderr`buffer, c.inbox.stderr.Flag()`isSet, c.inbox.stderr.OsPipe()`isSet
    modifies c.inbox.stderr.OsPipe()`content
    ensures Ends(c, other) && other.Now() == old(other.Now()) && c.Now() == Got(old(c.Now()), Message(m))
  {
    hide Inbox.Accurate, Got;
    match m
    case ChannelData(s) => c.Feed(s);
    case ExtendedData(code, s) => c.FeedExtended(code, s);
  }

  /** A packet goes to the handler of its kind. */
  method Hear(c: Channel, other: Channel, x: Outgoing)
    requires Ends(c, other)
    modifies c, c.inbox.main`buffer, c.inbox.main`closed, c.inbox.stderr`buffer, c.inbox.stderr`closed
    modifies c.inbox.main.Flag()`isSet, c.inbox.main.OsPipe()`isSet, c.inbox.main.OsPipe()`content
    modifies c.inbox.main.OsPipe()`forever
    modifies c.inbox.stderr.Flag()`isSet, c.inbox.stderr.OsPipe()`isSet, c.inbox.stderr.OsPipe()`content
    modifies c.inbox.stderr.OsPipe()`forever
    ensures Ends(c, other) && other.Now() == old(other.Now()) && c.Now() == Got(old(c.Now()), x)
  {
    match x
    case Message(m) => HearData(c, other, m);
    case WindowAdjust(n) => c.AdjustWindow(n);
    case Eof => HearEof(c, other);
    case CloseMsg => Close(c, other);
  }

  // ---- two ends and the packets between them ----

  /**
   * One direction between two ends: the first `arrived` packets of the sender have been taken off the wire. The rest
   * is history: bytes that are not credited any more, and what has been read of each stream.
   */
  datatype Line = Line(arrived: nat, lost: nat, readMain: bytes, readStderr: bytes)

  const IDLE := Line(0, 0, [], [])

  /** As seen from one end: `inward` leads from the far end to the near one. */
  datatype Pair = Pair(near: End, far: End, inward: Line, outward: Line)

  function Swap(p: Pair): Pair {
    Pair(p.far, p.near, p.outward, p.inward)
  }

  /** What one end does: a call of its user, or taking the next packet off the wire. */
  datatype Act =
    | SendData(s: bytes, onStderr: bool)
    | ReadData(n: nat, onStderr: bool)
    | Take
    | CombineStreams(on: bool)
    | EndOut
    | CloseUp

  predicate Settled(p: Pair) {
    && p.near.maxPacket > 64 && p.far.maxPacket > 64
    && p.near.sofar <= p.near.threshold && p.far.sofar <= p.far.threshold
    && p.inward.arrived <= |p.far.outbox| && p.outward.arrived <= |p.near.outbox|
  }

  function Discarded(x: Outgoing): nat {
    if x.Message? && x.m.ExtendedData? && x.m.code != EXTENDED_STDERR then |x.m.s| else 0
  }

  function AfterRead(l: Line, e: End, n: nat, onStderr: bool): Line {
    var k := Taking(e, n, onStderr);
    if !Readable(e, onStderr) then l
    else
      l.(lost := if e.Shut() then l.lost + k else l.lost,
         readMain := if onStderr then l.readMain else l.readMain + e.main[..k],
         readStderr := if onStderr then l.readStderr + e.stderr[..k] else l.readStderr)
  }

  /** The near end acts. */
  function Do(p: Pair, act: Act): Pair
    requires Settled(p)
  {
    match act
    case SendData(s, onStderr) => p.(near := SentBy(p.near, s, onStderr))
    case ReadData(n, onStderr) => p.(near := ReadBy(p.near, n, onStderr),
        inward := AfterRead(p.inward, p.near, n, onStderr))
    case Take =>
      if p.inward.arrived == |p.far.outbox| then p
      else
        var x := p.far.outbox[p.inward.arrived];
        p.(near := Got(p.near, x),
           inward := p.inward.(arrived := p.inward.arrived + 1, lost := p.inward.lost + Discarded(x)))
    case CombineStreams(on) => p.(near := JoinedBy(p.near, on))
    case EndOut => p.(near := EndedBy(p.near))
    case CloseUp => p.(near := ClosedBy(p.near))
  }

  // ---- the protocol they follow ----

  function DataIn(out: seq<Outgoing>): seq<Msg> {
    if out == [] then [] else (if out[0].Message? then [out[0].m] else []) + DataIn(out[1..])
  }

  function AdjustsIn(out: seq<Outgoing>): seq<nat> {
    if out == [] then [] else (if out[0].WindowAdjust? then [out[0].n] else []) + AdjustsIn(out[1..])
  }

  lemma {:induction false} DataInConcat(a: seq<Outgoing>, b: seq<Outgoing>)
    ensures DataIn(a + b) == DataIn(a) + DataIn(b)
  {
    if a == [] {
      assert a + b == b;
    } else {
      assert (a + b)[1..] == a[1..] + b;
      DataInConcat(a[1..], b);
      var head := if a[0].Message? then [a[0].m] else [];
      assert head + (DataIn(a[1..]) + DataIn(b)) == (head + DataIn(a[1..])) + DataIn(b);
    }
  }

  lemma {:induction false} AdjustsInConcat(a: seq<Outgoing>, b: seq<Outgoing>)
    ensures AdjustsIn(a + b) == AdjustsIn(a) + AdjustsIn(b)
  {
    if a == [] {
      assert a + b == b;
    } else {
      assert (a + b)[1..] == a[1..] + b;
      AdjustsInConcat(a[1..], b);
      var head := if a[0].WindowAdjust? then [a[0].n] else [];
      assert head + (AdjustsIn(a[1..]) + AdjustsIn(b)) == (head + AdjustsIn(a[1..])) + AdjustsIn(b);
    }
  }

  lemma InOne(x: Outgoing)
    ensures DataIn([x]) == (if x.Message? then [x.m] else [])
            && AdjustsIn([x]) == (if x.WindowAdjust? then [x.n] else [])
  {
  }

  /** The packets handed over that have not arrived. */
  function UnderWay(out: seq<Outgoing>, k: nat): seq<Outgoing>
    requires k <= |out|
  {
    out[k..]
  }

  /** A packet handed over is the last one on the wire. */
  lemma HandedOver(out: seq<Outgoing>, k: nat, x: Outgoing)
    requires k <= |out|
    ensures DataIn(UnderWay(out + [x], k)) == DataIn(UnderWay(out, k)) + (if x.Message? then [x.m] else [])
    ensures AdjustsIn(UnderWay(out + [x], k)) == AdjustsIn(UnderWay(out, k)) + (if x.WindowAdjust? then [x.n] else [])
    ensures DataIn(out + [x]) == DataIn(out) + (if x.Message? then [x.m] else [])
  {
    hide DataIn, AdjustsIn;
    assert (out + [x])[k..] == out[k..] + [x];
    DataInConcat(out[k..], [x]);
    AdjustsInConcat(out[k..], [x]);
    DataInConcat(out, [x]);
    InOne(x);
  }

  /** The packet that arrives is the first one on the wire. */
  lemma Arrives(out: seq<Outgoing>, k: nat)
    requires k < |out|
    ensures DataIn(UnderWay(out, k)) == (if out[k].Message? then [out[k].m] else []) + DataIn(UnderWay(out, k + 1))
    ensures AdjustsIn(UnderWay(out, k))
            == (if out[k].WindowAdjust? then [out[k].n] else []) + AdjustsIn(UnderWay(out, k + 1))
  {
    hide DataIn, AdjustsIn;
    assert out[k..] == [out[k]] + out[k + 1..];
    DataInConcat([out[k]], out[k + 1..]);
    AdjustsInConcat([out[k]], out[k + 1..]);
    InOne(out[k]);
  }

  /** The inward direction: the far end's window, the packets under way both ways, and the near end's buffers. */
  function View(p: Pair): System
    requires Settled(p)
  {
    System(
      p.far.window, p.far.maxPacket,
      [], DataIn(UnderWay(p.far.outbox, p.inward.arrived)),
      p.near.main, p.near.stderr, [], p.near.combine, p.near.Shut(),
      [], p.near.sofar, p.near.threshold, [], AdjustsIn(UnderWay(p.near.outbox, p.outward.arrived)),
      p.inward.lost, DataIn(p.far.outbox), p.inward.readMain, p.inward.readStderr)
  }

  // ---- what the acts are ----

  /** A send takes window and then puts its message on the wire. */
  lemma SendIs(s: System, data: bytes, onStderr: bool)
    requires s.maxPacket > 64 && s.outWindow > 0 && data != [] && s.granted == []
    ensures var n := Grant(s.outWindow, s.maxPacket, |data|); var m := MessageOf(data[..n], onStderr);
            Run(s, [Allocate(data, onStderr), Transmit(0)])
            == s.(outWindow := s.outWindow - n, wire := s.wire + [m], sent := s.sent + [m])
  {
    var s1 := Next(s, Allocate(data, onStderr));
    RunTwo(s, Allocate(data, onStderr), Transmit(0));
    assert Without(s1.granted, 0) == [];
  }

  function ReadStep(n: nat, onStderr: bool): Step {
    if onStderr then RecvStderr(n) else Step.Recv(n)
  }

  /** A read, the counting of what was read, and the adjustment if one is due. */
  function ReadSteps(n: nat, onStderr: bool, k: nat, ack: nat): seq<Step> {
    [ReadStep(n, onStderr)] + (if k > 0 then [Count(0)] else []) + (if ack > 0 then [SendAck(0)] else [])
  }

  /** What counting `k` read bytes does to a system. */
  function Counted(s: System, k: nat): System {
    s.(lost := if s.shut then s.lost + k else s.lost,
       sofar := SofarAfter(s.shut, s.sofar, s.threshold, k),
       adjusts := Push(s.adjusts, AckDue(s, k)))
  }

  function AckDue(s: System, k: nat): nat {
    AckOf(s.shut, s.sofar, s.threshold, k)
  }

  lemma CountIs(s: System, k: nat)
    requires s.maxPacket > 64 && s.taken == [k] && s.acks == [] && k > 0
    ensures Enabled(s, Count(0))
    ensures AckDue(s, k) > 0 ==>
              Enabled(Next(s, Count(0)), SendAck(0))
                  && Next(Next(s, Count(0)), SendAck(0)) == Counted(s.(taken := []), k)
    ensures AckDue(s, k) == 0 ==> Next(s, Count(0)) == Counted(s.(taken := []), k)
  {
    assert Without(s.taken, 0) == [];
    if AckDue(s, k) > 0 {
      assert Push([], AckDue(s, k)) == [AckDue(s, k)];
      assert Without([AckDue(s, k)], 0) == [];
    }
  }

  /** The system after a read of either buffer, before it is counted. */
  function Took(s: System, n: nat, onStderr: bool): System {
    if onStderr then
      var k := Min(n, |s.stderr|);
      s.(stderr := s.stderr[k..], readStderr := s.readStderr + s.stderr[..k])
    else
      var k := Min(n, |s.main|);
      s.(main := s.main[k..], readMain := s.readMain + s.main[..k])
  }

  lemma TookIs(s: System, n: nat, onStderr: bool)
    requires s.maxPacket > 64 && s.taken == [] && s.sofar <= s.threshold && Enabled(s, ReadStep(n, onStderr))
    ensures var k := Min(n, if onStderr then |s.stderr| else |s.main|);
            var next := Next(s, ReadStep(n, onStderr));
            && next.taken == (if k > 0 then [k] else []) && next.(taken := []) == Took(s, n, onStderr)
            && next.acks == s.acks && AckDue(next, k) == AckDue(s, k)
    ensures Counted(Took(s, n, onStderr), 0) == Took(s, n, onStderr)
  {
  }

  lemma NoAckForNothing(s: System)
    requires s.sofar <= s.threshold
    ensures AckDue(s, 0) == 0
  {
  }

  lemma ReadIs(s: System, n: nat, onStderr: bool)
    requires s.maxPacket > 64 && s.taken == [] && s.acks == [] && s.sofar <= s.threshold
    requires Enabled(s, ReadStep(n, onStderr))
    ensures var k := Min(n, if onStderr then |s.stderr| else |s.main|);
            Run(s, ReadSteps(n, onStderr, k, AckDue(s, k))) == Counted(Took(s, n, onStderr), k)
  {
    hide Run, Next, Enabled, Took, Counted, AckOf;
    var k := Min(n, if onStderr then |s.stderr| else |s.main|);
    var read, s1 := ReadStep(n, onStderr), Next(s, ReadStep(n, onStderr));
    TookIs(s, n, onStderr);
    RunOne(s, read);
    if k == 0 {
      NoAckForNothing(s);
      assert [read] + [] + [] == [read];
      assert s1 == s1.(taken := []);
    } else {
      CountIs(s1, k);
      RunTwo(s, read, Count(0));
      if AckDue(s, k) == 0 {
        assert [read] + [Count(0)] + [] == [read, Count(0)];
      } else {
        RunConcat(s, [read, Count(0)], [SendAck(0)]);
        RunOne(Next(s1, Count(0)), SendAck(0));
        assert [read] + [Count(0)] + [SendAck(0)] == [read, Count(0)] + [SendAck(0)];
      }
    }
  }

  /** Combining the streams, and moving what was buffered if there is anything. */
  function CombineSteps(s: System, on: bool): seq<Step> {
    [Combine(on)] + if on && !s.combine && s.stderr != [] then [FeedMoved(0)] else []
  }

  lemma CombineIs(s: System, on: bool)
    requires s.maxPacket > 64 && s.moving == []
    ensures Run(s, CombineSteps(s, on))
            == if on && !s.combine then s.(combine := on, main := s.main + s.stderr, stderr := [])
                else s.(combine := on)
  {
    hide Run;
    RunOne(s, Combine(on));
    if on && !s.combine && s.stderr != [] {
      var s1 := Next(s, Combine(on));
      assert CombineSteps(s, on) == [Combine(on), FeedMoved(0)];
      assert s1.moving == [s.stderr] && Without(s1.moving, 0) == [];
      RunTwo(s, Combine(on), FeedMoved(0));
    } else {
      assert CombineSteps(s, on) == [Combine(on)] && s.main + [] == s.main;
    }
  }

  /** The protocol steps of an act in the direction towards the end that acts. */
  function Inward(p: Pair, act: Act): seq<Step>
    requires Settled(p)
  {
    match act
    case ReadData(n, onStderr) =>
      var k := Taking(p.near, n, onStderr);
      if Readable(p.near, onStderr) then ReadSteps(n, onStderr, k, AckDue(View(p), k)) else []
    case Take =>
      if p.inward.arrived == |p.far.outbox| || p.far.outbox[p.inward.arrived].WindowAdjust? then []
      else if p.far.outbox[p.inward.arrived].Message? then [Deliver]
      else [Shut]
    case CombineStreams(on) => CombineSteps(View(p), on)
    case CloseUp => [Shut]
    case _ => []
  }

  /** And in the direction away from it. */
  function Outward(p: Pair, act: Act): seq<Step>
    requires Settled(p)
  {
    match act
    case SendData(s, onStderr) =>
      if p.near.closed || p.near.eofSent || p.near.window == 0 || s == [] then []
      else [Allocate(s, onStderr), Transmit(0)]
    case Take =>
      if p.inward.arrived < |p.far.outbox| && p.far.outbox[p.inward.arrived].WindowAdjust? then [Adjust] else []
    case _ => []
  }

  /** An act is its steps in both directions. */
  ghost predicate Follows(p: Pair, act: Act)
    requires Settled(p)
  {
    && Settled(Do(p, act))
    && View(Do(p, act)) == Run(View(p), Inward(p, act))
    && View(Swap(Do(p, act))) == Run(View(Swap(p)), Outward(p, act))
  }

  lemma SendFollows(p: Pair, s: bytes, onStderr: bool)
    requires Settled(p)
    ensures Follows(p, SendData(s, onStderr))
  {
    hide Run, DataIn, AdjustsIn, UnderWay, MessageOf;
    RunNone(View(p));
    RunNone(View(Swap(p)));
    if !(p.near.closed || p.near.eofSent || p.near.window == 0 || s == []) {
      SendIs(View(Swap(p)), s, onStderr);
      HandedOver(p.near.outbox, p.outward.arrived,
          Message(MessageOf(s[..Grant(p.near.window, p.near.maxPacket, |s|)], onStderr)));
    }
  }

  /** An adjustment handed over is one adjustment more on its way, and no data. */
  lemma AckUnderWay(out: seq<Outgoing>, k: nat, ack: nat)
    requires k <= |out|
    ensures var now := out + Acknowledging(ack);
            && DataIn(UnderWay(now, k)) == DataIn(UnderWay(out, k)) && DataIn(now) == DataIn(out)
            && AdjustsIn(UnderWay(now, k)) == Push(AdjustsIn(UnderWay(out, k)), ack)
  {
    hide DataIn, AdjustsIn, UnderWay;
    if ack > 0 {
      HandedOver(out, k, WindowAdjust(ack));
    } else {
      assert out + [] == out;
    }
  }

  lemma ReadFollows(p: Pair, n: nat, onStderr: bool)
    requires Settled(p)
    ensures Follows(p, ReadData(n, onStderr))
  {
    hide Run, DataIn, AdjustsIn, UnderWay, Push, Acknowledging, ReadSteps;
    RunNone(View(p));
    RunNone(View(Swap(p)));
    if Readable(p.near, onStderr) {
      var k := Taking(p.near, n, onStderr);
      ReadIs(View(p), n, onStderr);
      AckUnderWay(p.near.outbox, p.outward.arrived, AckDue(View(p), k));
    }
  }

  lemma DeliverIs(s: System, m: Msg, rest: seq<Msg>)
    requires s.maxPacket > 64 && s.wire == [m] + rest
    ensures var toMain := m.ChannelData? || (m.code == EXTENDED_STDERR && s.combine);
            var toStderr := m.ExtendedData? && m.code == EXTENDED_STDERR && !s.combine;
            Run(s, [Deliver])
            == s.(wire := rest,
                  main := if toMain then s.main + m.s else s.main,
                  stderr := if toStderr then s.stderr + m.s else s.stderr,
                  lost := s.lost + Discarded(Message(m)))
  {
    hide Run;
    RunOne(s, Deliver);
  }

  lemma DataFollows(p: Pair)
    requires Settled(p) && p.inward.arrived < |p.far.outbox| && p.far.outbox[p.inward.arrived].Message?
    ensures Follows(p, Take)
  {
    hide Run, DataIn, AdjustsIn, UnderWay, Discarded;
    RunNone(View(Swap(p)));
    Arrives(p.far.outbox, p.inward.arrived);
    DeliverIs(View(p), p.far.outbox[p.inward.arrived].m, DataIn(UnderWay(p.far.outbox, p.inward.arrived + 1)));
  }

  lemma AdjustFollows(p: Pair)
    requires Settled(p) && p.inward.arrived < |p.far.outbox| && p.far.outbox[p.inward.arrived].WindowAdjust?
    ensures Follows(p, Take)
  {
    hide Run, DataIn, AdjustsIn, UnderWay;
    RunNone(View(p));
    Arrives(p.far.outbox, p.inward.arrived);
    RunOne(View(Swap(p)), Adjust);
  }

  /** Neither an end of file nor a close is data or an adjustment. */
  lemma ClosingIsSilent(e: End, k: nat)
    requires k <= |e.outbox|
    ensures Silent(e.outbox, EndedBy(e).outbox, k) && Silent(e.outbox, ClosedBy(e).outbox, k)
  {
    hide DataIn, AdjustsIn, UnderWay;
    HandedOver(e.outbox, k, Eof);
    HandedOver(EndedBy(e).outbox, k, CloseMsg);
  }

  predicate Silent(out: seq<Outgoing>, now: seq<Outgoing>, k: nat)
    requires k <= |out|
  {
    && |now| >= |out| && DataIn(now) == DataIn(out)
    && DataIn(UnderWay(now, k)) == DataIn(UnderWay(out, k))
    && AdjustsIn(UnderWay(now, k)) == AdjustsIn(UnderWay(out, k))
  }

  lemma CloseFollows(p: Pair)
    requires Settled(p)
    ensures Follows(p, CloseUp) && Follows(p, EndOut)
  {
    hide Run, DataIn, AdjustsIn, UnderWay;
    RunNone(View(p));
    RunNone(View(Swap(p)));
    RunOne(View(p), Shut);
    ClosingIsSilent(p.near, p.outward.arrived);
  }

  lemma EofFollows(p: Pair)
    requires Settled(p) && p.inward.arrived < |p.far.outbox| && p.far.outbox[p.inward.arrived] == Eof
    ensures Follows(p, Take)
  {
    hide Run, DataIn, AdjustsIn, UnderWay;
    RunNone(View(Swap(p)));
    Arrives(p.far.outbox, p.inward.arrived);
    RunOne(View(p), Shut);
  }

  lemma CloseArrives(p: Pair)
    requires Settled(p) && p.inward.arrived < |p.far.outbox| && p.far.outbox[p.inward.arrived] == CloseMsg
    ensures Follows(p, Take)
  {
    hide Run, DataIn, AdjustsIn, UnderWay;
    RunNone(View(Swap(p)));
    Arrives(p.far.outbox, p.inward.arrived);
    RunOne(View(p), Shut);
    ClosingIsSilent(p.near, p.outward.arrived);
  }

  lemma CombineFollows(p: Pair, on: bool)
    requires Settled(p)
    ensures Follows(p, CombineStreams(on))
  {
    hide Run, DataIn, AdjustsIn, UnderWay, CombineSteps;
    RunNone(View(Swap(p)));
    CombineIs(View(p), on);
  }

  /** Every act of either end is a few steps of the window protocol. */
  lemma ActFollows(p: Pair, act: Act)
    requires Settled(p)
    ensures Follows(p, act)
  {
    hide Follows;
    match act
    case SendData(s, onStderr) => SendFollows(p, s, onStderr);
    case ReadData(n, onStderr) => ReadFollows(p, n, onStderr);
    case Take => TakeFollows(p);
    case CombineStreams(on) => CombineFollows(p, on);
    case _ => CloseFollows(p);
  }

  lemma TakeFollows(p: Pair)
    requires Settled(p)
    ensures Follows(p, Take)
  {
    if p.inward.arrived == |p.far.outbox| {
      RunNone(View(p));
      RunNone(View(Swap(p)));
    } else {
      hide Follows;
      match p.far.outbox[p.inward.arrived]
      case Message(_) => DataFollows(p);
      case WindowAdjust(_) => AdjustFollows(p);
      case Eof => EofFollows(p);
      case CloseMsg => CloseArrives(p);
    }
  }

  // ---- whole conversations ----

  datatype Turn = Near(act: Act) | Far(act: Act)

  /** One of the ends acts. */
  function Turned(p: Pair, turn: Turn): (q: Pair)
    requires Settled(p)
    ensures Settled(q)
  {
    ActFollows(p, turn.act);
    ActFollows(Swap(p), turn.act);
    if turn.Near? then Do(p, turn.act) else Swap(Do(Swap(p), turn.act))
  }

  function Play(p: Pair, turns: seq<Turn>): (q: Pair)
    requires Settled(p)
    ensures Settled(q)
    decreases |turns|
  {
    if turns == [] then p else Play(Turned(p, turns[0]), turns[1..])
  }

  /** One turn is a few steps of the protocol in each direction, and combines streams only where the act does. */
  lemma TurnIsRun(p: Pair, turn: Turn) returns (ins: seq<Step>, outs: seq<Step>)
    requires Settled(p)
    ensures View(Turned(p, turn)) == Run(View(p), ins) && View(Swap(Turned(p, turn))) == Run(View(Swap(p)), outs)
    ensures turn != Near(CombineStreams(true)) ==> Combine(true) !in ins
    ensures turn != Far(CombineStreams(true)) ==> Combine(true) !in outs
  {
    hide View, Run, Do;
    ActFollows(p, turn.act);
    ActFollows(Swap(p), turn.act);
    if turn.Near? {
      ins, outs := Inward(p, turn.act), Outward(p, turn.act);
    } else {
      ins, outs := Outward(Swap(p), turn.act), Inward(Swap(p), turn.act);
    }
  }

  lemma ViewSettled(p: Pair)
    requires Settled(p)
    ensures View(p).maxPacket > 64
  {
  }

  lemma {:induction false} PlayIsRun(p: Pair, turns: seq<Turn>) returns (ins: seq<Step>, outs: seq<Step>)
    requires Settled(p)
    ensures View(Play(p, turns)) == Run(View(p), ins) && View(Swap(Play(p, turns))) == Run(View(Swap(p)), outs)
    ensures Near(CombineStreams(true)) !in turns ==> Combine(true) !in ins
    ensures Far(CombineStreams(true)) !in turns ==> Combine(true) !in outs
    decreases |turns|
  {
    hide View, Run, Turned;
    ViewSettled(p);
    ViewSettled(Swap(p));
    if turns == [] {
      ins, outs := [], [];
      RunNone(View(p));
      RunNone(View(Swap(p)));
    } else {
      var q := Turned(p, turns[0]);
      var in1, out1 := TurnIsRun(p, turns[0]);
      var in2, out2 := PlayIsRun(q, turns[1..]);
      ins, outs := in1 + in2, out1 + out2;
      RunConcat(View(p), in1, in2);
      RunConcat(View(Swap(p)), out1, out2);
    }
  }

  /**
   * The far end's window and everything that came out of it add up to `w`; nothing is lost while the near end is open,
   * and the near end never has more to buffer than it advertised.
   */
  ghost predicate Accounted(p: Pair, w: nat)
    requires Settled(p)
  {
    && p.far.window + Sum(Sizes(DataIn(UnderWay(p.far.outbox, p.inward.arrived)))) + |p.near.main| + |p.near.stderr|
       + p.near.sofar + Sum(AdjustsIn(UnderWay(p.near.outbox, p.outward.arrived))) + p.inward.lost == w
    && (!p.near.Shut() ==> p.inward.lost == 0)
  }

  /** What has been read of each stream is a beginning of what the far end has sent on it. */
  ghost predicate Faithful(p: Pair) {
    && p.inward.readMain <= Stream(DataIn(p.far.outbox), false)
    && p.inward.readStderr <= Stream(DataIn(p.far.outbox), true)
  }

  /** What has been read, is buffered here and is on its way here are the bytes the far end has sent, each once. */
  ghost predicate Whole(p: Pair)
    requires Settled(p)
  {
    multiset(p.inward.readMain) + multiset(p.inward.readStderr) + multiset(p.near.main) + multiset(p.near.stderr)
    + Bag(Payloads(DataIn(UnderWay(p.far.outbox, p.inward.arrived)))) == Bag(Payloads(DataIn(p.far.outbox)))
  }

  lemma OpenedIsWhole(p: Pair, w: nat, maxPacket: nat, steps: seq<Step>)
    requires Settled(p) && maxPacket > 64 && View(p) == Run(Opened(w, maxPacket), steps)
    ensures Whole(p)
  {
    hide Run, DataIn, UnderWay, Payloads, Sum, Sizes;
    BytesArriveOnce(w, maxPacket, steps);
    assert Bag([]) == multiset{};
  }

  lemma OpenedIsAccounted(p: Pair, w: nat, maxPacket: nat, steps: seq<Step>)
    requires Settled(p) && maxPacket > 64 && View(p) == Run(Opened(w, maxPacket), steps)
    ensures Accounted(p, w) && (Combine(true) !in steps ==> Faithful(p))
  {
    hide Run, DataIn, AdjustsIn, UnderWay, Sizes;
    WindowIsConserved(w, maxPacket, steps);
    if Combine(true) !in steps {
      StreamsAreInOrder(w, maxPacket, steps);
    }
    assert Sum(Sizes([])) == 0 && Sum(Lengths([])) == 0 && Sum([]) == 0;
  }

  /**
   * Two channels that have agreed on windows and then act in any order whatever: in both directions the window is
   * conserved and no byte is lost, made or changed, and unless the reader combines its streams each of them is read in
   * the order it was sent.
   */
  lemma ChannelsKeepTheirWindows(p: Pair, turns: seq<Turn>, w: nat, maxPacket: nat, w': nat, maxPacket': nat)
    requires Settled(p) && View(p) == Opened(w, maxPacket) && View(Swap(p)) == Opened(w', maxPacket')
    ensures Accounted(Play(p, turns), w) && Accounted(Swap(Play(p, turns)), w')
    ensures Whole(Play(p, turns)) && Whole(Swap(Play(p, turns)))
    ensures Near(CombineStreams(true)) !in turns ==> Faithful(Play(p, turns))
    ensures Far(CombineStreams(true)) !in turns ==> Faithful(Swap(Play(p, turns)))
  {
    hide View, Run, Play, Accounted, Faithful, Whole;
    ViewSettled(p);
    ViewSettled(Swap(p));
    var ins, outs := PlayIsRun(p, turns);
    OpenedIsAccounted(Play(p, turns), w, maxPacket, ins);
    OpenedIsAccounted(Swap(Play(p, turns)), w', maxPacket', outs);
    OpenedIsWhole(Play(p, turns), w, maxPacket, ins);
    OpenedIsWhole(Swap(Play(p, turns)), w', maxPacket', outs);
  }

  // ---- on the channels themselves ----

  /** The near channel acts. */
  method Perform(c: Channel, other: Channel, inward: Line, outward: Line, act: Act) returns (inward': Line)
    requires Ends(c, other) && Settled(Pair(c.Now(), other.Now(), inward, outward))
    modifies c, c.inbox.main`buffer, c.inbox.main`closed, c.inbox.stderr`buffer, c.inbox.stderr`closed
    modifies c.inbox.main.Flag()`isSet, c.inbox.main.OsPipe()`isSet, c.inbox.main.OsPipe()`content
    modifies c.inbox.main.OsPipe()`forever
    modifies c.inbox.stderr.Flag()`isSet, c.inbox.stderr.OsPipe()`isSet, c.inbox.stderr.OsPipe()`content
    modifies c.inbox.stderr.OsPipe()`forever
    ensures Ends(c, other)
    ensures Pair(c.Now(), other.Now(), inward', outward) == Do(old(Pair(c.Now(), other.Now(), inward, outward)), act)
  {
    hide Ends, SentBy, ReadBy, Got, JoinedBy, EndedBy, ClosedBy;
    inward' := inward;
    match act {
      case SendData(s, onStderr) =>
        var sent := SendOn(c, other, s, onStderr);
      case ReadData(n, onStderr) =>
        var r;
        if onStderr {
          r := ReadStderr(c, other, n);
        } else {
          r := ReadMain(c, other, n);
        }
        if r.Data? {
          inward' := inward.(lost := if c.closed || c.eofReceived then inward.lost + |r.out| else inward.lost,
                             readMain := if onStderr then inward.readMain else inward.readMain + r.out,
                             readStderr := if onStderr then inward.readStderr + r.out else inward.readStderr);
        }
      case Take =>
        if inward.arrived < |other.outbox| {
          var x := other.outbox[inward.arrived];
          Hear(c, other, x);
          inward' := inward.(arrived := inward.arrived + 1, lost := inward.lost + Discarded(x));
        }
      case CombineStreams(on) =>
        var was := Join(c, other, on);
      case EndOut =>
        EndStream(c, other);
      case CloseUp =>
        Close(c, other);
    }
  }

  /** Both channels act, in the order given. */
  method Converse(near: Channel, far: Channel, inward: Line, outward: Line, turns: seq<Turn>)
    returns (inward': Line, outward': Line)
    requires Ends(near, far) && Settled(Pair(near.Now(), far.Now(), inward, outward))
    modifies near, near.inbox.main`buffer, near.inbox.main`closed, near.inbox.stderr`buffer, near.inbox.stderr`closed
    modifies near.inbox.main.Flag()`isSet, near.inbox.main.OsPipe()`isSet, near.inbox.main.OsPipe()`content
    modifies near.inbox.main.OsPipe()`forever
    modifies near.inbox.stderr.Flag()`isSet, near.inbox.stderr.OsPipe()`isSet, near.inbox.stderr.OsPipe()`content
    modifies near.inbox.stderr.OsPipe()`forever
    modifies far, far.inbox.main`buffer, far.inbox.main`closed, far.inbox.stderr`buffer, far.inbox.stderr`closed
    modifies far.inbox.main.Flag()`isSet, far.inbox.main.OsPipe()`isSet, far.inbox.main.OsPipe()`content
    modifies far.inbox.main.OsPipe()`forever
    modifies far.inbox.stderr.Flag()`isSet, far.inbox.stderr.OsPipe()`isSet, far.inbox.stderr.OsPipe()`content
    modifies far.inbox.stderr.OsPipe()`forever
    ensures Ends(near, far)
    ensures Pair(near.Now(), far.Now(), inward', outward')
            == Play(old(Pair(near.Now(), far.Now(), inward, outward)), turns)
    decreases turns
  {
    hide Ends, Settled, Do, Channel.Now;
    inward', outward' := inward, outward;
    if turns == [] {
      return;
    }
    ghost var p := Pair(near.Now(), far.Now(), inward, outward);
    SettledSwap(p);
    if turns[0].Near? {
      inward' := Perform(near, far, inward, outward, turns[0].act);
    } else {
      EndsSwap(near, far);
      outward' := Perform(far, near, outward, inward, turns[0].act);
      EndsSwap(far, near);
    }
    assert Pair(near.Now(), far.Now(), inward', outward') == Turned(p, turns[0]);
    inward', outward' := Converse(near, far, inward', outward', turns[1..]);
  }

  lemma SettledSwap(p: Pair)
    requires Settled(p)
    ensures Settled(Swap(p))
  {
  }

  lemma EndsSwap(c: Channel, other: Channel)
    requires Ends(c, other)
    ensures Ends(other, c)
  {
    hide Sound;
  }

  /** What an end has when both have told each other their windows: it receives on `own` and sends on `peers`. */
  function OpenEnd(own: nat, peers: nat, packet: nat): End {
    End(peers, Clamp(MIN_PACKET_SIZE, packet, MAX_WINDOW_SIZE), [], [], [], false, 0, own / 10, false, false, false)
  }

  function OpenPair(windowNear: nat, packetNear: nat, windowFar: nat, packetFar: nat): (p: Pair)
    ensures Settled(p)
    ensures View(p) == Opened(windowNear, p.far.maxPacket) && View(Swap(p)) == Opened(windowFar, p.near.maxPacket)
  {
    Pair(OpenEnd(windowNear, windowFar, packetFar), OpenEnd(windowFar, windowNear, packetNear), IDLE, IDLE)
  }

  /** A new channel, once both sides' windows are known. */
  method OpenChannel(own: nat, ownPacket: nat, peers: nat, packet: nat) returns (c: Channel)
    ensures fresh(c) && fresh(c.inbox) && fresh(c.inbox.main) && fresh(c.inbox.stderr) && c.inbox.pipe == null
    ensures Sound(c) && c.Now() == OpenEnd(own, peers, packet)
  {
    c := new Channel();
    c.SetWindow(own, ownPacket);
    c.SetRemoteChannel(peers, packet);
  }

  lemma NoPipeIsApart(c: Channel, other: Channel)
    requires c != other && Sound(c) && Sound(other) && c.inbox.pipe == null && other.inbox.pipe == null
    requires c.inbox != other.inbox && {c.inbox.main, c.inbox.stderr} !! {other.inbox.main, other.inbox.stderr}
    ensures Ends(c, other)
  {
  }

  method Connect(windowNear: nat, packetNear: nat, windowFar: nat, packetFar: nat) returns (near: Channel, far: Channel)
    ensures fresh(near) && fresh(far) && Ends(near, far)
    ensures fresh(near.inbox.main) && fresh(near.inbox.stderr) && near.inbox.pipe == null
    ensures fresh(far.inbox.main) && fresh(far.inbox.stderr) && far.inbox.pipe == null
    ensures Pair(near.Now(), far.Now(), IDLE, IDLE) == OpenPair(windowNear, packetNear, windowFar, packetFar)
  {
    hide Ends, Channel.Now, View;
    near := OpenChannel(windowNear, packetNear, windowFar, packetFar);
    far := OpenChannel(windowFar, packetFar, windowNear, packetNear);
    NoPipeIsApart(near, far);
  }

  lemma NoEvents(near: Channel, far: Channel)
    requires Ends(near, far) && near.inbox.pipe == null && far.inbox.pipe == null
    ensures near.inbox.main.event == near.inbox.stderr.event == far.inbox.main.event == far.inbox.stderr.event == null
  {
  }

  /**
   * A channel from its opening on, whatever its two ends do: both windows are conserved, no byte is lost, made or
   * changed, and each stream that is not combined is read in the order it was sent.
   */
  method Conversation(windowNear: nat, packetNear: nat, windowFar: nat, packetFar: nat, turns: seq<Turn>)
    returns (near: Channel, far: Channel, inward: Line, outward: Line)
    ensures var p := Pair(near.Now(), far.Now(), inward, outward);
            && p == Play(OpenPair(windowNear, packetNear, windowFar, packetFar), turns)
            && Accounted(p, windowNear) && Accounted(Swap(p), windowFar) && Whole(p) && Whole(Swap(p))
            && (Near(CombineStreams(true)) !in turns ==> Faithful(p))
            && (Far(CombineStreams(true)) !in turns ==> Faithful(Swap(p)))
  {
    hide Ends, Play, Accounted, Faithful, Whole, Channel.Now;
    near, far := Connect(windowNear, packetNear, windowFar, packetFar);
    ghost var p := OpenPair(windowNear, packetNear, windowFar, packetFar);
    NoEvents(near, far);
    inward, outward := Converse(near, far, IDLE, IDLE, turns);
    ChannelsKeepTheirWindows(p, turns, windowNear, p.far.maxPacket, windowFar, p.near.maxPacket);
  }
}
