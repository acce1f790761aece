/** One end of a channel: its send window, its receive window, and the buffers behind `recv`. */
module Channels {
  import opened Basics
  import opened Bytes
  import opened Pipes
  import opened Windows

  const MIN_PACKET_SIZE := 0x1000
  const MAX_WINDOW_SIZE := 0xffff_ffff

  /** What a channel hands to its transport. */
  datatype Outgoing = Message(m: Msg) | WindowAdjust(n: nat) | Eof | CloseMsg

  /**
   * What happens while a sender waits for window space: other threads widen the window or take from it, close the
   * channel or send our end of file, and at some point the wait is over, possibly with the sender's time used up.
   */
  datatype Meanwhile = Adjusted(n: nat) | Taken(n: nat) | ClosedMeanwhile | EofSentMeanwhile | WaitOver(expired: bool)

  datatype SendResult = Sent(n: nat) | SocketClosed | TimedOut | Waiting

  /** `Spins`: every further turn of the loop sends nothing, since our end of file went out already. */
  datatype SendAllResult = AllSent | Failed(why: SendResult) | Spins

  function Clamp(minimum: int, val: int, maximum: int): (r: int)
    ensures minimum <= maximum ==> minimum <= r <= maximum
    ensures minimum <= val <= maximum ==> r == val
    ensures minimum <= maximum < val ==> r == maximum
    ensures val < minimum <= maximum ==> r == minimum
  {
    var v := if val < maximum then val else maximum;
    if minimum > v then minimum else v
  }

  function MessageOf(s: bytes, onStderr: bool): (m: Msg)
    ensures m.s == s && (if onStderr then m == ExtendedData(1, s) else m.ChannelData?)
  {
    if onStderr then ExtendedData(EXTENDED_STDERR, s) else ChannelData(s)
  }

  /** The window after a run of such events; nobody takes more than there is. */
  function WindowAfter(window: nat, events: seq<Meanwhile>): nat {
    if events == [] then window
    else
      var w := WindowAfter(window, events[..|events| - 1]);
      match events[|events| - 1]
      case Adjusted(n) => w + n
      case Taken(n) => w - Min(n, w)
      case _ => w
  }

  /** The contents of a run of messages, one after another. */
  function Contents(out: seq<Outgoing>): bytes {
    if out == [] then [] else (if out[0].Message? then out[0].m.s else []) + Contents(out[1..])
  }

  lemma {:induction false} ContentsAppend(out: seq<Outgoing>, x: Outgoing)
    ensures Contents(out + [x]) == Contents(out) + (if x.Message? then x.m.s else [])
  {
    if out == [] {
      assert [] + [x] == [x];
      assert Contents([x]) == (if x.Message? then x.m.s else []) + [];
    } else {
      assert (out + [x])[1..] == out[1..] + [x];
      ContentsAppend(out[1..], x);
    }
  }

  /** A wait that was over at the `k`th event left no reason to stop waiting: no window, no end, and time to spare. */
  predicate WaitsOn(window: nat, events: seq<Meanwhile>, k: nat)
    requires k < |events|
  {
    events[k].WaitOver? ==>
      && !events[k].expired && WindowAfter(window, events[..k + 1]) == 0
      && ClosedMeanwhile !in events[..k + 1] && EofSentMeanwhile !in events[..k + 1]
  }

  /** All the waits so far did, but possibly the last one. */
  predicate WaitedThrough(window: nat, events: seq<Meanwhile>, n: nat)
    requires n <= |events|
  {
    forall k :: 0 <= k < n ==> WaitsOn(window, events, k)
  }

  /** The window is still closed and nothing has ended, so the last wait goes on as well. */
  lemma StillClosed(window: nat, events: seq<Meanwhile>)
    requires WindowAfter(window, events) == 0 && ClosedMeanwhile !in events && EofSentMeanwhile !in events
    requires events != [] ==> events[|events| - 1] == WaitOver(false) && WaitedThrough(window, events, |events| - 1)
    ensures WaitedThrough(window, events, |events|)
  {
    hide WindowAfter;
    assert events[..|events|] == events;
  }

  lemma LastWait(window: nat, before: seq<Meanwhile>, more: seq<Meanwhile>, over: bool)
    requires WaitedThrough(window, before, |before|)
    requires forall k :: 0 <= k < |more| && more[k].WaitOver? ==> over && k == |more| - 1
    ensures WaitedThrough(window, before + more, |before| + |more| - if over && more != [] then 1 else 0)
  {
    hide WindowAfter;
    var all := before + more;
    forall k | 0 <= k < |before|
      ensures WaitsOn(window, all, k)
    {
      assert WaitsOn(window, before, k) && all[..k + 1] == before[..k + 1];
    }
  }

  /** Messages of one stream, none of them empty or too long. */
  predicate AllMessages(sent: seq<Outgoing>, onStderr: bool, room: nat) {
    forall x :: x in sent ==> x.Message? && x.m == MessageOf(x.m.s, onStderr) && 0 < |x.m.s| <= room
  }

  lemma NoMessages(onStderr: bool, room: nat)
    ensures AllMessages([], onStderr, room) && Contents([]) == []
  {
  }

  /** One more piece of what is left goes out. */
  lemma OneMore(s: bytes, sent: seq<Outgoing>, rest: bytes, n: nat, onStderr: bool, room: nat)
    requires Contents(sent) + rest == s && AllMessages(sent, onStderr, room) && 0 < n <= |rest| && n <= room
    ensures var more := sent + [Message(MessageOf(rest[..n], onStderr))];
            AllMessages(more, onStderr, room) && Contents(more) + rest[n..] == s
  {
    ContentsAppend(sent, Message(MessageOf(rest[..n], onStderr)));
    assert Contents(sent) + rest[..n] + rest[n..] == Contents(sent) + rest;
  }

  lemma NoWaits(window: nat)
    ensures WaitedThrough(window, [], 0)
  {
  }

  lemma NothingHappens(window: nat)
    ensures WindowAfter(window, []) == window
  {
  }

  lemma WindowNext(window: nat, events: seq<Meanwhile>, e: Meanwhile)
    ensures WindowAfter(window, events + [e]) ==
            var w := WindowAfter(window, events);
            if e.Adjusted? then w + e.n else if e.Taken? then w - Min(e.n, w) else w
  {
    assert (events + [e])[..|events|] == events;
  }

  lemma {:induction false} WindowAfterBoth(window: nat, a: seq<Meanwhile>, b: seq<Meanwhile>)
    ensures WindowAfter(window, a + b) == WindowAfter(WindowAfter(window, a), b)
  {
    if b == [] {
      assert a + b == a;
    } else {
      var n := |b| - 1;
      assert (a + b)[..|a| + n] == a + b[..n];
      WindowAfterBoth(window, a, b[..n]);
    }
  }

  // ---- what the calls come to ----

  /** What a channel's calls act on. */
  datatype End = End(
    window: nat, maxPacket: nat, outbox: seq<Outgoing>,
    main: bytes, stderr: bytes, combine: bool, sofar: nat, threshold: nat,
    closed: bool, eofSent: bool, eofReceived: bool)
  {
    predicate Shut() {
      closed || eofReceived
    }
  }

  /** One message of at most the window; a sender that would have to wait has not sent anything yet. */
  function SentBy(e: End, s: bytes, onStderr: bool): End
    requires e.maxPacket > 64
  {
    if e.closed || e.eofSent || e.window == 0 || s == [] then e
    else
      var n := Grant(e.window, e.maxPacket, |s|);
      e.(window := e.window - n, outbox := e.outbox + [Message(MessageOf(s[..n], onStderr))])
  }

  predicate Readable(e: End, onStderr: bool) {
    (if onStderr then e.stderr else e.main) != [] || e.Shut()
  }

  /** How many bytes a read takes. */
  function Taking(e: End, n: nat, onStderr: bool): nat {
    Min(n, if onStderr then |e.stderr| else |e.main|)
  }

  function AckOf(shut: bool, sofar: nat, threshold: nat, k: nat): nat {
    if shut then 0 else Credit(sofar, threshold, k).1
  }

  function SofarAfter(shut: bool, sofar: nat, threshold: nat, k: nat): nat {
    if shut then sofar else Credit(sofar, threshold, k).0
  }

  function Acknowledging(ack: nat): seq<Outgoing> {
    if ack > 0 then [WindowAdjust(ack)] else []
  }

  /** A read takes from the front, counts what it took, and hands over the adjustment that is due. */
  function ReadBy(e: End, n: nat, onStderr: bool): End {
    var k := Taking(e, n, onStderr);
    if !Readable(e, onStderr) then e
    else
      e.(main := if onStderr then e.main else e.main[k..],
         stderr := if onStderr then e.stderr[k..] else e.stderr,
         sofar := SofarAfter(e.Shut(), e.sofar, e.threshold, k),
         outbox := e.outbox + Acknowledging(AckOf(e.Shut(), e.sofar, e.threshold, k)))
  }

  lemma NotReadable(e: End, n: nat, onStderr: bool)
    ensures !Readable(e, onStderr) ==> ReadBy(e, n, onStderr) == e
  {
  }

  /** The same, told by the bytes that come out and those that are left. */
  lemma ReadByIs(e: End, n: nat, onStderr: bool, out: bytes, rest: bytes)
    requires (if onStderr then e.stderr else e.main) == out + rest
    requires |out| == Min(n, if onStderr then |e.stderr| else |e.main|)
    ensures Readable(e, onStderr) ==>
              ReadBy(e, n, onStderr) ==
              e.(main := if onStderr then e.main else rest, stderr := if onStderr then rest else e.stderr,
                  sofar := SofarAfter(e.Shut(), e.sofar, e.threshold, |out|),
                  outbox := e.outbox + Acknowledging(AckOf(e.Shut(), e.sofar, e.threshold, |out|)))
  {
  }

  /** Combining moves what is buffered for stderr behind the main stream. */
  function JoinedBy(e: End, on: bool): End {
    if on && !e.combine then e.(combine := on, main := e.main + e.stderr, stderr := []) else e.(combine := on)
  }

  function EndedBy(e: End): End {
    if e.eofSent then e else e.(eofSent := true, outbox := e.outbox + [Eof])
  }

  function ClosedBy(e: End): End {
    if e.closed then e else EndedBy(e).(closed := true, outbox := EndedBy(e).outbox + [CloseMsg])
  }

  /** What a packet from the peer does. */
  function Got(e: End, x: Outgoing): End {
    match x
    case Message(ChannelData(s)) => e.(main := e.main + s)
    case Message(ExtendedData(code, s)) =>
      if code != EXTENDED_STDERR then e
      else if e.combine then e.(main := e.main + s)
      else e.(stderr := e.stderr + s)
    case WindowAdjust(n) => e.(window := e.window + n)
    case Eof => e.(eofReceived := true)
    case CloseMsg => ClosedBy(e)
  }

  class Channel {
    const inbox: Inbox
    var active: bool
    var closed: bool
    var eofReceived: bool
    var eofSent: bool
    var combineStderr: bool
    var inWindowSize: nat
    var inMaxPacketSize: nat
    var inWindowThreshold: nat
    var inWindowSofar: nat
    var outWindowSize: nat
    var outMaxPacketSize: nat
    /** Messages handed to the transport, in order. */
    var outbox: seq<Outgoing>
    /** What will happen while this end waits for window space. */
    var waits: seq<Meanwhile>

    ghost predicate Valid()
      reads this, inbox, inbox.main, inbox.stderr, inbox.main.event, inbox.stderr.event
      reads inbox.main.OsPipe(), inbox.stderr.OsPipe()
    {
      inbox.Wired() && outMaxPacketSize > 64
    }

    /** Reads are no longer credited. */
    predicate Shut()
      reads this
    {
      closed || eofReceived || !active
    }

    /** An open channel, whose buffers are closed once reads are no longer credited. */
    ghost predicate InUse()
      reads this, inbox.main, inbox.stderr
    {
      active && inbox.main.closed == inbox.stderr.closed == Shut()
    }

    ghost function Now(): End
      reads this, inbox.main, inbox.stderr
    {
      End(outWindowSize, outMaxPacketSize, outbox, inbox.main.buffer, inbox.stderr.buffer, combineStderr,
          inWindowSofar, inWindowThreshold, closed, eofSent, eofReceived)
    }

    constructor ()
      ensures Valid() && fresh(inbox) && fresh(inbox.main) && fresh(inbox.stderr) && inbox.pipe == null
      ensures !active && waits == [] && !inbox.main.closed && !inbox.stderr.closed
      ensures Now() == End(0, MIN_PACKET_SIZE, [], [], [], false, 0, 0, false, false, false)
    {
      inbox := new Inbox();
      active, closed, eofReceived, eofSent, combineStderr := false, false, false, false, false;
      inWindowSize, inMaxPacketSize, inWindowThreshold, inWindowSofar, outWindowSize := 0, 0, 0, 0, 0;
      outMaxPacketSize := MIN_PACKET_SIZE;
      outbox, waits := [], [];
    }

    method SetWindow(windowSize: nat, maxPacketSize: nat)
      modifies this`inWindowSize, this`inMaxPacketSize, this`inWindowThreshold, this`inWindowSofar
      ensures inWindowSize == windowSize && inMaxPacketSize == maxPacketSize
      ensures inWindowThreshold == windowSize / 10 && inWindowSofar == 0
    {
      inWindowSize, inMaxPacketSize := windowSize, maxPacketSize;
      inWindowThreshold := windowSize / 10;
      inWindowSofar := 0;
    }

    method SetRemoteChannel(windowSize: nat, maxPacketSize: nat)
      modifies this`outWindowSize, this`outMaxPacketSize, this`active
      ensures outWindowSize == windowSize && active
      ensures MIN_PACKET_SIZE <= maxPacketSize <= MAX_WINDOW_SIZE ==> outMaxPacketSize == maxPacketSize
      ensures maxPacketSize < MIN_PACKET_SIZE ==> outMaxPacketSize == MIN_PACKET_SIZE
      ensures maxPacketSize > MAX_WINDOW_SIZE ==> outMaxPacketSize == MAX_WINDOW_SIZE
      ensures outMaxPacketSize > 64
    {
      outWindowSize := windowSize;
      outMaxPacketSize := Clamp(MIN_PACKET_SIZE, maxPacketSize, MAX_WINDOW_SIZE);
      active := true;
    }

    /** One wait: the lock is free until it is over. */
    method Wait() returns (over: Option<bool>, ghost used: seq<Meanwhile>)
      modifies this`outWindowSize, this`closed, this`eofSent, this`waits
      ensures old(waits) == used + waits
      ensures outWindowSize == WindowAfter(old(outWindowSize), used)
      ensures closed == (old(closed) || ClosedMeanwhile in used)
              && eofSent == (old(eofSent) || EofSentMeanwhile in used)
      ensures match over
              case None => waits == [] && forall e :: e in used ==> !e.WaitOver?
              case Some(expired) =>
                && used != [] && used[|used| - 1] == WaitOver(expired)
                && forall k :: 0 <= k < |used| - 1 ==> !used[k].WaitOver?
    {
      hide WindowAfter;
      used := [];
      NothingHappens(outWindowSize);
      while waits != []
        invariant old(waits) == used + waits
        invariant outWindowSize == WindowAfter(old(outWindowSize), used)
        invariant closed == (old(closed) || ClosedMeanwhile in used)
                  && eofSent == (old(eofSent) || EofSentMeanwhile in used)
        invariant forall e :: e in used ==> !e.WaitOver?
        decreases |waits|
      {
        var e := waits[0];
        waits := waits[1..];
        used := used + [e];
        WindowNext(old(outWindowSize), used[..|used| - 1], e);
        assert used[..|used| - 1] + [e] == used;
        match e {
          case Adjusted(n) => outWindowSize := outWindowSize + n;
          case Taken(n) => outWindowSize := outWindowSize - Min(n, outWindowSize);
          case ClosedMeanwhile => closed := true;
          case EofSentMeanwhile => eofSent := true;
          case WaitOver(expired) => return Some(expired), used;
        }
      }
      over := None;
    }

    /**
     * Waits until the window is open and takes up to `size` bytes from it. Other threads run only while it waits,
     * so the window moves by the events in `used` and by the amount returned, and by nothing else. The time may be
     * up even though the window has opened.
     */
    method WaitForSendWindow(size: nat) returns (r: SendResult, ghost used: seq<Meanwhile>)
      requires outMaxPacketSize > 64
      modifies this`outWindowSize, this`closed, this`eofSent, this`waits
      ensures old(waits) == used + waits
      ensures closed == (old(closed) || ClosedMeanwhile in used)
              && eofSent == (old(eofSent) || EofSentMeanwhile in used)
      ensures old(closed) || old(eofSent) || old(outWindowSize) > 0 ==> used == [] && r.Sent?
      ensures !r.SocketClosed? && (r.Sent? ==> WaitOver(true) !in used)
      ensures WaitedThrough(old(outWindowSize), used, if r.Waiting? || used == [] then |used| else |used| - 1)
      ensures var open := WindowAfter(old(outWindowSize), used);
              match r
              case Sent(n) =>
                if closed || eofSent then n == 0 && outWindowSize == open
                else
                  && open > 0 && outWindowSize == open - n
                  && n <= size && n <= open && n <= outMaxPacketSize - 64
                  && (n == size || n == open || n == outMaxPacketSize - 64)
              case TimedOut => outWindowSize == open && used != [] && used[|used| - 1] == WaitOver(true)
              case _ => outWindowSize == open && waits == []
    {
      hide WaitsOn, WaitedThrough, WindowAfter;
      used := [];
      NoWaits(outWindowSize);
      NothingHappens(outWindowSize);
      if closed || eofSent {
        return Sent(0), used;
      }
      while outWindowSize == 0
        invariant old(waits) == used + waits
        invariant outWindowSize == WindowAfter(old(outWindowSize), used)
        invariant closed == (old(closed) || ClosedMeanwhile in used)
                  && eofSent == (old(eofSent) || EofSentMeanwhile in used)
        invariant WaitOver(true) !in used && (old(outWindowSize) > 0 ==> used == [])
        invariant used != [] ==>
                    used[|used| - 1] == WaitOver(false) && WaitedThrough(old(outWindowSize), used, |used| - 1)
        decreases |waits|
      {
        if closed || eofSent {
          return Sent(0), used;
        }
        ghost var before := used;
        StillClosed(old(outWindowSize), before);
        var over;
        ghost var more;
        over, more := Wait();
        WindowAfterBoth(old(outWindowSize), before, more);
        LastWait(old(outWindowSize), before, more, over.Some?);
        used := before + more;
        if over == None {
          return Waiting, used;
        }
        if over.value {
          return TimedOut, used;
        }
      }
      if closed || eofSent {
        return Sent(0), used;
      }
      var n := size;
      if outWindowSize < n {
        n := outWindowSize;
      }
      if outMaxPacketSize - 64 < n {
        n := outMaxPacketSize - 64;
      }
      outWindowSize := outWindowSize - n;
      r := Sent(n);
    }

    /** One message of at most the window, handed over after the window was taken; nothing when the stream has ended. */
    method Send(s: bytes, onStderr: bool) returns (r: SendResult, ghost used: seq<Meanwhile>)
      requires outMaxPacketSize > 64
      modifies this`outWindowSize, this`closed, this`eofSent, this`waits, this`outbox
      ensures old(waits) == used + waits
      ensures closed == (old(closed) || ClosedMeanwhile in used)
              && eofSent == (old(eofSent) || EofSentMeanwhile in used)
      ensures WaitedThrough(old(outWindowSize), used, if r.Waiting? || used == [] then |used| else |used| - 1)
      ensures r.SocketClosed? <==> old(closed)
      ensures old(eofSent) || old(outWindowSize) > 0 ==> used == [] && (r.SocketClosed? || r.Sent?)
      ensures var open := WindowAfter(old(outWindowSize), used);
              match r
              case Sent(n) =>
                if closed || eofSent then n == 0 && outWindowSize == open
                else
                  && open > 0 && outWindowSize == open - n
                  && n <= |s| && n <= open && n <= outMaxPacketSize - 64
                  && (n == |s| || n == open || n == outMaxPacketSize - 64)
              case TimedOut => outWindowSize == open && used != [] && used[|used| - 1] == WaitOver(true)
              case _ => outWindowSize == open && (r.Waiting? ==> waits == [])
      ensures r.Sent? && r.n > 0 ==>
                outbox == old(outbox) + [Message(if onStderr then ExtendedData(1, s[..r.n]) else ChannelData(s[..r.n]))]
      ensures !r.Sent? || r.n == 0 ==> outbox == old(outbox)
      ensures old(waits) == [] ==> Now() == SentBy(old(Now()), s, onStderr)
    {
      hide WaitsOn, WaitedThrough;
      NoWaits(outWindowSize);
      used := [];
      if closed {
        return SocketClosed, used;
      }
      r, used := WaitForSendWindow(|s|);
      if !r.Sent? || r.n == 0 {
        return;
      }
      outbox := outbox + [Message(MessageOf(s[..r.n], onStderr))];
    }

    /** All of `s`, in order and in as many messages as it takes; on failure some prefix of it. */
    method SendAll(s: bytes, onStderr: bool) returns (r: SendAllResult)
      requires outMaxPacketSize > 64
      modifies this`outWindowSize, this`closed, this`eofSent, this`waits, this`outbox
      ensures |outbox| >= |old(outbox)| && outbox[..|old(outbox)|] == old(outbox)
      ensures var sent := outbox[|old(outbox)|..];
              && AllMessages(sent, onStderr, outMaxPacketSize - 64)
              && Contents(sent) <= s
              && (r.AllSent? <==> Contents(sent) == s)
      ensures old(waits) == [] && !old(closed) && !old(eofSent) ==>
                && |Contents(outbox[|old(outbox)|..])| == Min(|s|, old(outWindowSize))
                && outWindowSize == old(outWindowSize) - Min(|s|, old(outWindowSize))
                && r == if |s| <= old(outWindowSize) then AllSent else Failed(Waiting)
      ensures r.Spins? ==> eofSent && !closed
      ensures old(eofSent) && !old(closed) && s != [] ==> r.Spins? && outbox == old(outbox)
      ensures r.Failed? ==>
                match r.why
                case Sent(_) => false
                case SocketClosed => closed
                case TimedOut => WaitOver(true) in old(waits)
                case Waiting => waits == []
      ensures closed ==> old(closed) || ClosedMeanwhile in old(waits)
      ensures eofSent ==> old(eofSent) || EofSentMeanwhile in old(waits)
    {
      hide WindowAfter, SentBy, Channel.Now, AllMessages, Contents, MessageOf;
      var rest := s;
      ghost var sent, spent := [], [];
      NoMessages(onStderr, outMaxPacketSize - 64);
      while |rest| > 0
        invariant outbox == old(outbox) + sent && AllMessages(sent, onStderr, outMaxPacketSize - 64)
        invariant Contents(sent) + rest == s && old(waits) == spent + waits
        invariant closed == (old(closed) || ClosedMeanwhile in spent)
        invariant eofSent == (old(eofSent) || EofSentMeanwhile in spent)
        invariant old(waits) == [] && !old(closed) && !old(eofSent) ==>
                    outWindowSize == old(outWindowSize) - |Contents(sent)|
        invariant old(closed) ==> rest == s && sent == []
        invariant old(eofSent) && !old(closed) ==> !closed && rest == s && sent == []
        decreases |rest| + |waits|, !closed
      {
        NothingHappens(outWindowSize);
        var x, used := Send(rest, onStderr);
        assert spent + (used + waits) == (spent + used) + waits;
        spent := spent + used;
        if !x.Sent? {
          assert outbox[|old(outbox)|..] == sent;
          return Failed(x);
        }
        if x.n == 0 && !closed {
          assert outbox[|old(outbox)|..] == sent;
          return Spins;
        }
        if x.n > 0 {
          ghost var m := Message(MessageOf(rest[..x.n], onStderr));
          OneMore(s, sent, rest, x.n, onStderr, outMaxPacketSize - 64);
          assert outbox == old(outbox) + (sent + [m]);
          sent := sent + [m];
          rest := rest[x.n..];
        }
      }
      assert outbox[|old(outbox)|..] == sent;
      r := AllSent;
    }

    /** Counts bytes handed to the reader; the adjustment due, or 0. */
    method CheckAddWindow(n: nat) returns (ack: nat)
      modifies this`inWindowSofar
      ensures inWindowSofar == SofarAfter(Shut(), old(inWindowSofar), inWindowThreshold, n)
      ensures ack == AckOf(Shut(), old(inWindowSofar), inWindowThreshold, n)
      ensures Shut() ==> ack == 0 && inWindowSofar == old(inWindowSofar)
      ensures !Shut() ==>
                && ack + inWindowSofar == old(inWindowSofar) + n
                && if old(inWindowSofar) + n > inWindowThreshold then inWindowSofar == 0 else ack == 0
    {
      if closed || eofReceived || !active {
        return 0;
      }
      inWindowSofar := inWindowSofar + n;
      if inWindowSofar <= inWindowThreshold {
        return 0;
      }
      ack := inWindowSofar;
      inWindowSofar := 0;
    }

    method Acknowledge(n: nat)
      modifies this`inWindowSofar, this`outbox
      ensures inWindowSofar == SofarAfter(Shut(), old(inWindowSofar), inWindowThreshold, n)
      ensures outbox == old(outbox) + Acknowledging(AckOf(Shut(), old(inWindowSofar), inWindowThreshold, n))
      ensures var due := old(inWindowSofar) + n;
              && inWindowSofar == (if Shut() then old(inWindowSofar) else if due > inWindowThreshold then 0 else due)
              && outbox == old(outbox) + if !Shut() && due > inWindowThreshold then [WindowAdjust(due)] else []
    {
      var ack := CheckAddWindow(n);
      assert outbox + [] == outbox;
      if ack > 0 {
        outbox := outbox + [WindowAdjust(ack)];
      }
    }

    /** Reads from the main stream, counts what was read, and sends the adjustment if one is due. */
    method Recv(nbytes: nat) returns (r: ReadResult)
      requires Valid()
      modifies this`inWindowSofar, this`outbox
      modifies inbox.main`buffer, inbox.main.Flag()`isSet, inbox.main.OsPipe()`isSet, inbox.main.OsPipe()`content
      ensures Valid() && (old(inbox.Accurate()) ==> inbox.Accurate())
      ensures r.WouldBlock? <==> !old(inbox.main.Ready())
      ensures r.WouldBlock? ==>
                inbox.main.buffer == old(inbox.main.buffer) && inWindowSofar == old(inWindowSofar)
                    && outbox == old(outbox)
      ensures r.Data? ==>
                old(inbox.main.buffer) == r.out + inbox.main.buffer && |r.out| == Min(nbytes, |old(inbox.main.buffer)|)
      ensures r.Data? ==>
                var due := old(inWindowSofar) + |r.out|;
                && inWindowSofar == (if Shut() then old(inWindowSofar) else if due > inWindowThreshold then 0 else due)
                && outbox == old(outbox) + if !Shut() && due > inWindowThreshold then [WindowAdjust(due)] else []
      ensures InUse() ==> Now() == ReadBy(old(Now()), nbytes, false)
    {
      hide ReadBy, AckOf, SofarAfter, Acknowledging, Taking;
      NotReadable(Now(), nbytes, false);
      r := inbox.Recv(nbytes);
      if r.WouldBlock? {
        return;
      }
      ReadByIs(old(Now()), nbytes, false, r.out, inbox.main.buffer);
      Acknowledge(|r.out|);
    }

    method RecvStderr(nbytes: nat) returns (r: ReadResult)
      requires Valid()
      modifies this`inWindowSofar, this`outbox
      modifies inbox.stderr`buffer, inbox.stderr.Flag()`isSet, inbox.stderr.OsPipe()`isSet
      modifies inbox.stderr.OsPipe()`content
      ensures Valid() && (old(inbox.Accurate()) ==> inbox.Accurate())
      ensures r.WouldBlock? <==> !old(inbox.stderr.Ready())
      ensures r.WouldBlock? ==>
                inbox.stderr.buffer == old(inbox.stderr.buffer) && inWindowSofar == old(inWindowSofar)
                    && outbox == old(outbox)
      ensures r.Data? ==>
                old(inbox.stderr.buffer) == r.out + inbox.stderr.buffer
                    && |r.out| == Min(nbytes, |old(inbox.stderr.buffer)|)
      ensures r.Data? ==>
                var due := old(inWindowSofar) + |r.out|;
                && inWindowSofar == (if Shut() then old(inWindowSofar) else if due > inWindowThreshold then 0 else due)
                && outbox == old(outbox) + if !Shut() && due > inWindowThreshold then [WindowAdjust(due)] else []
      ensures InUse() ==> Now() == ReadBy(old(Now()), nbytes, true)
    {
      hide ReadBy, AckOf, SofarAfter, Acknowledging, Taking;
      NotReadable(Now(), nbytes, true);
      r := inbox.RecvStderr(nbytes);
      if r.WouldBlock? {
        return;
      }
      ReadByIs(old(Now()), nbytes, true, r.out, inbox.stderr.buffer);
      Acknowledge(|r.out|);
    }

    method Feed(s: bytes)
      requires Valid()
      modifies inbox.main`buffer, inbox.main.Flag()`isSet, inbox.main.OsPipe()`isSet, inbox.main.OsPipe()`content
      ensures Valid() && inbox.main.buffer == old(inbox.main.buffer) + s
      ensures old(inbox.Accurate()) && (s != [] || old(inbox.main.Ready())) ==> inbox.Accurate()
      ensures Now() == Got(old(Now()), Message(ChannelData(s)))
    {
      inbox.Feed(s);
    }

    /** Only the stderr code is stored, in the stderr buffer or, when the streams are combined, in the main one. */
    method FeedExtended(code: nat, s: bytes)
      requires Valid()
      modifies inbox.main`buffer, inbox.main.Flag()`isSet, inbox.main.OsPipe()`isSet, inbox.main.OsPipe()`content
      modifies inbox.stderr`buffer, inbox.stderr.Flag()`isSet, inbox.stderr.OsPipe()`isSet
      modifies inbox.stderr.OsPipe()`content
      ensures Valid()
      ensures inbox.main.buffer == if code == EXTENDED_STDERR && combineStderr then old(inbox.main.buffer) + s
              else old(inbox.main.buffer)
      ensures inbox.stderr.buffer == if code == EXTENDED_STDERR && !combineStderr then old(inbox.stderr.buffer) + s
              else old(inbox.stderr.buffer)
      ensures old(inbox.Accurate()) && s != [] ==> inbox.Accurate()
      ensures Now() == Got(old(Now()), Message(ExtendedData(code, s)))
    {
      if code != EXTENDED_STDERR {
        return;
      }
      if combineStderr {
        Feed(s);
      } else {
        inbox.FeedStderr(s);
      }
    }

    method AdjustWindow(nbytes: nat)
      modifies this`outWindowSize
      ensures outWindowSize == old(outWindowSize) + nbytes
      ensures Now() == Got(old(Now()), WindowAdjust(nbytes))
    {
      outWindowSize := outWindowSize + nbytes;
    }

    /** Switching the streams together moves what is buffered for stderr behind what is buffered for the main stream. */
    method SetCombineStderr(combine: bool) returns (was: bool)
      requires Valid()
      modifies this`combineStderr
      modifies inbox.main`buffer, inbox.main.Flag()`isSet, inbox.main.OsPipe()`isSet, inbox.main.OsPipe()`content
      modifies inbox.stderr`buffer, inbox.stderr.Flag()`isSet, inbox.stderr.OsPipe()`isSet
      modifies inbox.stderr.OsPipe()`content
      ensures Valid() && (old(inbox.Accurate()) ==> inbox.Accurate())
      ensures was == old(combineStderr) && combineStderr == combine
      ensures combine && !was ==>
                inbox.main.buffer == old(inbox.main.buffer) + old(inbox.stderr.buffer) && inbox.stderr.buffer == []
      ensures !combine || was ==>
                inbox.main.buffer == old(inbox.main.buffer) && inbox.stderr.buffer == old(inbox.stderr.buffer)
      ensures Now() == JoinedBy(old(Now()), combine)
    {
      var data := [];
      was := combineStderr;
      combineStderr := combine;
      if combine && !was {
        data := inbox.TakeStderr();
      }
      if |data| > 0 {
        Feed(data);
      }
    }

    method HandleEof()
      requires Valid()
      modifies this`eofReceived, inbox.main`closed, inbox.stderr`closed
      modifies inbox.main.Flag()`isSet, inbox.stderr.Flag()`isSet
      modifies inbox.main.OsPipe()`isSet, inbox.main.OsPipe()`content, inbox.main.OsPipe()`forever
      ensures Valid() && eofReceived
      ensures !old(eofReceived) ==> inbox.main.closed && inbox.stderr.closed && inbox.Accurate()
      ensures old(eofReceived) && old(inbox.Accurate()) ==> inbox.Accurate()
      ensures old(eofReceived) ==>
                inbox.main.closed == old(inbox.main.closed) && inbox.stderr.closed == old(inbox.stderr.closed)
      ensures Now() == Got(old(Now()), Eof) && (old(InUse()) ==> InUse())
    {
      if !eofReceived {
        eofReceived := true;
        inbox.CloseBoth();
      }
    }

    /** Our end of file goes out at most once. */
    method SendEof()
      modifies this`eofSent, this`outbox
      ensures eofSent && outbox == if old(eofSent) then old(outbox) else old(outbox) + [Eof]
      ensures Now() == EndedBy(old(Now()))
    {
      if eofSent {
        return;
      }
      eofSent := true;
      outbox := outbox + [Eof];
    }

    /** The lock section shared by both ways of closing; it has no effect on a channel that is not open. */
    method CloseInternal()
      requires Valid()
      modifies this`eofSent, this`outbox, this`closed, inbox.main`closed, inbox.stderr`closed
      modifies inbox.main.Flag()`isSet, inbox.stderr.Flag()`isSet
      modifies inbox.main.OsPipe()`isSet, inbox.main.OsPipe()`content, inbox.main.OsPipe()`forever
      ensures Valid() && (old(inbox.Accurate()) ==> inbox.Accurate())
      ensures !active || old(closed) ==>
                && outbox == old(outbox) && closed == old(closed) && eofSent == old(eofSent)
                && inbox.main.closed == old(inbox.main.closed) && inbox.stderr.closed == old(inbox.stderr.closed)
      ensures active && !old(closed) ==>
                && closed && eofSent && inbox.main.closed && inbox.stderr.closed
                && outbox == old(outbox) + (if old(eofSent) then [] else [Eof]) + [CloseMsg]
      ensures old(InUse()) ==> InUse() && Now() == ClosedBy(old(Now()))
    {
      if !active || closed {
        return;
      }
      SendEof();
      outbox := outbox + [CloseMsg];
      closed := true;
      inbox.CloseBoth();
    }
  }
}
