/** The receive buffers of a channel and the OS pipe that makes them selectable. */
module Pipes {
  import opened Basics
  import opened Bytes

  /** An OS pipe used as a flag: readable, with a single byte in it, while it is set. */
  class PosixPipe {
    var isSet: bool
    var forever: bool
    var closed: bool
    /** The number of bytes in the OS pipe. */
    var content: nat

    ghost predicate Valid()
      reads this
    {
      content == if isSet then 1 else 0
    }

    constructor ()
      ensures Valid() && !isSet && !forever && !closed
    {
      isSet, forever, closed, content := false, false, false, 0;
    }

    /** Takes the byte out; `Valid` makes sure there is one, so the read never blocks. */
    method Clear()
      requires Valid()
      modifies this`isSet, this`content
      ensures Valid() && isSet == (old(isSet) && forever)
    {
      if !isSet || forever {
        return;
      }
      assert content > 0;
      content := content - 1;
      isSet := false;
    }

    method Set()
      requires Valid()
      modifies this`isSet, this`content
      ensures Valid() && isSet == (old(isSet) || !closed)
    {
      if isSet || closed {
        return;
      }
      isSet := true;
      content := content + 1;
    }

    method SetForever()
      requires Valid()
      modifies this`isSet, this`content, this`forever
      ensures Valid() && forever && isSet == (old(isSet) || !closed)
    {
      forever := true;
      Set();
    }
  }

  /** One of two flags that share a pipe: the pipe is set while either flag is. */
  class OrPipe {
    var isSet: bool
    var partner: OrPipe?
    const pipe: PosixPipe

    constructor (pipe: PosixPipe)
      ensures !isSet && partner == null && this.pipe == pipe
    {
      isSet, partner := false, null;
      this.pipe := pipe;
    }

    method Set()
      requires partner != null && partner != this && pipe.Valid()
      modifies this`isSet, pipe`isSet, pipe`content
      ensures isSet && pipe.Valid()
      ensures pipe.isSet == (old(pipe.isSet) || (!partner.isSet && !pipe.closed))
    {
      isSet := true;
      if !partner.isSet {
        pipe.Set();
      }
    }

    method Clear()
      requires partner != null && partner != this && pipe.Valid()
      modifies this`isSet, pipe`isSet, pipe`content
      ensures !isSet && pipe.Valid()
      ensures pipe.isSet == (old(pipe.isSet) && (partner.isSet || pipe.forever))
    {
      isSet := false;
      if !partner.isSet {
        pipe.Clear();
      }
    }
  }

  method MakeOrPipe(pipe: PosixPipe) returns (p1: OrPipe, p2: OrPipe)
    ensures fresh(p1) && fresh(p2) && p1 != p2
    ensures p1.partner == p2 && p2.partner == p1 && p1.pipe == pipe && p2.pipe == pipe
    ensures !p1.isSet && !p2.isSet
  {
    p1 := new OrPipe(pipe);
    p2 := new OrPipe(pipe);
    p1.partner := p2;
    p2.partner := p1;
  }

  datatype ReadResult = Data(out: bytes) | WouldBlock

  /** A byte queue fed by one thread and read by another; every method is one step under its lock. */
  class BufferedPipe {
    var buffer: bytes
    var closed: bool
    var event: OrPipe?

    /** What the event reports: a read would not block. */
    predicate Ready()
      reads this
    {
      buffer != [] || closed
    }

    function Flag(): set<OrPipe>
      reads this
    {
      if event == null then {} else {event}
    }

    function OsPipe(): set<PosixPipe>
      reads this, event
    {
      if event == null then {} else {event.pipe}
    }

    /** The event, if there is one, is properly wired to its pipe. */
    ghost predicate Wired()
      reads this, event, OsPipe()
    {
      event != null ==> event.partner != null && event.partner != event && event.pipe.Valid()
    }

    constructor ()
      ensures buffer == [] && !closed && event == null
    {
      buffer, closed, event := [], false, null;
    }

    /** From now on the event reports this buffer, starting with its present state. */
    method SetEvent(e: OrPipe)
      requires e.partner != null && e.partner != e && e.pipe.Valid()
      modifies this`event, e`isSet, e.pipe`isSet, e.pipe`content
      ensures event == e && e.isSet == Ready() && e.pipe.Valid()
      ensures e.pipe.isSet == if Ready() then old(e.pipe.isSet) || (!e.partner.isSet && !e.pipe.closed)
                              else old(e.pipe.isSet) && (e.partner.isSet || e.pipe.forever)
    {
      event := e;
      if closed || |buffer| > 0 {
        event.Set();
      } else {
        event.Clear();
      }
    }

    /** Appends; the event is set even when there is nothing to append. */
    method Feed(data: bytes)
      requires Wired()
      modifies this`buffer, Flag()`isSet, OsPipe()`isSet, OsPipe()`content
      ensures buffer == old(buffer) + data && Wired()
      ensures event != null ==>
                event.isSet && event.pipe.isSet
                    == (old(event.pipe.isSet) || (!event.partner.isSet && !event.pipe.closed))
    {
      if event != null {
        event.Set();
      }
      buffer := buffer + data;
    }

    /** Clearing is what `read` and `empty` do once they have taken everything. */
    method ClearEvent()
      requires Wired()
      modifies Flag()`isSet, OsPipe()`isSet, OsPipe()`content
      ensures Wired()
      ensures event != null ==>
                if closed then event.isSet == old(event.isSet) && event.pipe.isSet == old(event.pipe.isSet)
                else
                  && !event.isSet
                  && event.pipe.isSet == (old(event.pipe.isSet) && (event.partner.isSet || event.pipe.forever))
    {
      if event != null && !closed {
        event.Clear();
      }
    }

    /** At most `nbytes` from the front; blocks while the buffer is empty and open, and is empty only at the end. */
    method Read(nbytes: nat) returns (r: ReadResult)
      requires Wired()
      modifies this`buffer, Flag()`isSet, OsPipe()`isSet, OsPipe()`content
      ensures Wired()
      ensures r.WouldBlock? <==> !old(Ready())
      ensures r.Data? ==> old(buffer) == r.out + buffer && |r.out| == Min(nbytes, |old(buffer)|)
      ensures r.WouldBlock? ==> buffer == old(buffer)
      ensures event != null ==>
                if r.WouldBlock? || closed || buffer != [] then
                  event.isSet == old(event.isSet) && event.pipe.isSet == old(event.pipe.isSet)
                else
                  && !event.isSet
                  && event.pipe.isSet == (old(event.pipe.isSet) && (event.partner.isSet || event.pipe.forever))
    {
      if |buffer| == 0 {
        if closed {
          return Data([]);
        }
        return WouldBlock;
      }
      if |buffer| <= nbytes {
        r := Data(buffer);
        buffer := [];
        ClearEvent();
      } else {
        r := Data(buffer[..nbytes]);
        buffer := buffer[nbytes..];
      }
    }

    method Empty() returns (out: bytes)
      requires Wired()
      modifies this`buffer, Flag()`isSet, OsPipe()`isSet, OsPipe()`content
      ensures Wired() && out == old(buffer) && buffer == []
      ensures event != null ==>
                if closed then event.isSet == old(event.isSet) && event.pipe.isSet == old(event.pipe.isSet)
                else
                  && !event.isSet
                  && event.pipe.isSet == (old(event.pipe.isSet) && (event.partner.isSet || event.pipe.forever))
    {
      out := buffer;
      buffer := [];
      ClearEvent();
    }

    method Close()
      requires Wired()
      modifies this`closed, Flag()`isSet, OsPipe()`isSet, OsPipe()`content
      ensures closed && Wired()
      ensures event != null ==>
                event.isSet && event.pipe.isSet
                    == (old(event.pipe.isSet) || (!event.partner.isSet && !event.pipe.closed))
    {
      closed := true;
      if event != null {
        event.Set();
      }
    }
  }

  // ---- what select sees ----

  /** Two buffers; once there is an OS pipe, a flag for each of them, and whether the pipe is set, and set for good. */
  datatype Readiness = Readiness(
    main: bytes, stderr: bytes, mainClosed: bool, stderrClosed: bool,
    piped: bool, mainFlag: bool, stderrFlag: bool, pipeSet: bool, forever: bool)
  {
    predicate MainReady() {
      main != [] || mainClosed
    }

    predicate StderrReady() {
      stderr != [] || stderrClosed
    }

    /** The pipe says exactly what a reader would find. */
    predicate Accurate() {
      piped ==>
        && mainFlag == MainReady() && stderrFlag == StderrReady()
        && pipeSet == (MainReady() || StderrReady() || forever)
    }
  }

  const UNUSED := Readiness([], [], false, false, false, false, false, false, false)

  /** What happens to a channel's buffers. */
  datatype Call = Asking | Feeding(s: bytes, onStderr: bool) | Reading(n: nat, onStderr: bool) | Combining | Closing

  function Fed(v: Readiness, s: bytes, onStderr: bool): Readiness {
    if onStderr then v.(stderr := v.stderr + s, stderrFlag := v.piped, pipeSet := v.piped && (v.pipeSet || !v.mainFlag))
    else v.(main := v.main + s, mainFlag := v.piped, pipeSet := v.piped && (v.pipeSet || !v.stderrFlag))
  }

  /** Both buffers clear their flag when they are emptied, unless they are closed. */
  function TakenOff(v: Readiness, k: nat, onStderr: bool): Readiness
    requires k <= if onStderr then |v.stderr| else |v.main|
  {
    Left(v, if onStderr then v.stderr[k..] else v.main[k..], onStderr)
  }

  /** A read of an empty buffer takes nothing and touches no flag. */
  function ReadOff(v: Readiness, n: nat, onStderr: bool): Readiness {
    var size := if onStderr then |v.stderr| else |v.main|;
    if size == 0 then v else TakenOff(v, Min(n, size), onStderr)
  }

  /** The same, told by the bytes that come out and those that are left. */
  lemma TakenOffIs(v: Readiness, onStderr: bool, out: bytes, rest: bytes)
    requires (if onStderr then v.stderr else v.main) == out + rest
    ensures TakenOff(v, |out|, onStderr) == Left(v, rest, onStderr)
  {
  }

  function Left(v: Readiness, rest: bytes, onStderr: bool): Readiness {
    if onStderr then
      if rest != [] || v.stderrClosed then v.(stderr := rest)
      else v.(stderr := rest, stderrFlag := false, pipeSet := v.pipeSet && (v.mainFlag || v.forever))
    else
      if rest != [] || v.mainClosed then v.(main := rest)
      else v.(main := rest, mainFlag := false, pipeSet := v.pipeSet && (v.stderrFlag || v.forever))
  }

  function After(v: Readiness, call: Call): Readiness {
    match call
    case Asking =>
      if v.piped then v
      else
        v.(piped := true, mainFlag := v.MainReady(), stderrFlag := v.StderrReady(),
           pipeSet := v.MainReady() || v.StderrReady(), forever := false)
    case Feeding(s, onStderr) => Fed(v, s, onStderr)
    case Reading(n, onStderr) => ReadOff(v, n, onStderr)
    case Combining =>
      var w := TakenOff(v, |v.stderr|, true);
      if v.stderr == [] then w else Fed(w, v.stderr, false)
    case Closing =>
      v.(mainClosed := true, stderrClosed := true,
         mainFlag := v.piped, stderrFlag := v.piped, pipeSet := v.piped, forever := v.piped)
  }

  function AfterAll(v: Readiness, calls: seq<Call>): Readiness
    decreases |calls|
  {
    if calls == [] then v else AfterAll(After(v, calls[0]), calls[1..])
  }

  /** An empty feed into a buffer that is empty and open, while somebody may select on the pipe. */
  predicate Misleads(v: Readiness, call: Call) {
    v.piped && call.Feeding? && call.s == [] && !(if call.onStderr then v.StderrReady() else v.MainReady())
  }

  predicate SomeCallMisleads(v: Readiness, calls: seq<Call>)
    decreases |calls|
  {
    calls != [] && (Misleads(v, calls[0]) || SomeCallMisleads(After(v, calls[0]), calls[1..]))
  }

  predicate AlwaysAccurate(v: Readiness, calls: seq<Call>)
    decreases |calls|
  {
    v.Accurate() && (calls != [] ==> AlwaysAccurate(After(v, calls[0]), calls[1..]))
  }

  lemma FeedAccuracy(v: Readiness, s: bytes, onStderr: bool)
    requires v.Accurate()
    ensures Fed(v, s, onStderr).Accurate() <==> !Misleads(v, Feeding(s, onStderr))
  {
  }

  lemma TakeAccuracy(v: Readiness, k: nat, onStderr: bool)
    requires v.Accurate() && k <= if onStderr then |v.stderr| else |v.main|
    ensures TakenOff(v, k, onStderr).Accurate()
  {
  }

  /** One call spoils the pipe exactly when it is a misleading feed. */
  lemma CallAccuracy(v: Readiness, call: Call)
    requires v.Accurate()
    ensures After(v, call).Accurate() <==> !Misleads(v, call)
  {
    hide Fed, TakenOff;
    match call
    case Feeding(s, onStderr) => FeedAccuracy(v, s, onStderr);
    case Reading(n, onStderr) => ReadAccuracy(v, n, onStderr);
    case Combining =>
      TakeAccuracy(v, |v.stderr|, true);
      FeedAccuracy(TakenOff(v, |v.stderr|, true), v.stderr, false);
    case _ =>
  }

  lemma ReadAccuracy(v: Readiness, n: nat, onStderr: bool)
    requires v.Accurate()
    ensures ReadOff(v, n, onStderr).Accurate()
  {
    var size := if onStderr then |v.stderr| else |v.main|;
    if size > 0 {
      TakeAccuracy(v, Min(n, size), onStderr);
    }
  }

  /** The pipe is accurate at every moment of a channel's life exactly when no misleading feed occurs. */
  lemma {:induction false} AccurateUnlessMisled(v: Readiness, calls: seq<Call>)
    requires v.Accurate()
    ensures AlwaysAccurate(v, calls) <==> !SomeCallMisleads(v, calls)
    decreases |calls|
  {
    hide After, Misleads;
    if calls == [] {
    } else {
      CallAccuracy(v, calls[0]);
      if !Misleads(v, calls[0]) {
        AccurateUnlessMisled(After(v, calls[0]), calls[1..]);
      }
    }
  }

  /** In particular when every feed brings data, as all do whose message is not empty. */
  lemma {:induction false} DataNeverMisleads(v: Readiness, calls: seq<Call>)
    requires v.Accurate() && forall call :: call in calls && call.Feeding? ==> call.s != []
    ensures AlwaysAccurate(v, calls)
    decreases |calls|
  {
    hide After;
    if calls == [] {
    } else {
      assert calls[0] in calls;
      CallAccuracy(v, calls[0]);
      assert forall call :: call in calls[1..] ==> call in calls;
      DataNeverMisleads(After(v, calls[0]), calls[1..]);
    }
  }

  /** The receive side of a channel: two buffers and, once asked for, one OS pipe that reports both. */
  class Inbox {
    const main: BufferedPipe
    const stderr: BufferedPipe
    var pipe: PosixPipe?

    /** Either there is no pipe yet, or both buffers' events are the two halves of the pipe. */
    ghost predicate Wired()
      reads this, main, stderr, main.event, stderr.event, main.OsPipe(), stderr.OsPipe()
    {
      && main != stderr
      && (pipe == null ==> main.event == null && stderr.event == null)
      && (pipe != null ==>
            && main.event != null && stderr.event != null && main.event != stderr.event
            && main.event.partner == stderr.event && stderr.event.partner == main.event
            && main.event.pipe == pipe && stderr.event.pipe == pipe
            && pipe.Valid() && !pipe.closed)
    }

    /** The pipe says exactly what `select` should see. */
    ghost predicate Accurate()
      requires Wired()
      reads this, main, stderr, main.event, stderr.event, main.OsPipe(), stderr.OsPipe()
    {
      pipe != null ==>
        && main.event.isSet == main.Ready()
        && stderr.event.isSet == stderr.Ready()
        && pipe.isSet == (main.Ready() || stderr.Ready() || pipe.forever)
    }

    ghost function Now(): Readiness
      reads this, main, stderr, main.event, stderr.event, pipe
    {
      if pipe == null || main.event == null || stderr.event == null then
        Readiness(main.buffer, stderr.buffer, main.closed, stderr.closed, false, false, false, false, false)
      else
        Readiness(main.buffer, stderr.buffer, main.closed, stderr.closed,
             true, main.event.isSet, stderr.event.isSet, pipe.isSet, pipe.forever)
    }

    constructor ()
      ensures Now() == UNUSED
      ensures Wired() && Accurate() && pipe == null && fresh(main) && fresh(stderr)
      ensures main.buffer == [] && stderr.buffer == [] && !main.closed && !stderr.closed
    {
      main := new BufferedPipe();
      stderr := new BufferedPipe();
      pipe := null;
    }

    /** Creates the pipe on first use and brings it up to date with whatever is buffered already. */
    method Fileno()
      requires Wired()
      modifies this`pipe, main`event, stderr`event
      ensures Wired() && pipe != null && (old(Accurate()) ==> Accurate()) && Now() == After(old(Now()), Asking)
      ensures old(pipe) != null ==>
                pipe == old(pipe) && main.event == old(main.event) && stderr.event == old(stderr.event)
      ensures old(pipe) == null ==> fresh(pipe) && fresh(main.event) && fresh(stderr.event) && !pipe.forever
    {
      if pipe != null {
        return;
      }
      var p := new PosixPipe();
      var p1, p2 := MakeOrPipe(p);
      pipe := p;
      main.SetEvent(p1);
      stderr.SetEvent(p2);
    }

    /** The pipe stays accurate exactly when there is something to feed or the buffer was readable anyway. */
    method Feed(data: bytes)
      requires Wired()
      modifies main`buffer, main.Flag()`isSet, main.OsPipe()`isSet, main.OsPipe()`content
      ensures Wired() && main.buffer == old(main.buffer) + data && Now() == After(old(Now()), Feeding(data, false))
      ensures pipe != null && old(Accurate()) ==> pipe.isSet
      ensures pipe != null && old(Accurate()) ==> (Accurate() <==> data != [] || old(main.Ready()))
      ensures pipe == null ==> Accurate()
    {
      main.Feed(data);
    }

    method FeedStderr(data: bytes)
      requires Wired()
      modifies stderr`buffer, stderr.Flag()`isSet, stderr.OsPipe()`isSet, stderr.OsPipe()`content
      ensures Wired() && stderr.buffer == old(stderr.buffer) + data && Now() == After(old(Now()), Feeding(data, true))
      ensures pipe != null && old(Accurate()) ==> pipe.isSet
      ensures pipe != null && old(Accurate()) ==> (Accurate() <==> data != [] || old(stderr.Ready()))
      ensures pipe == null ==> Accurate()
    {
      stderr.Feed(data);
    }

    method Recv(nbytes: nat) returns (r: ReadResult)
      requires Wired()
      modifies main`buffer, main.Flag()`isSet, main.OsPipe()`isSet, main.OsPipe()`content
      ensures Wired() && (old(Accurate()) ==> Accurate()) && Now() == After(old(Now()), Reading(nbytes, false))
      ensures r.WouldBlock? <==> !old(main.Ready())
      ensures r.Data? ==> old(main.buffer) == r.out + main.buffer && |r.out| == Min(nbytes, |old(main.buffer)|)
      ensures r.WouldBlock? ==> main.buffer == old(main.buffer)
    {
      hide TakenOff;
      r := main.Read(nbytes);
      if r.Data? {
        TakenOffIs(old(Now()), false, r.out, main.buffer);
      }
    }

    method RecvStderr(nbytes: nat) returns (r: ReadResult)
      requires Wired()
      modifies stderr`buffer, stderr.Flag()`isSet, stderr.OsPipe()`isSet, stderr.OsPipe()`content
      ensures Wired() && (old(Accurate()) ==> Accurate()) && Now() == After(old(Now()), Reading(nbytes, true))
      ensures r.WouldBlock? <==> !old(stderr.Ready())
      ensures r.Data? ==>
                old(stderr.buffer) == r.out + stderr.buffer && |r.out| == Min(nbytes, |old(stderr.buffer)|)
      ensures r.WouldBlock? ==> stderr.buffer == old(stderr.buffer)
    {
      hide TakenOff;
      r := stderr.Read(nbytes);
      if r.Data? {
        TakenOffIs(old(Now()), true, r.out, stderr.buffer);
      }
    }

    /** The first half of combining the streams: everything buffered for stderr is taken out. */
    method TakeStderr() returns (data: bytes)
      requires Wired()
      modifies stderr`buffer, stderr.Flag()`isSet, stderr.OsPipe()`isSet, stderr.OsPipe()`content
      ensures Wired() && (old(Accurate()) ==> Accurate()) && data == old(stderr.buffer) && stderr.buffer == []
      ensures Now() == TakenOff(old(Now()), |data|, true)
    {
      data := stderr.Empty();
    }

    /** End of file or close: both buffers are closed and the pipe stays readable for good. */
    method CloseBoth()
      requires Wired()
      modifies main`closed, stderr`closed
      modifies main.Flag()`isSet, stderr.Flag()`isSet, main.OsPipe()`isSet, main.OsPipe()`content, main.OsPipe()`forever
      ensures Wired() && main.closed && stderr.closed && (pipe != null ==> pipe.forever) && Accurate()
      ensures Now() == After(old(Now()), Closing)
    {
      main.Close();
      stderr.Close();
      if pipe != null {
        pipe.SetForever();
      }
    }

    /**
     * The readable end of the pipe holds one byte exactly when a receive would not block or the pipe is set for good.
     */
    lemma PipeIsReadiness()
      requires Wired() && Accurate() && pipe != null
      ensures pipe.content <= 1
      ensures pipe.content == 1 <==>
                main.buffer != [] || stderr.buffer != [] || main.closed || stderr.closed || pipe.forever
    {
    }
  }

  /** A zero-length data message is such a feed: select then reports a channel that has nothing to read. */
  method EmptyFeedMisleads() returns (inbox: Inbox)
    ensures fresh(inbox) && inbox.Wired() && inbox.pipe != null && inbox.pipe.content == 1
    ensures !inbox.main.Ready() && !inbox.stderr.Ready() && !inbox.pipe.forever
  {
    inbox := new Inbox();
    inbox.Fileno();
    inbox.Feed([]);
  }

  /** One call on the buffers; combining the streams is taking everything out of one and feeding it to the other. */
  method Perform(inbox: Inbox, call: Call)
    requires inbox.Wired()
    modifies inbox`pipe, inbox.main`event, inbox.main`buffer, inbox.main`closed, inbox.main.Flag()`isSet
    modifies inbox.stderr`event, inbox.stderr`buffer, inbox.stderr`closed, inbox.stderr.Flag()`isSet
    modifies inbox.main.OsPipe()`isSet, inbox.main.OsPipe()`content, inbox.main.OsPipe()`forever
    modifies inbox.stderr.OsPipe()`isSet, inbox.stderr.OsPipe()`content, inbox.stderr.OsPipe()`forever
    ensures inbox.Wired() && inbox.Now() == After(old(inbox.Now()), call)
    ensures fresh(inbox.main.Flag() - old(inbox.main.Flag())) && fresh(inbox.stderr.Flag() - old(inbox.stderr.Flag()))
    ensures fresh(inbox.main.OsPipe() - old(inbox.main.OsPipe()))
            && fresh(inbox.stderr.OsPipe() - old(inbox.stderr.OsPipe()))
  {
    hide Fed, TakenOff, ReadOff, Inbox.Accurate;
    match call
    case Asking => inbox.Fileno();
    case Feeding(s, onStderr) =>
      if onStderr {
        inbox.FeedStderr(s);
      } else {
        inbox.Feed(s);
      }
    case Reading(n, onStderr) =>
      var r;
      if onStderr {
        r := inbox.RecvStderr(n);
      } else {
        r := inbox.Recv(n);
      }
    case Combining =>
      var data := inbox.TakeStderr();
      if |data| > 0 {
        inbox.Feed(data);
      }
    case Closing => inbox.CloseBoth();
  }

  /** A channel's buffers from their creation on: the pipe is accurate all the time unless a call misleads. */
  method Live(calls: seq<Call>) returns (inbox: Inbox)
    ensures inbox.Wired() && inbox.Now() == AfterAll(UNUSED, calls)
    ensures AlwaysAccurate(UNUSED, calls) <==> !SomeCallMisleads(UNUSED, calls)
    ensures !SomeCallMisleads(UNUSED, calls) ==> inbox.Accurate()
  {
    hide After, Misleads, Inbox.Now;
    AccurateUnlessMisled(UNUSED, calls);
    inbox := new Inbox();
    var n := 0;
    while n < |calls|
      invariant n <= |calls| && fresh(inbox) && fresh(inbox.main) && fresh(inbox.stderr) && inbox.Wired()
      invariant fresh(inbox.main.Flag()) && fresh(inbox.stderr.Flag())
      invariant fresh(inbox.main.OsPipe()) && fresh(inbox.stderr.OsPipe())
      invariant AfterAll(UNUSED, calls) == AfterAll(inbox.Now(), calls[n..])
      invariant AlwaysAccurate(UNUSED, calls) ==> AlwaysAccurate(inbox.Now(), calls[n..])
    {
      assert calls[n..][0] == calls[n] && calls[n..][1..] == calls[n + 1..];
      Perform(inbox, calls[n]);
      n := n + 1;
    }
    AccurateIsAccurate(inbox);
  }

  lemma AccurateIsAccurate(inbox: Inbox)
    requires inbox.Wired()
    ensures inbox.Now().Accurate() <==> inbox.Accurate()
  {
  }
}
