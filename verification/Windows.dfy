/**
 * Window flow control between a sending and a receiving channel, as a step system: every lock section, every message
 * handed to the transport and every message taken from the wire is one step, in any interleaving.
 */
module Windows {
  import opened Basics
  import opened Bytes

  const EXTENDED_STDERR := 1

  datatype Msg = ChannelData(s: bytes) | ExtendedData(code: nat, s: bytes)

  /** How much of `size` bytes a sender may take from its window for one message. */
  function Grant(window: nat, maxPacket: nat, size: nat): (k: nat)
    requires maxPacket >= 64
    ensures k <= window && k <= size && k <= maxPacket - 64 && (k == window || k == size || k == maxPacket - 64)
  {
    Min(Min(size, window), maxPacket - 64)
  }

  /** What counting `n` read bytes leaves in the running total, and the adjustment to send, if any. */
  function Credit(sofar: nat, threshold: nat, n: nat): (r: (nat, nat))
    ensures r.0 + r.1 == sofar + n && r.0 <= threshold && (r.1 > 0 ==> r.0 == 0 && r.1 > threshold)
  {
    if sofar + n <= threshold then (sofar + n, 0) else (0, sofar + n)
  }

  /**
   * One direction of a channel. `granted` holds messages whose bytes have left the sender's window but which their
   * threads have not handed over yet; `taken` the sizes of reads not yet counted; `acks` adjustments computed but not
   * handed over; `moving` stderr data on its way to the main buffer. The last three fields are history.
   */
  datatype System = System(
    outWindow: nat, maxPacket: nat,
    granted: seq<Msg>, wire: seq<Msg>,
    main: bytes, stderr: bytes, moving: seq<bytes>, combine: bool, shut: bool,
    taken: seq<nat>, sofar: nat, threshold: nat, acks: seq<nat>, adjusts: seq<nat>,
    lost: nat, sent: seq<Msg>, readMain: bytes, readStderr: bytes)

  /** Both ends have agreed on a window of `w` bytes. */
  function Opened(w: nat, maxPacket: nat): System {
    System(w, maxPacket, [], [], [], [], [], false, false, [], 0, w / 10, [], [], 0, [], [], [])
  }

  datatype Step =
    | Allocate(s: bytes, onStderr: bool)
    | Transmit(i: nat)
    | Deliver
    | Recv(n: nat)
    | RecvStderr(n: nat)
    | Count(i: nat)
    | SendAck(i: nat)
    | Adjust
    | Combine(on: bool)
    | FeedMoved(i: nat)
    | Shut

  function Without<T>(s: seq<T>, i: nat): seq<T>
    requires i < |s|
  {
    s[..i] + s[i + 1..]
  }

  predicate Enabled(s: System, step: Step) {
    match step
    case Allocate(data, _) => s.outWindow > 0
    case Transmit(i) => i < |s.granted|
    case Deliver => s.wire != []
    case Recv(n) => s.main != [] || s.shut
    case RecvStderr(n) => s.stderr != [] || s.shut
    case Count(i) => i < |s.taken|
    case SendAck(i) => i < |s.acks|
    case Adjust => s.adjusts != []
    case Combine(_) => true
    case FeedMoved(i) => i < |s.moving|
    case Shut => true
  }

  /** Appends `x` unless it is nothing. */
  function Push(s: seq<nat>, x: nat): seq<nat> {
    if x == 0 then s else s + [x]
  }

  function Next(s: System, step: Step): (r: System)
    requires Enabled(s, step) && s.maxPacket > 64
    ensures r.maxPacket == s.maxPacket
  {
    match step
    case Allocate(data, onStderr) =>
      var k := Grant(s.outWindow, s.maxPacket, |data|);
      if k == 0 then s
      else
        s.(outWindow := s.outWindow - k,
           granted := s.granted
               + [if onStderr then ExtendedData(EXTENDED_STDERR, data[..k]) else ChannelData(data[..k])])
    case Transmit(i) =>
      s.(granted := Without(s.granted, i), wire := s.wire + [s.granted[i]], sent := s.sent + [s.granted[i]])
    case Deliver =>
      var s1 := s.(wire := s.wire[1..]);
      (match s.wire[0]
       case ChannelData(x) => s1.(main := s.main + x)
       case ExtendedData(code, x) =>
         if code != EXTENDED_STDERR then s1.(lost := s.lost + |x|)
         else if s.combine then s1.(main := s.main + x)
         else s1.(stderr := s.stderr + x))
    case Recv(n) =>
      var k := Min(n, |s.main|);
      s.(main := s.main[k..], taken := Push(s.taken, k), readMain := s.readMain + s.main[..k])
    case RecvStderr(n) =>
      var k := Min(n, |s.stderr|);
      s.(stderr := s.stderr[k..], taken := Push(s.taken, k), readStderr := s.readStderr + s.stderr[..k])
    case Count(i) =>
      var s1 := s.(taken := Without(s.taken, i));
      if s.shut then s1.(lost := s.lost + s.taken[i])
      else
        var (sofar, ack) := Credit(s.sofar, s.threshold, s.taken[i]);
        s1.(sofar := sofar, acks := Push(s.acks, ack))
    case SendAck(i) => s.(acks := Without(s.acks, i), adjusts := s.adjusts + [s.acks[i]])
    case Adjust => s.(adjusts := s.adjusts[1..], outWindow := s.outWindow + s.adjusts[0])
    case Combine(on) =>
      if on && !s.combine then
        s.(combine := on, stderr := [], moving := if s.stderr == [] then s.moving else s.moving + [s.stderr])
      else s.(combine := on)
    case FeedMoved(i) => s.(moving := Without(s.moving, i), main := s.main + s.moving[i])
    case Shut => s.(shut := true)
  }

  /**
   * A run takes the enabled steps of a schedule in order; a step that is not enabled has to wait and is passed over.
   */
  function Run(s: System, steps: seq<Step>): (r: System)
    requires s.maxPacket > 64
    ensures r.maxPacket == s.maxPacket
    decreases |steps|
  {
    if steps == [] then s
    else Run(if Enabled(s, steps[0]) then Next(s, steps[0]) else s, steps[1..])
  }

  // ---- short runs ----

  lemma RunNone(s: System)
    requires s.maxPacket > 64
    ensures Run(s, []) == s
  {
  }

  lemma RunOne(s: System, a: Step)
    requires s.maxPacket > 64 && Enabled(s, a)
    ensures Run(s, [a]) == Next(s, a)
  {
    assert Run(Next(s, a), [a][1..]) == Next(s, a);
  }

  lemma {:induction false} RunConcat(s: System, a: seq<Step>, b: seq<Step>)
    requires s.maxPacket > 64
    ensures Run(s, a + b) == Run(Run(s, a), b)
    decreases |a|
  {
    if a == [] {
      assert a + b == b;
    } else {
      assert (a + b)[1..] == a[1..] + b;
      RunConcat(if Enabled(s, a[0]) then Next(s, a[0]) else s, a[1..], b);
    }
  }

  lemma RunStep(s: System, step: Step, rest: seq<Step>)
    requires s.maxPacket > 64 && Enabled(s, step)
    ensures Run(s, [step] + rest) == Run(Next(s, step), rest)
  {
    RunConcat(s, [step], rest);
    RunOne(s, step);
  }

  lemma RunTwo(s: System, a: Step, b: Step)
    requires s.maxPacket > 64 && Enabled(s, a) && Enabled(Next(s, a), b)
    ensures Run(s, [a, b]) == Next(Next(s, a), b)
  {
    hide Next, Enabled;
    RunConcat(s, [a], [b]);
    assert [a] + [b] == [a, b];
    RunOne(s, a);
    RunOne(Next(s, a), b);
  }

  // ---- conservation ----

  function Sum(s: seq<nat>): nat {
    if s == [] then 0 else s[0] + Sum(s[1..])
  }

  function Sizes(s: seq<Msg>): (r: seq<nat>)
    ensures |r| == |s|
  {
    seq(|s|, i requires 0 <= i < |s| => |s[i].s|)
  }

  function Lengths(s: seq<bytes>): (r: seq<nat>)
    ensures |r| == |s|
  {
    seq(|s|, i requires 0 <= i < |s| => |s[i]|)
  }

  /** Every byte of the window, wherever it is. */
  function Total(s: System): nat {
    s.outWindow + Sum(Sizes(s.granted)) + Sum(Sizes(s.wire)) + |s.main| + |s.stderr| + Sum(Lengths(s.moving))
    + Sum(s.taken) + s.sofar + Sum(s.acks) + Sum(s.adjusts) + s.lost
  }

  /** All messages come from a sender that only knows the stderr code. */
  predicate OwnMessages(s: seq<Msg>) {
    forall m :: m in s && m.ExtendedData? ==> m.code == EXTENDED_STDERR
  }

  /** Messages carry at least one byte and keep the room the packet header needs. */
  predicate Fitting(s: seq<Msg>, maxPacket: nat) {
    forall m :: m in s ==> 0 < |m.s| <= maxPacket - 64
  }

  predicate MessagesOk(s: System) {
    && s.maxPacket > 64
    && OwnMessages(s.granted) && OwnMessages(s.wire)
    && Fitting(s.granted, s.maxPacket) && Fitting(s.wire, s.maxPacket)
  }

  predicate CountsOk(s: System, w: nat) {
    && s.threshold == w / 10 && s.sofar <= s.threshold
    && (!s.shut ==> s.lost == 0)
    && 0 !in s.taken && 0 !in s.acks && 0 !in s.adjusts && [] !in s.moving
  }

  ghost predicate Invariant(s: System, w: nat) {
    MessagesOk(s) && CountsOk(s, w) && Total(s) == w
  }

  lemma {:induction false} SumConcat(a: seq<nat>, b: seq<nat>)
    ensures Sum(a + b) == Sum(a) + Sum(b)
  {
    if a == [] {
      assert a + b == b;
    } else {
      assert (a + b)[1..] == a[1..] + b;
      SumConcat(a[1..], b);
    }
  }

  lemma SumAppend(a: seq<nat>, x: nat)
    ensures Sum(a + [x]) == Sum(a) + x
    ensures Sum(Push(a, x)) == Sum(a) + x
  {
    SumConcat(a, [x]);
  }

  lemma SumOfThree(before: seq<nat>, x: nat, behind: seq<nat>)
    ensures Sum(before + ([x] + behind)) == Sum(before + behind) + x
  {
    assert Sum([x]) == x;
    SumConcat(before, [x] + behind);
    SumConcat([x], behind);
    SumConcat(before, behind);
  }

  lemma SumWithout(a: seq<nat>, i: nat)
    requires i < |a|
    ensures Sum(Without(a, i)) == Sum(a) - a[i]
  {
    hide Sum;
    SumOfThree(a[..i], a[i], a[i + 1..]);
    assert a[..i] + ([a[i]] + a[i + 1..]) == a;
  }

  lemma SizesWithout(s: seq<Msg>, i: nat, m: Msg)
    requires i < |s|
    ensures Sum(Sizes(Without(s, i))) == Sum(Sizes(s)) - |s[i].s|
    ensures Sum(Sizes(s + [m])) == Sum(Sizes(s)) + |m.s|
  {
    assert Sizes(Without(s, i)) == Without(Sizes(s), i);
    SumWithout(Sizes(s), i);
    SizesAppend(s, m);
  }

  lemma SizesAppend(s: seq<Msg>, m: Msg)
    ensures Sum(Sizes(s + [m])) == Sum(Sizes(s)) + |m.s|
  {
    assert Sizes(s + [m]) == Sizes(s) + [|m.s|];
    SumAppend(Sizes(s), |m.s|);
  }

  lemma LengthsWithout(s: seq<bytes>, i: nat)
    requires i < |s|
    ensures Sum(Lengths(Without(s, i))) == Sum(Lengths(s)) - |s[i]|
  {
    assert Lengths(Without(s, i)) == Without(Lengths(s), i);
    SumWithout(Lengths(s), i);
  }

  lemma LengthsAppend(s: seq<bytes>, x: bytes)
    ensures Sum(Lengths(s + [x])) == Sum(Lengths(s)) + |x|
  {
    assert Lengths(s + [x]) == Lengths(s) + [|x|];
    SumAppend(Lengths(s), |x|);
  }

  predicate SenderStep(step: Step) {
    step.Allocate? || step.Transmit? || step.Adjust?
  }

  lemma SenderKeepsTotal(s: System, step: Step)
    requires Enabled(s, step) && s.maxPacket > 64 && SenderStep(step)
    ensures Total(Next(s, step)) == Total(s)
  {
    match step
    case Allocate(data, onStderr) =>
      var k := Grant(s.outWindow, s.maxPacket, |data|);
      SizesAppend(s.granted, if onStderr then ExtendedData(EXTENDED_STDERR, data[..k]) else ChannelData(data[..k]));
    case Transmit(i) =>
      SizesWithout(s.granted, i, s.granted[i]);
      SizesAppend(s.wire, s.granted[i]);
    case Adjust =>
      assert s.adjusts == [s.adjusts[0]] + s.adjusts[1..];
  }

  lemma ReceiverKeepsTotal(s: System, step: Step)
    requires Enabled(s, step) && s.maxPacket > 64 && !SenderStep(step) && !step.Deliver?
    ensures Total(Next(s, step)) == Total(s)
  {
    match step
    case Recv(n) => SumAppend(s.taken, Min(n, |s.main|));
    case RecvStderr(n) => SumAppend(s.taken, Min(n, |s.stderr|));
    case Count(i) =>
      SumWithout(s.taken, i);
      SumAppend(s.acks, Credit(s.sofar, s.threshold, s.taken[i]).1);
    case SendAck(i) =>
      SumWithout(s.acks, i);
      SumAppend(s.adjusts, s.acks[i]);
    case Combine(on) => LengthsAppend(s.moving, s.stderr);
    case FeedMoved(i) => LengthsWithout(s.moving, i);
    case Shut =>
  }

  lemma DeliverKeepsTotal(s: System)
    requires s.wire != [] && s.maxPacket > 64
    ensures Total(Next(s, Deliver)) == Total(s)
  {
    SizesWithout(s.wire, 0, s.wire[0]);
    assert Without(s.wire, 0) == s.wire[1..];
  }

  lemma NextKeepsMessages(s: System, step: Step)
    requires MessagesOk(s) && Enabled(s, step)
    ensures MessagesOk(Next(s, step))
  {
    match step
    case Transmit(i) =>
      assert s.granted[i] in s.granted;
      assert forall m :: m in Without(s.granted, i) ==> m in s.granted;
    case Deliver =>
      assert forall m :: m in s.wire[1..] ==> m in s.wire;
    case _ =>
  }

  lemma NextKeepsCounts(s: System, step: Step, w: nat)
    requires MessagesOk(s) && CountsOk(s, w) && Enabled(s, step)
    ensures CountsOk(Next(s, step), w)
  {
    match step
    case Deliver =>
      assert s.wire[0] in s.wire;
    case Count(i) =>
      assert s.taken[i] in s.taken;
    case SendAck(i) =>
      assert s.acks[i] in s.acks;
    case FeedMoved(i) =>
      assert forall x :: x in Without(s.moving, i) ==> x in s.moving;
    case _ =>
  }

  lemma NextKeeps(s: System, step: Step, w: nat)
    requires Invariant(s, w) && Enabled(s, step)
    ensures Invariant(Next(s, step), w)
  {
    NextKeepsMessages(s, step);
    NextKeepsCounts(s, step, w);
    if SenderStep(step) {
      SenderKeepsTotal(s, step);
    } else if step.Deliver? {
      DeliverKeepsTotal(s);
    } else {
      ReceiverKeepsTotal(s, step);
    }
  }

  lemma {:induction false} RunKeeps(s: System, steps: seq<Step>, w: nat)
    requires Invariant(s, w)
    ensures Invariant(Run(s, steps), w)
    decreases |steps|
  {
    if steps == [] {
    } else {
      if Enabled(s, steps[0]) {
        NextKeeps(s, steps[0], w);
        RunKeeps(Next(s, steps[0]), steps[1..], w);
      } else {
        RunKeeps(s, steps[1..], w);
      }
    }
  }

  /**
   * On every run the bytes of the advertised window are accounted for, none of them lost while the receiver is open,
   * and the sender's window never exceeds what was advertised.
   */
  lemma WindowIsConserved(w: nat, maxPacket: nat, steps: seq<Step>)
    requires maxPacket > 64
    ensures var s := Run(Opened(w, maxPacket), steps);
            && Total(s) == w && s.outWindow <= w && |s.main| + |s.stderr| <= w
            && (!s.shut ==> s.lost == 0)
  {
    RunKeeps(Opened(w, maxPacket), steps, w);
  }

  /** Nothing is under way and everything received has been read and counted. */
  predicate Drained(s: System) {
    && s.granted == [] && s.wire == [] && s.main == [] && s.stderr == [] && s.moving == []
    && s.taken == [] && s.acks == [] && s.adjusts == []
  }

  /**
   * A grant takes all that the window, the packet size and the data allow, and its message is that much of the data.
   */
  lemma AllocateTakesWhatFits(s: System, data: bytes, onStderr: bool)
    requires s.maxPacket > 64 && s.outWindow > 0
    ensures var r := Next(s, Allocate(data, onStderr));
            var k: int := s.outWindow - r.outWindow;
            && 0 <= k <= |data| && k <= s.maxPacket - 64 && (k == |data| || k == s.outWindow || k == s.maxPacket - 64)
            && r.granted == s.granted + if data == [] then [] else
                 [if onStderr then ExtendedData(EXTENDED_STDERR, data[..k]) else ChannelData(data[..k])]
  {
  }

  /** Every adjustment, on its way or not yet handed over, is for more than a tenth of the window. */
  predicate Late(s: System) {
    (forall a :: a in s.acks ==> a > s.threshold) && (forall a :: a in s.adjusts ==> a > s.threshold)
  }

  lemma NextKeepsLate(s: System, step: Step)
    requires s.maxPacket > 64 && Enabled(s, step) && Late(s)
    ensures Late(Next(s, step)) && Next(s, step).threshold == s.threshold
  {
    if step.SendAck? {
      assert s.acks[step.i] in s.acks;
      assert forall a :: a in Without(s.acks, step.i) ==> a in s.acks;
      assert forall a :: a in s.adjusts + [s.acks[step.i]] ==> a in s.adjusts || a == s.acks[step.i];
    }
  }

  lemma {:induction false} RunKeepsLate(s: System, steps: seq<Step>)
    requires s.maxPacket > 64 && Late(s)
    ensures Late(Run(s, steps)) && Run(s, steps).threshold == s.threshold
    decreases |steps|
  {
    hide Enabled, Next, Late;
    if steps != [] {
      if Enabled(s, steps[0]) {
        NextKeepsLate(s, steps[0]);
        RunKeepsLate(Next(s, steps[0]), steps[1..]);
      } else {
        RunKeepsLate(s, steps[1..]);
      }
    }
  }

  /** No adjustment is sent for less than a tenth of the window, on any run. */
  lemma AdjustmentsAreLate(w: nat, maxPacket: nat, steps: seq<Step>)
    requires maxPacket > 64
    ensures var s := Run(Opened(w, maxPacket), steps);
            (forall a :: a in s.acks ==> a > w / 10) && (forall a :: a in s.adjusts ==> a > w / 10)
  {
    RunKeepsLate(Opened(w, maxPacket), steps);
  }

  /** Lazy acknowledgement withholds at most a tenth of the window from a sender whose receiver has read everything. */
  lemma DrainedWindow(w: nat, maxPacket: nat, steps: seq<Step>)
    requires maxPacket > 64
    requires var s := Run(Opened(w, maxPacket), steps); Drained(s) && !s.shut
    ensures w - w / 10 <= Run(Opened(w, maxPacket), steps).outWindow <= w
  {
    RunKeeps(Opened(w, maxPacket), steps, w);
  }

  /** A step by which bytes on their way move on, other than by a new send. */
  predicate MovesOn(step: Step) {
    match step
    case Allocate(_, _) => false
    case Combine(_) => false
    case Shut => false
    case Recv(n) => n > 0
    case RecvStderr(n) => n > 0
    case _ => true
  }

  /** No deadlock: a sender with a closed window always has something under way that can move. */
  lemma BlockedSenderIsNotStuck(w: nat, maxPacket: nat, steps: seq<Step>) returns (step: Step)
    requires maxPacket > 64 && w > 0
    requires var s := Run(Opened(w, maxPacket), steps); s.outWindow == 0 && !s.shut
    ensures MovesOn(step) && Enabled(Run(Opened(w, maxPacket), steps), step)
  {
    RunKeeps(Opened(w, maxPacket), steps, w);
    var s := Run(Opened(w, maxPacket), steps);
    step := if s.granted != [] then Transmit(0)
            else if s.wire != [] then Deliver
            else if s.main != [] then Recv(1)
            else if s.stderr != [] then RecvStderr(1)
            else if s.moving != [] then FeedMoved(0)
            else if s.taken != [] then Count(0)
            else if s.acks != [] then SendAck(0)
            else Adjust;
  }

  /** What is under way, each byte weighted by the steps it has yet to take before it is back in the window. */
  function Effort(s: System): nat {
    6 * Sum(Sizes(s.granted)) + 5 * Sum(Sizes(s.wire)) + 5 * Sum(Lengths(s.moving)) + 4 * (|s.main| + |s.stderr|)
    + 3 * Sum(s.taken) + 2 * s.sofar + 2 * Sum(s.acks) + Sum(s.adjusts)
  }

  lemma SenderLowersEffort(s: System, step: Step, w: nat)
    requires Invariant(s, w) && Enabled(s, step) && MovesOn(step) && SenderStep(step)
    ensures Effort(Next(s, step)) < Effort(s)
  {
    match step
    case Transmit(i) =>
      SizesWithout(s.granted, i, s.granted[i]);
      SizesAppend(s.wire, s.granted[i]);
      assert s.granted[i] in s.granted;
    case Adjust =>
      assert s.adjusts == [s.adjusts[0]] + s.adjusts[1..] && s.adjusts[0] in s.adjusts;
  }

  lemma ReceiverLowersEffort(s: System, step: Step, w: nat)
    requires Invariant(s, w) && !s.shut && Enabled(s, step) && MovesOn(step) && !SenderStep(step) && !step.Deliver?
    ensures Effort(Next(s, step)) < Effort(s)
  {
    match step
    case Recv(n) => SumAppend(s.taken, Min(n, |s.main|));
    case RecvStderr(n) => SumAppend(s.taken, Min(n, |s.stderr|));
    case Count(i) =>
      SumWithout(s.taken, i);
      SumAppend(s.acks, Credit(s.sofar, s.threshold, s.taken[i]).1);
      assert s.taken[i] in s.taken;
    case SendAck(i) =>
      SumWithout(s.acks, i);
      SumAppend(s.adjusts, s.acks[i]);
      assert s.acks[i] in s.acks;
    case FeedMoved(i) =>
      LengthsWithout(s.moving, i);
      assert s.moving[i] in s.moving;
  }

  lemma DeliverLowersEffort(s: System, w: nat)
    requires Invariant(s, w) && s.wire != []
    ensures Effort(Next(s, Deliver)) < Effort(s)
  {
    SizesWithout(s.wire, 0, s.wire[0]);
    assert Without(s.wire, 0) == s.wire[1..] && s.wire[0] in s.wire;
  }

  /** Steps that are enabled one after another and all move something on. */
  predicate AllMove(s: System, steps: seq<Step>)
    requires s.maxPacket > 64
    decreases |steps|
  {
    steps == [] || (Enabled(s, steps[0]) && MovesOn(steps[0]) && AllMove(Next(s, steps[0]), steps[1..]))
  }

  lemma {:induction false} MovesLowerEffort(s: System, moves: seq<Step>, w: nat)
    requires Invariant(s, w) && !s.shut && AllMove(s, moves)
    ensures var t := Run(s, moves); Invariant(t, w) && !t.shut && |moves| + Effort(t) <= Effort(s)
    decreases |moves|
  {
    hide Effort, Total, CountsOk, Next, Enabled;
    if moves == [] {
    } else {
      var step := moves[0];
      NextKeeps(s, step, w);
      StaysOpen(s, step);
      if SenderStep(step) {
        SenderLowersEffort(s, step, w);
      } else if step.Deliver? {
        DeliverIsEnabled(s);
        DeliverLowersEffort(s, w);
      } else {
        ReceiverLowersEffort(s, step, w);
      }
      MovesLowerEffort(Next(s, step), moves[1..], w);
    }
  }

  lemma StaysOpen(s: System, step: Step)
    requires Enabled(s, step) && s.maxPacket > 64 && !s.shut && step != Shut
    ensures !Next(s, step).shut
  {
  }

  lemma DeliverIsEnabled(s: System)
    ensures Enabled(s, Deliver) <==> s.wire != []
  {
  }

  /** If nothing can be moved on, nothing is under way. */
  lemma StillMeansDrained(s: System)
    requires !s.shut && forall step :: MovesOn(step) ==> !Enabled(s, step)
    ensures Drained(s)
  {
    assert MovesOn(Transmit(0)) && MovesOn(Deliver) && MovesOn(Recv(1)) && MovesOn(RecvStderr(1));
    assert MovesOn(FeedMoved(0)) && MovesOn(Count(0)) && MovesOn(SendAck(0)) && MovesOn(Adjust);
  }

  /**
   * A blocked sender does not stay blocked. From any state of any run with the receiver open, however the steps that
   * move things on are scheduled there are at most six of them for a byte of the window, and when none is left the
   * sender has at least nine tenths of the window.
   */
  lemma BlockedSenderResumes(w: nat, maxPacket: nat, steps: seq<Step>, moves: seq<Step>)
    requires maxPacket > 64
    requires var s := Run(Opened(w, maxPacket), steps); !s.shut && AllMove(s, moves)
    ensures var s := Run(Opened(w, maxPacket), steps); var t := Run(s, moves);
            && |moves| <= Effort(s) <= 6 * w
            && ((forall step :: MovesOn(step) ==> !Enabled(t, step)) ==> w - w / 10 <= t.outWindow <= w)
  {
    hide MovesOn, Enabled;
    RunKeeps(Opened(w, maxPacket), steps, w);
    var s := Run(Opened(w, maxPacket), steps);
    MovesLowerEffort(s, moves, w);
    var t := Run(s, moves);
    if forall step :: MovesOn(step) ==> !Enabled(t, step) {
      StillMeansDrained(t);
      DrainedHasWindow(t, w);
    }
  }

  lemma DrainedHasWindow(s: System, w: nat)
    requires Invariant(s, w) && Drained(s) && !s.shut
    ensures w - w / 10 <= s.outWindow <= w
  {
  }

  // ---- order ----

  /** The bytes of one stream, in the order of the messages. */
  function Stream(msgs: seq<Msg>, onStderr: bool): bytes {
    if msgs == [] then []
    else
      (match msgs[0]
       case ChannelData(x) => if onStderr then [] else x
       case ExtendedData(code, x) => if onStderr && code == EXTENDED_STDERR then x else [])
      + Stream(msgs[1..], onStderr)
  }

  lemma {:induction false} StreamAppend(msgs: seq<Msg>, m: Msg, onStderr: bool)
    ensures Stream(msgs + [m], onStderr) == Stream(msgs, onStderr) + Stream([m], onStderr)
  {
    if msgs == [] {
      assert [] + [m] == [m];
      assert [] + Stream([m], onStderr) == Stream([m], onStderr);
    } else {
      assert (msgs + [m])[1..] == msgs[1..] + [m];
      StreamAppend(msgs[1..], m, onStderr);
    }
  }

  /** What was read, is buffered and is still on the wire makes up exactly what was sent, stream by stream. */
  ghost predicate InOrder(s: System) {
    && s.readMain + s.main + Stream(s.wire, false) == Stream(s.sent, false)
    && s.readStderr + s.stderr + Stream(s.wire, true) == Stream(s.sent, true)
    && !s.combine && s.moving == []
  }

  lemma TransmitKeepsOrder(s: System, i: nat)
    requires i < |s.granted| && s.maxPacket > 64 && InOrder(s)
    ensures InOrder(Next(s, Transmit(i)))
  {
    var m := s.granted[i];
    StreamAppend(s.wire, m, false);
    StreamAppend(s.wire, m, true);
    StreamAppend(s.sent, m, false);
    StreamAppend(s.sent, m, true);
    Associate(s.readMain + s.main, Stream(s.wire, false), Stream([m], false));
    Associate(s.readStderr + s.stderr, Stream(s.wire, true), Stream([m], true));
  }

  lemma Associate(a: bytes, b: bytes, c: bytes)
    ensures (a + b) + c == a + (b + c)
  {
  }

  lemma DeliverKeepsOrder(s: System)
    requires MessagesOk(s) && s.wire != [] && InOrder(s)
    ensures InOrder(Next(s, Deliver))
  {
    var m, rest := s.wire[0], s.wire[1..];
    assert m in s.wire;
    if m.ChannelData? {
      assert Stream(s.wire, true) == [] + Stream(rest, true) == Stream(rest, true);
      Associate(s.readMain + s.main, m.s, Stream(rest, false));
      Associate(s.readMain, s.main, m.s);
    } else {
      assert Stream(s.wire, false) == [] + Stream(rest, false) == Stream(rest, false);
      Associate(s.readStderr + s.stderr, m.s, Stream(rest, true));
      Associate(s.readStderr, s.stderr, m.s);
    }
  }

  lemma ReadKeepsOrder(read: bytes, buffer: bytes, k: nat)
    requires k <= |buffer|
    ensures read + buffer[..k] + buffer[k..] == read + buffer
  {
    assert buffer == buffer[..k] + buffer[k..];
  }

  lemma NextKeepsOrder(s: System, step: Step, w: nat)
    requires Invariant(s, w) && Enabled(s, step) && InOrder(s) && step != Combine(true)
    ensures InOrder(Next(s, step))
  {
    match step
    case Transmit(i) => TransmitKeepsOrder(s, i);
    case Deliver => DeliverKeepsOrder(s);
    case Recv(n) => ReadKeepsOrder(s.readMain, s.main, Min(n, |s.main|));
    case RecvStderr(n) => ReadKeepsOrder(s.readStderr, s.stderr, Min(n, |s.stderr|));
    case _ =>
  }

  lemma {:induction false} RunKeepsOrder(s: System, steps: seq<Step>, w: nat)
    requires Invariant(s, w) && InOrder(s) && Combine(true) !in steps
    ensures InOrder(Run(s, steps))
    decreases |steps|
  {
    if steps == [] {
    } else {
      if Enabled(s, steps[0]) {
        NextKeeps(s, steps[0], w);
        NextKeepsOrder(s, steps[0], w);
        RunKeepsOrder(Next(s, steps[0]), steps[1..], w);
      } else {
        RunKeepsOrder(s, steps[1..], w);
      }
    }
  }

  /** Unless the streams are combined, each one is read in the order in which it was sent, with nothing missing. */
  lemma StreamsAreInOrder(w: nat, maxPacket: nat, steps: seq<Step>)
    requires maxPacket > 64 && Combine(true) !in steps
    ensures var s := Run(Opened(w, maxPacket), steps);
            s.readMain <= Stream(s.sent, false) && s.readStderr <= Stream(s.sent, true)
    ensures var s := Run(Opened(w, maxPacket), steps);
            Drained(s) ==> s.readMain == Stream(s.sent, false) && s.readStderr == Stream(s.sent, true)
  {
    RunKeepsOrder(Opened(w, maxPacket), steps, w);
    var s := Run(Opened(w, maxPacket), steps);
    assert s.readMain + s.main + Stream(s.wire, false) == s.readMain + (s.main + Stream(s.wire, false));
    assert s.readStderr + s.stderr + Stream(s.wire, true) == s.readStderr + (s.stderr + Stream(s.wire, true));
  }

  // ---- no byte lost, made or changed ----

  function Bag(pieces: seq<bytes>): multiset<byte> {
    if pieces == [] then multiset{} else multiset(pieces[0]) + Bag(pieces[1..])
  }

  function Payloads(msgs: seq<Msg>): (r: seq<bytes>)
    ensures |r| == |msgs|
  {
    seq(|msgs|, i requires 0 <= i < |msgs| => msgs[i].s)
  }

  lemma {:induction false} BagConcat(a: seq<bytes>, b: seq<bytes>)
    ensures Bag(a + b) == Bag(a) + Bag(b)
  {
    if a == [] {
      assert a + b == b;
    } else {
      assert (a + b)[1..] == a[1..] + b;
      BagConcat(a[1..], b);
    }
  }

  lemma BagOne(x: bytes)
    ensures Bag([x]) == multiset(x)
  {
    assert [x][1..] == [];
  }

  lemma BagWithout(a: seq<bytes>, i: nat)
    requires i < |a|
    ensures Bag(a) == Bag(Without(a, i)) + multiset(a[i])
  {
    hide Bag;
    BagOne(a[i]);
    BagConcat(a[..i], [a[i]]);
    BagConcat(a[..i] + [a[i]], a[i + 1..]);
    BagConcat(a[..i], a[i + 1..]);
    assert a[..i] + [a[i]] + a[i + 1..] == a;
  }

  lemma PayloadsAppend(msgs: seq<Msg>, m: Msg)
    ensures Bag(Payloads(msgs + [m])) == Bag(Payloads(msgs)) + multiset(m.s)
  {
    assert Payloads(msgs + [m]) == Payloads(msgs) + [m.s];
    BagConcat(Payloads(msgs), [m.s]);
    BagOne(m.s);
  }

  lemma CutBag(buffer: bytes, k: nat)
    requires k <= |buffer|
    ensures multiset(buffer) == multiset(buffer[..k]) + multiset(buffer[k..])
  {
    assert buffer == buffer[..k] + buffer[k..];
  }

  /** What has been read, is buffered or moving and is still on the wire. */
  function Held(s: System): multiset<byte> {
    multiset(s.readMain) + multiset(s.readStderr) + multiset(s.main) + multiset(s.stderr)
    + Bag(s.moving) + Bag(Payloads(s.wire))
  }

  ghost predicate AllThere(s: System) {
    Held(s) == Bag(Payloads(s.sent))
  }

  lemma TransmitKeepsBytes(s: System, i: nat)
    requires i < |s.granted| && s.maxPacket > 64 && AllThere(s)
    ensures AllThere(Next(s, Transmit(i)))
  {
    PayloadsAppend(s.wire, s.granted[i]);
    PayloadsAppend(s.sent, s.granted[i]);
  }

  lemma HeadBag(msgs: seq<Msg>)
    requires msgs != []
    ensures Bag(Payloads(msgs)) == multiset(msgs[0].s) + Bag(Payloads(msgs[1..]))
  {
    assert Payloads(msgs)[1..] == Payloads(msgs[1..]);
  }

  lemma DeliverKeepsBytes(s: System)
    requires s.maxPacket > 64 && OwnMessages(s.wire) && s.wire != [] && AllThere(s)
    ensures AllThere(Next(s, Deliver))
  {
    hide Bag, Payloads;
    var r, m := Next(s, Deliver), s.wire[0];
    assert m in s.wire;
    HeadBag(s.wire);
    assert r.main == s.main + m.s || r.stderr == s.stderr + m.s;
    assert Held(r) == Held(s);
  }

  lemma CombineKeepsBytes(s: System, on: bool)
    requires s.maxPacket > 64 && AllThere(s)
    ensures AllThere(Next(s, Combine(on)))
  {
    BagConcat(s.moving, [s.stderr]);
    BagOne(s.stderr);
    hide Bag, Payloads;
    var r := Next(s, Combine(on));
    assert r.stderr != s.stderr ==> Bag(r.moving) == Bag(s.moving) + multiset(s.stderr);
    assert Held(r) == Held(s);
  }

  lemma ReadKeepsBytes(s: System, step: Step)
    requires Enabled(s, step) && s.maxPacket > 64 && (step.Recv? || step.RecvStderr?) && AllThere(s)
    ensures AllThere(Next(s, step))
  {
    hide Bag, Payloads;
    CutBag(s.main, Min(step.n, |s.main|));
    CutBag(s.stderr, Min(step.n, |s.stderr|));
  }

  lemma FeedKeepsBytes(s: System, i: nat)
    requires i < |s.moving| && s.maxPacket > 64 && AllThere(s)
    ensures AllThere(Next(s, FeedMoved(i)))
  {
    hide Bag, Payloads;
    BagWithout(s.moving, i);
  }

  lemma NextKeepsBytes(s: System, step: Step, w: nat)
    requires Invariant(s, w) && Enabled(s, step) && AllThere(s)
    ensures AllThere(Next(s, step))
  {
    hide Bag, Payloads;
    match step
    case Transmit(i) => TransmitKeepsBytes(s, i);
    case Deliver => DeliverKeepsBytes(s);
    case Recv(_) => ReadKeepsBytes(s, step);
    case RecvStderr(_) => ReadKeepsBytes(s, step);
    case Combine(on) => CombineKeepsBytes(s, on);
    case FeedMoved(i) => FeedKeepsBytes(s, i);
    case _ =>
  }

  lemma {:induction false} RunKeepsBytes(s: System, steps: seq<Step>, w: nat)
    requires Invariant(s, w) && AllThere(s)
    ensures AllThere(Run(s, steps))
    decreases |steps|
  {
    assert s.maxPacket > 64;
    hide Invariant, AllThere, Enabled, Next;
    if steps == [] {
    } else {
      if Enabled(s, steps[0]) {
        NextKeeps(s, steps[0], w);
        NextKeepsBytes(s, steps[0], w);
        RunKeepsBytes(Next(s, steps[0]), steps[1..], w);
      } else {
        RunKeepsBytes(s, steps[1..], w);
      }
    }
  }

  /**
   * On every run, streams combined or not and at any moment, the bytes read, buffered, moving and on the wire are
   * those that were sent; and all of them have been read once nothing is under way.
   */
  lemma BytesArriveOnce(w: nat, maxPacket: nat, steps: seq<Step>)
    requires maxPacket > 64
    ensures var s := Run(Opened(w, maxPacket), steps);
            && Held(s) == Bag(Payloads(s.sent))
            && (Drained(s) ==> multiset(s.readMain) + multiset(s.readStderr) == Bag(Payloads(s.sent)))
  {
    hide Run;
    RunKeepsBytes(Opened(w, maxPacket), steps, w);
  }
  function OnStderr(x: byte): Msg {
    ExtendedData(EXTENDED_STDERR, [x])
  }

  /** A byte of stderr goes out and arrives. */
  lemma StderrArrives(s: System, x: byte, rest: seq<Step>)
    requires s.maxPacket > 65 && s.outWindow > 0 && s.granted == [] && s.wire == []
    ensures var r := s.(outWindow := s.outWindow - 1, sent := s.sent + [OnStderr(x)]);
            Run(s, [Allocate([x], true)] + ([Transmit(0)] + ([Deliver] + rest)))
            == Run(if s.combine then r.(main := s.main + [x]) else r.(stderr := s.stderr + [x]), rest)
  {
    hide Run;
    var m := OnStderr(x);
    var s1 := s.(outWindow := s.outWindow - 1, granted := [m]);
    assert Next(s, Allocate([x], true)) == s1 by {
      assert [x][..1] == [x];
    }
    var s2 := s1.(granted := [], wire := [m], sent := s.sent + [m]);
    assert Next(s1, Transmit(0)) == s2;
    RunStep(s, Allocate([x], true), [Transmit(0)] + ([Deliver] + rest));
    RunStep(s1, Transmit(0), [Deliver] + rest);
    RunStep(s2, Deliver, rest);
  }

  /**
   * Combining takes the order away, even within stderr: the bytes taken out of its buffer are fed to the main buffer
   * later, and what arrives in between goes there first.
   */
  lemma CombiningMayReorder()
    ensures var s := Run(Opened(100, 100), REORDERING);
            && Drained(s) && Stream(s.sent, true) == [1, 2] && Stream(s.sent, false) == []
            && s.readMain == [2, 1] && s.readStderr == []
  {
    hide Run, Enabled, Next, Stream;
    var last := [FeedMoved(0), Recv(2), Count(0)];
    var second := [Allocate([2], true)] + ([Transmit(0)] + ([Deliver] + last));
    assert REORDERING == [Allocate([1], true)] + ([Transmit(0)] + ([Deliver] + ([Combine(true)] + second)));
    FirstMoved(second);
    var s := Opened(100, 100).(outWindow := 99, sent := [OnStderr(1)], moving := [[1]], combine := true);
    SecondOvertakes(s, last);
    var r := s.(outWindow := 98, sent := [OnStderr(1), OnStderr(2)], main := [2]);
    FedLast(r);
    TwoOnStderr();
  }

  lemma TwoOnStderr()
    ensures Stream([OnStderr(1), OnStderr(2)], true) == [1, 2] && Stream([OnStderr(1), OnStderr(2)], false) == []
  {
    assert [OnStderr(1), OnStderr(2)][1..] == [OnStderr(2)];
    assert Stream([OnStderr(2)], true) == [2] && Stream([OnStderr(2)], false) == [];
  }

  lemma FirstMoved(rest: seq<Step>)
    ensures Run(Opened(100, 100), [Allocate([1], true)] + ([Transmit(0)] + ([Deliver] + ([Combine(true)] + rest))))
            == Run(Opened(100, 100).(outWindow := 99, sent := [OnStderr(1)], moving := [[1]], combine := true), rest)
  {
    hide Run, Enabled, Next;
    var s := Opened(100, 100);
    StderrArrives(s, 1, [Combine(true)] + rest);
    assert s.sent + [OnStderr(1)] == [OnStderr(1)] && s.stderr + [1] == [1];
    MovesStderr(s.(outWindow := 99, sent := [OnStderr(1)], stderr := [1]), rest);
  }

  lemma SecondOvertakes(s: System, rest: seq<Step>)
    requires s == Opened(100, 100).(outWindow := 99, sent := [OnStderr(1)], moving := [[1]], combine := true)
    ensures Run(s, [Allocate([2], true)] + ([Transmit(0)] + ([Deliver] + rest)))
            == Run(s.(outWindow := 98, sent := [OnStderr(1), OnStderr(2)], main := [2]), rest)
  {
    hide Run, Enabled, Next;
    StderrArrives(s, 2, rest);
    assert s.sent + [OnStderr(2)] == [OnStderr(1), OnStderr(2)] && s.main + [2] == [2];
  }

  lemma MovesStderr(s: System, rest: seq<Step>)
    requires s.maxPacket > 64 && s.stderr != [] && s.moving == [] && !s.combine
    ensures Run(s, [Combine(true)] + rest) == Run(s.(stderr := [], moving := [s.stderr], combine := true), rest)
  {
    hide Run;
    assert s.moving + [s.stderr] == [s.stderr];
    RunStep(s, Combine(true), rest);
  }

  lemma FedLast(s: System)
    requires s.maxPacket > 64 && s.moving == [[1]] && s.main == [2] && s.taken == [] && s.acks == [] && !s.shut
    requires s.sofar == 0 && s.threshold == 10 && s.readMain == []
    ensures Run(s, [FeedMoved(0), Recv(2), Count(0)]) == s.(moving := [], main := [], sofar := 2, readMain := [2, 1])
  {
    hide Run;
    var s1 := s.(moving := [], main := [2, 1]);
    assert Next(s, FeedMoved(0)) == s1;
    var s2 := s1.(main := [], taken := [2], readMain := [2, 1]);
    assert Next(s1, Recv(2)) == s2;
    assert Next(s2, Count(0)) == s2.(taken := [], sofar := 2);
    assert [FeedMoved(0), Recv(2), Count(0)] == [FeedMoved(0)] + ([Recv(2)] + [Count(0)]);
    RunStep(s, FeedMoved(0), [Recv(2)] + [Count(0)]);
    RunStep(s1, Recv(2), [Count(0)]);
    RunOne(s2, Count(0));
  }

  const REORDERING := [
    Allocate([1], true), Transmit(0), Deliver, Combine(true), Allocate([2], true), Transmit(0), Deliver, FeedMoved(0),
    Recv(2), Count(0)]
}
