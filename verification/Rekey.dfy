/** Rekey accounting of one packetizer, and how many packets a single inbound key can deliver. */
module Rekey {
  import opened Bytes

  const REKEY_PACKETS := 0x2000_0000
  const REKEY_BYTES := 0x2000_0000
  const REKEY_PACKETS_OVERFLOW_MAX := 0x2000_0000
  const REKEY_BYTES_OVERFLOW_MAX := 0x2000_0000

  datatype Counters = Counters(
    needRekey: bool, initCount: nat,
    sentBytes: nat, sentPackets: nat,
    receivedBytes: nat, receivedPackets: nat,
    receivedBytesOverflow: nat, receivedPacketsOverflow: nat)

  const INITIAL := Counters(false, 0, 0, 0, 0, 0, 0, 0)

  /** Python's `n | 1` and `n | 2`. */
  function Or1(n: nat): nat {
    if n % 2 == 0 then n + 1 else n
  }

  function Or2(n: nat): nat {
    if n / 2 % 2 == 0 then n + 2 else n
  }

  /** The flag is cleared only once both directions have been switched. */
  function BothSwitched(c: Counters): Counters {
    if c.initCount == 3 then c.(initCount := 0, needRekey := false) else c
  }

  function AfterOutbound(c: Counters): Counters {
    BothSwitched(c.(sentBytes := 0, sentPackets := 0, initCount := Or1(c.initCount)))
  }

  function AfterInbound(c: Counters): Counters {
    BothSwitched(c.(receivedBytes := 0, receivedPackets := 0, receivedBytesOverflow := 0, receivedPacketsOverflow := 0,
                    initCount := Or2(c.initCount)))
  }

  function AfterSend(c: Counters, size: nat): Counters {
    var c1 := c.(sentBytes := c.sentBytes + size, sentPackets := c.sentPackets + 1);
    if (c1.sentPackets >= REKEY_PACKETS || c1.sentBytes >= REKEY_BYTES) && !c1.needRekey then
      c1.(receivedBytesOverflow := 0, receivedPacketsOverflow := 0, needRekey := true)
    else c1
  }

  /** The counters after a packet of `raw` bytes, and whether it is still delivered. */
  function AfterRead(c: Counters, raw: nat): (Counters, bool) {
    var c1 := c.(receivedBytes := c.receivedBytes + raw, receivedPackets := c.receivedPackets + 1);
    if c1.needRekey then
      var c2 := c1.(receivedBytesOverflow := c1.receivedBytesOverflow + raw,
                    receivedPacketsOverflow := c1.receivedPacketsOverflow + 1);
      (c2, c2.receivedPacketsOverflow < REKEY_PACKETS_OVERFLOW_MAX
          && c2.receivedBytesOverflow < REKEY_BYTES_OVERFLOW_MAX)
    else if c1.receivedPackets >= REKEY_PACKETS || c1.receivedBytes >= REKEY_BYTES then
      (c1.(receivedBytesOverflow := 0, receivedPacketsOverflow := 0, needRekey := true), true)
    else (c1, true)
  }

  // ---- runs ----

  datatype Step = Send(size: nat) | Read(raw: nat) | SwitchOutbound | SwitchInbound

  /** One delivered packet: the inbound key it came under, counted from 0, and its sequence number. */
  datatype Delivery = Delivery(epoch: nat, seqno: nat)

  datatype State = State(c: Counters, epoch: nat, seqno: nat, log: seq<Delivery>)

  /** Takes one step; none when the step raises, which ends the connection. */
  function Next(s: State, step: Step): (r: (State, bool)) {
    match step
    case Send(size) => (s.(c := AfterSend(s.c, size)), true)
    case Read(raw) =>
      var (c, ok) := AfterRead(s.c, raw);
      (s.(c := c, seqno := (s.seqno + 1) % WORD, log := if ok then s.log + [Delivery(s.epoch, s.seqno)] else s.log), ok)
    case SwitchOutbound => (s.(c := AfterOutbound(s.c)), true)
    case SwitchInbound => (s.(c := AfterInbound(s.c), epoch := s.epoch + 1), true)
  }

  /** Runs until the steps are used up or one raises. */
  function Run(s: State, steps: seq<Step>): State
    decreases |steps|
  {
    if steps == [] then s
    else
      var (s', ok) := Next(s, steps[0]);
      if ok then Run(s', steps[1..]) else s'
  }

  /** Every packet on the wire is at least one block of eight bytes. */
  predicate RealSizes(steps: seq<Step>) {
    forall step :: step in steps && step.Read? ==> step.raw >= 8
  }

  /** The number of packets delivered under inbound key `epoch`. */
  function Delivered(log: seq<Delivery>, epoch: nat): nat {
    if log == [] then 0
    else Delivered(log[..|log| - 1], epoch) + (if log[|log| - 1].epoch == epoch then 1 else 0)
  }

  /** While no request is pending, or since the request: the packets counted under the current inbound key. */
  predicate Limited(c: Counters, base: nat) {
    if c.needRekey then c.receivedPackets <= base + c.receivedPacketsOverflow else c.receivedPackets < base
  }

  /** The same count by bytes, at eight bytes a packet or more. */
  predicate ByteLimited(c: Counters, base: nat) {
    && 8 * c.receivedPackets <= c.receivedBytes
    && 8 * c.receivedPacketsOverflow <= c.receivedBytesOverflow
    && (if c.needRekey then 8 * c.receivedPackets < base + 8 + 8 * c.receivedPacketsOverflow
        else 8 * c.receivedPackets < base)
  }

  /**
   * The flag is cleared a second time under the same inbound key only when the inbound direction was switched first;
   * from then on the count may start another round on top of the first round's overflow.
   */
  predicate Bounded(c: Counters) {
    && c.initCount <= 2
    && c.receivedPacketsOverflow < REKEY_PACKETS_OVERFLOW_MAX
    && c.receivedBytesOverflow < REKEY_BYTES_OVERFLOW_MAX
    && Limited(c, if c.initCount == 2 then REKEY_PACKETS else REKEY_PACKETS + REKEY_PACKETS_OVERFLOW_MAX)
  }

  predicate ByteBounded(c: Counters) {
    ByteLimited(c, if c.initCount == 2 then REKEY_BYTES else REKEY_BYTES + REKEY_BYTES_OVERFLOW_MAX + 8)
  }

  /** The log numbers all packets consecutively and its epochs never go back. */
  predicate Consecutive(s: State, start: nat) {
    && s.seqno == (start + |s.log|) % WORD
    && (forall i :: 0 <= i < |s.log| ==> s.log[i].seqno == (start + i) % WORD)
    && (forall i :: 0 <= i < |s.log| ==> s.log[i].epoch <= s.epoch)
    && (forall i, j :: 0 <= i <= j < |s.log| ==> s.log[i].epoch <= s.log[j].epoch)
  }

  ghost predicate Invariant(s: State, start: nat, limit: nat) {
    && Bounded(s.c) && Consecutive(s, start)
    && Delivered(s.log, s.epoch) == s.c.receivedPackets
    && forall e :: Delivered(s.log, e) < limit
  }

  const LIMIT := REKEY_PACKETS + 2 * REKEY_PACKETS_OVERFLOW_MAX
  const LIMIT_OUTBOUND_FIRST := REKEY_PACKETS + REKEY_PACKETS_OVERFLOW_MAX

  /** The rule the key exchange follows: the inbound direction is switched only after the outbound one. */
  predicate OutboundFirst(s: State, steps: seq<Step>)
    decreases |steps|
  {
    steps == [] ||
    ((steps[0].SwitchInbound? ==> s.c.initCount == 1) &&
     (Next(s, steps[0]).1 ==> OutboundFirst(Next(s, steps[0]).0, steps[1..])))
  }

  /** Under that rule there is only one round per key. */
  predicate BoundedFirst(c: Counters) {
    c.initCount <= 1 && Limited(c, REKEY_PACKETS)
  }

  lemma StepKeepsBounds(c: Counters, raw: nat)
    requires Bounded(c)
    ensures Bounded(AfterOutbound(c)) && Bounded(AfterInbound(c)) && Bounded(AfterSend(c, raw))
    ensures AfterRead(c, raw).1 ==> Bounded(AfterRead(c, raw).0)
    ensures Bounded(c) ==> c.receivedPackets < LIMIT
  {
    assert c.initCount == 0 || c.initCount == 1 || c.initCount == 2;
  }

  lemma ReadKeepsNumbers(s: State, s': State, start: nat)
    requires Consecutive(s, start) && s'.epoch == s.epoch
    requires s'.seqno == (s.seqno + 1) % WORD && s'.log == s.log + [Delivery(s.epoch, s.seqno)]
    ensures Consecutive(s', start)
  {
    var n := start + |s.log|;
    assert (n % WORD + 1) % WORD == (n + 1) % WORD;
  }

  lemma NextKeeps(s: State, step: Step, start: nat)
    requires Invariant(s, start, LIMIT)
    ensures Next(s, step).1 ==> Invariant(Next(s, step).0, start, LIMIT)
    ensures !Next(s, step).1 ==> Next(s, step).0.log == s.log
  {
    var (s', ok) := Next(s, step);
    StepKeepsBounds(s.c, if step.Send? then step.size else if step.Read? then step.raw else 0);
    if ok {
      StepKeepsBounds(s'.c, 0);
      if step.Read? {
        ReadKeepsNumbers(s, s', start);
        DeliveredAppend(s.log, Delivery(s.epoch, s.seqno));
      } else {
        assert Consecutive(s', start);
      }
      if step.SwitchInbound? {
        NothingAhead(s.log, s.epoch + 1);
      }
    }
  }

  lemma DeliveredAppend(log: seq<Delivery>, d: Delivery)
    ensures forall e :: Delivered(log + [d], e) == Delivered(log, e) + (if d.epoch == e then 1 else 0)
  {
    assert (log + [d])[..|log|] == log;
  }

  lemma {:induction false} NothingAhead(log: seq<Delivery>, e: nat)
    requires forall i :: 0 <= i < |log| ==> log[i].epoch < e
    ensures Delivered(log, e) == 0
  {
    if log == [] {
    } else {
      NothingAhead(log[..|log| - 1], e);
    }
  }

  lemma {:induction false} SameEpochRun(log: seq<Delivery>, i: nat, j: nat)
    requires i <= j < |log| && log[i].epoch == log[j].epoch
    requires forall a, b :: 0 <= a <= b < |log| ==> log[a].epoch <= log[b].epoch
    ensures Delivered(log, log[i].epoch) >= j - i + 1
    decreases |log|
  {
    var init := log[..|log| - 1];
    if j < |log| - 1 {
      SameEpochRun(init, i, j);
    } else if i < j {
      assert log[i].epoch <= log[j - 1].epoch <= log[j].epoch;
      SameEpochRun(init, i, j - 1);
    }
  }

  /** No inbound key delivers `limit` packets, and none sees the same sequence number twice. */
  ghost predicate Safe(log: seq<Delivery>, limit: nat) {
    && (forall e :: Delivered(log, e) < limit)
    && (forall i, j :: 0 <= i < j < |log| && log[i].epoch == log[j].epoch ==> log[i].seqno != log[j].seqno)
  }

  lemma InvariantIsSafe(s: State, start: nat, limit: nat)
    requires (forall e :: Delivered(s.log, e) < limit) && limit <= WORD && Consecutive(s, start)
    ensures Safe(s.log, limit)
  {
    forall i, j | 0 <= i < j < |s.log| && s.log[i].epoch == s.log[j].epoch
      ensures s.log[i].seqno != s.log[j].seqno
    {
      SameEpochRun(s.log, i, j);
      NumbersDiffer(start + i, j - i);
    }
  }

  lemma NumbersDiffer(n: nat, d: nat)
    requires 0 < d < WORD
    ensures n % WORD != (n + d) % WORD
  {
  }

  lemma {:induction false} RunKeeps(s: State, steps: seq<Step>, start: nat)
    requires Invariant(s, start, LIMIT)
    ensures Safe(Run(s, steps).log, LIMIT)
    decreases |steps|
  {
    if steps == [] {
      InvariantIsSafe(s, start, LIMIT);
    } else {
      NextKeeps(s, steps[0], start);
      if Next(s, steps[0]).1 {
        RunKeeps(Next(s, steps[0]).0, steps[1..], start);
      } else {
        InvariantIsSafe(s, start, LIMIT);
      }
    }
  }

  /** Over every interleaving of sends, reads and key switches. */
  lemma EveryRunIsSafe(seqno: nat, steps: seq<Step>)
    requires seqno < WORD
    ensures Safe(Run(State(INITIAL, 0, seqno, []), steps).log, LIMIT)
  {
    RunKeeps(State(INITIAL, 0, seqno, []), steps, seqno);
  }

  lemma NextKeepsFirst(s: State, step: Step, start: nat)
    requires Invariant(s, start, LIMIT) && BoundedFirst(s.c)
    requires forall e :: Delivered(s.log, e) < LIMIT_OUTBOUND_FIRST
    requires step.SwitchInbound? ==> s.c.initCount == 1
    ensures var (s', ok) := Next(s, step);
            && (ok ==> BoundedFirst(s'.c))
            && forall e :: Delivered(s'.log, e) < LIMIT_OUTBOUND_FIRST
  {
    if step.Read? {
      DeliveredAppend(s.log, Delivery(s.epoch, s.seqno));
    }
  }

  lemma {:induction false} RunKeepsFirst(s: State, steps: seq<Step>, start: nat)
    requires Invariant(s, start, LIMIT) && BoundedFirst(s.c) && OutboundFirst(s, steps)
    requires forall e :: Delivered(s.log, e) < LIMIT_OUTBOUND_FIRST
    ensures Safe(Run(s, steps).log, LIMIT_OUTBOUND_FIRST)
    decreases |steps|
  {
    if steps == [] {
      InvariantIsSafe(s, start, LIMIT_OUTBOUND_FIRST);
    } else {
      NextKeeps(s, steps[0], start);
      NextKeepsFirst(s, steps[0], start);
      if Next(s, steps[0]).1 {
        RunKeepsFirst(Next(s, steps[0]).0, steps[1..], start);
      } else {
        InvariantIsSafe(s, start, LIMIT_OUTBOUND_FIRST);
      }
    }
  }

  /** When the outbound direction always switches first, as the key exchange does, one overflow round fewer. */
  lemma OutboundFirstIsSafe(seqno: nat, steps: seq<Step>)
    requires seqno < WORD && OutboundFirst(State(INITIAL, 0, seqno, []), steps)
    ensures Safe(Run(State(INITIAL, 0, seqno, []), steps).log, LIMIT_OUTBOUND_FIRST)
  {
    RunKeepsFirst(State(INITIAL, 0, seqno, []), steps, seqno);
  }

  // ---- the byte limit ----

  /** Since every packet is at least eight bytes, the byte limit cuts in long before the packet limit. */
  const BYTE_LIMIT := REKEY_BYTES + 2 * REKEY_BYTES_OVERFLOW_MAX + 16

  lemma CountersKeepBytes(c: Counters, step: Step)
    requires Bounded(c) && ByteBounded(c) && (step.Read? ==> step.raw >= 8)
    ensures 8 * c.receivedPackets < BYTE_LIMIT
    ensures step.Send? ==> ByteBounded(AfterSend(c, step.size))
    ensures step.Read? && AfterRead(c, step.raw).1 ==> ByteBounded(AfterRead(c, step.raw).0)
    ensures step.SwitchOutbound? ==> ByteBounded(AfterOutbound(c))
    ensures step.SwitchInbound? ==> ByteBounded(AfterInbound(c))
  {
    assert c.initCount == 0 || c.initCount == 1 || c.initCount == 2;
  }

  lemma NextKeepsBytes(s: State, step: Step, start: nat)
    requires Invariant(s, start, LIMIT) && ByteBounded(s.c) && (step.Read? ==> step.raw >= 8)
    requires forall e :: 8 * Delivered(s.log, e) < BYTE_LIMIT
    ensures Next(s, step).1 ==> ByteBounded(Next(s, step).0.c)
    ensures forall e :: 8 * Delivered(Next(s, step).0.log, e) < BYTE_LIMIT
  {
    var (s', ok) := Next(s, step);
    CountersKeepBytes(s.c, step);
    if step.Read? && ok {
      NextKeeps(s, step, start);
      CountersKeepBytes(s'.c, SwitchOutbound);
      DeliveredAppend(s.log, Delivery(s.epoch, s.seqno));
    }
  }

  lemma {:induction false} RunKeepsBytes(s: State, steps: seq<Step>, start: nat)
    requires Invariant(s, start, LIMIT) && ByteBounded(s.c) && RealSizes(steps)
    requires forall e :: 8 * Delivered(s.log, e) < BYTE_LIMIT
    ensures forall e :: 8 * Delivered(Run(s, steps).log, e) < BYTE_LIMIT
    decreases |steps|
  {
    if steps == [] {
    } else {
      assert steps[0] in steps;
      NextKeeps(s, steps[0], start);
      NextKeepsBytes(s, steps[0], start);
      if Next(s, steps[0]).1 {
        RunKeepsBytes(Next(s, steps[0]).0, steps[1..], start);
      }
    }
  }

  lemma EveryRunIsByteLimited(seqno: nat, steps: seq<Step>, e: nat)
    requires seqno < WORD && RealSizes(steps)
    ensures 8 * Delivered(Run(State(INITIAL, 0, seqno, []), steps).log, e) < BYTE_LIMIT
  {
    RunKeepsBytes(State(INITIAL, 0, seqno, []), steps, seqno);
  }
  // ---- when a rekey is asked for ----

  /** The run takes all of its steps. */
  predicate Completes(s: State, steps: seq<Step>)
    decreases |steps|
  {
    steps == [] || (Next(s, steps[0]).1 && Completes(Next(s, steps[0]).0, steps[1..]))
  }

  function Sum(sizes: seq<nat>): nat {
    if sizes == [] then 0 else Sum(sizes[..|sizes| - 1]) + sizes[|sizes| - 1]
  }

  function SentNext(sizes: seq<nat>, step: Step): seq<nat> {
    match step
    case Send(size) => sizes + [size]
    case SwitchOutbound => []
    case _ => sizes
  }

  function ReadNext(sizes: seq<nat>, step: Step): seq<nat> {
    match step
    case Read(raw) => sizes + [raw]
    case SwitchInbound => []
    case _ => sizes
  }

  /** The sizes of the packets sent since the outbound direction was last switched. */
  function SentUnderKey(steps: seq<Step>): seq<nat> {
    if steps == [] then []
    else SentNext(SentUnderKey(steps[..|steps| - 1]), steps[|steps| - 1])
  }

  /** The sizes of the packets received since the inbound direction was last switched. */
  function ReadUnderKey(steps: seq<Step>): seq<nat> {
    if steps == [] then []
    else ReadNext(ReadUnderKey(steps[..|steps| - 1]), steps[|steps| - 1])
  }

  predicate TooMuch(sizes: seq<nat>) {
    |sizes| >= 0x2000_0000 || Sum(sizes) >= 0x2000_0000
  }

  /** The last step is a packet that brings its direction to a limit, or beyond. */
  predicate AtLimit(steps: seq<Step>) {
    && steps != []
    && (steps[|steps| - 1].Send? ==> TooMuch(SentUnderKey(steps)))
    && (steps[|steps| - 1].Read? ==> TooMuch(ReadUnderKey(steps)))
    && (steps[|steps| - 1].Send? || steps[|steps| - 1].Read?)
  }

  /** Whether the outbound and the inbound direction have been switched since both of them last had been. */
  function Switched(steps: seq<Step>): (bool, bool) {
    if steps == [] then (false, false)
    else SwitchedNext(Switched(steps[..|steps| - 1]), steps[|steps| - 1])
  }

  function SwitchedNext(switched: (bool, bool), step: Step): (bool, bool) {
    var now := (switched.0 || step.SwitchOutbound?, switched.1 || step.SwitchInbound?);
    if now == (true, true) then (false, false) else now
  }

  /** The last step completes a switch of both directions. */
  predicate SwitchesBoth(steps: seq<Step>) {
    && steps != []
    && (steps[|steps| - 1].SwitchOutbound? || steps[|steps| - 1].SwitchInbound?)
    && Switched(steps) == (false, false)
  }

  /** A limit was reached after `k` steps and both directions have not been switched since. */
  predicate AsksSince(steps: seq<Step>, k: nat)
    requires k <= |steps|
  {
    AtLimit(steps[..k]) && forall j :: k < j <= |steps| ==> !SwitchesBoth(steps[..j])
  }

  ghost predicate Asks(steps: seq<Step>) {
    exists k :: 0 <= k <= |steps| && AsksSince(steps, k)
  }

  /** What the counters count. */
  ghost predicate Counts(c: Counters, steps: seq<Step>) {
    && c.sentPackets == |SentUnderKey(steps)| && c.sentBytes == Sum(SentUnderKey(steps))
    && c.receivedPackets == |ReadUnderKey(steps)| && c.receivedBytes == Sum(ReadUnderKey(steps))
    && c.initCount == (if Switched(steps).0 then 1 else 0) + (if Switched(steps).1 then 2 else 0)
    && Switched(steps) != (true, true)
    && (c.needRekey <==> Asks(steps))
  }

  lemma SumAppend(sizes: seq<nat>, n: nat)
    ensures Sum(sizes + [n]) == Sum(sizes) + n
  {
    assert (sizes + [n])[..|sizes|] == sizes;
  }

  lemma AsksNext(steps: seq<Step>, step: Step)
    ensures var now := steps + [step]; Asks(now) <==> AtLimit(now) || (Asks(steps) && !SwitchesBoth(now))
  {
    hide AtLimit, SwitchesBoth;
    var now := steps + [step];
    assert now[..|now|] == now;
    forall k | 0 <= k <= |steps| ensures AsksSince(now, k) <==> AsksSince(steps, k) && !SwitchesBoth(now) {
      forall j | 0 <= j <= |steps| ensures now[..j] == steps[..j] {
      }
    }
    if AtLimit(now) {
      assert AsksSince(now, |now|);
    }
    if Asks(steps) && !SwitchesBoth(now) {
      var k :| 0 <= k <= |steps| && AsksSince(steps, k);
      assert AsksSince(now, k);
    }
  }
  lemma HistoryNext(steps: seq<Step>, step: Step)
    ensures var now := steps + [step];
            && SentUnderKey(now) == SentNext(SentUnderKey(steps), step)
            && ReadUnderKey(now) == ReadNext(ReadUnderKey(steps), step)
            && Switched(now) == SwitchedNext(Switched(steps), step)
  {
    assert (steps + [step])[..|steps|] == steps;
  }

  lemma PacketCounts(s: State, steps: seq<Step>, step: Step)
    requires Counts(s.c, steps) && Next(s, step).1 && (step.Send? || step.Read?)
    ensures Counts(Next(s, step).0.c, steps + [step])
  {
    hide SentUnderKey, ReadUnderKey, Switched, Asks, Sum;
    HistoryNext(steps, step);
    AsksNext(steps, step);
    SumAppend(SentUnderKey(steps), if step.Send? then step.size else 0);
    SumAppend(ReadUnderKey(steps), if step.Read? then step.raw else 0);
  }

  lemma SwitchCounts(s: State, steps: seq<Step>, step: Step)
    requires Counts(s.c, steps) && (step.SwitchOutbound? || step.SwitchInbound?)
    ensures Counts(Next(s, step).0.c, steps + [step])
  {
    hide SentUnderKey, ReadUnderKey, Switched, Asks;
    HistoryNext(steps, step);
    AsksNext(steps, step);
    assert Sum([]) == 0;
    hide Sum;
    assert s.c.initCount == 0 || s.c.initCount == 1 || s.c.initCount == 2;
  }

  lemma NextCounts(s: State, steps: seq<Step>, step: Step)
    requires Counts(s.c, steps) && Next(s, step).1
    ensures Counts(Next(s, step).0.c, steps + [step])
  {
    hide Counts, Next;
    if step.Send? || step.Read? {
      PacketCounts(s, steps, step);
    } else {
      SwitchCounts(s, steps, step);
    }
  }

  lemma {:induction false} RunCounts(s: State, before: seq<Step>, rest: seq<Step>)
    requires Counts(s.c, before) && Completes(s, rest)
    ensures Counts(Run(s, rest).c, before + rest)
    decreases |rest|
  {
    if rest == [] {
      assert before + rest == before;
    } else {
      NextCounts(s, before, rest[0]);
      assert before + [rest[0]] + rest[1..] == before + rest;
      RunCounts(Next(s, rest[0]).0, before + [rest[0]], rest[1..]);
    }
  }

  /**
   * At any moment of any run the flag is up exactly if some packet sent or received brought its direction to a limit
   * and the two directions have not both been switched since; the counters count what went under the present keys.
   */
  lemma RekeyIsAskedFor(seqno: nat, steps: seq<Step>)
    requires Completes(State(INITIAL, 0, seqno, []), steps)
    ensures var c := Run(State(INITIAL, 0, seqno, []), steps).c;
            && (c.needRekey <==> Asks(steps))
            && c.sentPackets == |SentUnderKey(steps)| && c.sentBytes == Sum(SentUnderKey(steps))
            && c.receivedPackets == |ReadUnderKey(steps)| && c.receivedBytes == Sum(ReadUnderKey(steps))
  {
    assert forall k :: 0 <= k <= 0 ==> !AsksSince([], k);
    RunCounts(State(INITIAL, 0, seqno, []), [], steps);
    assert [] + steps == steps;
  }

  /** The packet that brings a direction to a limit raises the flag. */
  lemma LimitRaisesTheFlag(seqno: nat, steps: seq<Step>)
    requires Completes(State(INITIAL, 0, seqno, []), steps) && AtLimit(steps)
    ensures Run(State(INITIAL, 0, seqno, []), steps).c.needRekey
  {
    RekeyIsAskedFor(seqno, steps);
    assert steps[..|steps|] == steps;
    assert AsksSince(steps, |steps|);
  }

  /** How much a step reads. */
  function Sizes(steps: seq<Step>): (sizes: seq<nat>)
    decreases |steps|
  {
    if steps == [] then []
    else (if steps[0].Read? then [steps[0].raw] else []) + Sizes(steps[1..])
  }

  function Total(sizes: seq<nat>): nat {
    if sizes == [] then 0 else sizes[0] + Total(sizes[1..])
  }

  lemma {:induction false} OverflowRun(s: State, rest: seq<Step>)
    requires s.c.needRekey && s.c.initCount <= 1 && SwitchInbound !in rest
    ensures Completes(s, rest) <==>
              Sizes(rest) == [] ||
              (s.c.receivedPacketsOverflow + |Sizes(rest)| < 0x2000_0000 &&
               s.c.receivedBytesOverflow + Total(Sizes(rest)) < 0x2000_0000)
    decreases |rest|
  {
    if rest != [] {
      assert rest[0] in rest;
      var (s', ok) := Next(s, rest[0]);
      if rest[0].Read? {
        assert Sizes(rest)[1..] == Sizes(rest[1..]);
        if ok {
          OverflowRun(s', rest[1..]);
        }
      } else {
        assert Sizes(rest) == Sizes(rest[1..]);
        OverflowRun(s', rest[1..]);
      }
    }
  }

  /**
   * After a request the peer is cut off exactly when it has sent a full limit's worth of packets or bytes without
   * switching, whatever was received before the request and whatever is sent meanwhile.
   */
  lemma RequestIsEnforced(s: State, ask: Step, rest: seq<Step>)
    requires !s.c.needRekey && s.c.initCount <= 1 && Next(s, ask).0.c.needRekey && SwitchInbound !in rest
    ensures Completes(Next(s, ask).0, rest) <==> |Sizes(rest)| < 0x2000_0000 && Total(Sizes(rest)) < 0x2000_0000
  {
    assert Next(s, ask).0.c.receivedPacketsOverflow == Next(s, ask).0.c.receivedBytesOverflow == 0;
    OverflowRun(Next(s, ask).0, rest);
  }
}
