/**
 * Holding user messages back during a key exchange: the transport thread and any number of user threads, step by
 * step, with the lock and the event they share.
 */
module Gate {

  /** Where a user thread is in `_send_user_message`. */
  datatype UserAt = Idle | WaitingForEvent | WaitingForLock | HoldingLock | Writing | Leaving

  /** Where the transport thread is: in its loop, or in one of the sections that use the lock. */
  datatype TransportAt =
    | Running
    | ClearingForInit(locked: bool)
    | WritingInit
    | ClearingForPeer(locked: bool)
    | SettingAfterKeys(locked: bool)

  datatype Holder = Nobody | User(i: nat) | Transport

  /** What is written to the wire and what is taken from it, as far as it matters here. Exchanges count from 1. */
  datatype Event =
    | InitSent(exchange: nat)
    | NewKeysSent(exchange: nat)
    | NewKeysProcessed(exchange: nat)
    | UserMessage(i: nat)

  /**
   * `clear` is the event and `localInit` whether a copy of our announcement is kept; `sent` counts our
   * announcements, `peerInits` the peer's, `keyed` our NEWKEYS and `heard` the peer's.
   */
  datatype State = State(
    users: seq<UserAt>, transport: TransportAt, holder: Holder, clear: bool,
    inKex: bool, needRekey: bool, localInit: bool,
    sent: nat, peerInits: nat, keyed: nat, heard: nat, log: seq<Event>)

  function Start(n: nat): State {
    State(seq(n, i => Idle), Running, Nobody, false, false, false, false, 0, 0, 0, 0, [])
  }

  datatype Step =
    // a user thread
    | Call(i: nat)
    | WaitReturns(i: nat)
    | Acquire(i: nat)
    | Check(i: nat, timedOut: bool)
    | Write(i: nat)
    | Release(i: nat)
    // the transport thread
    | BeginInit
    | TransportAcquire
    | Clear
    | WriteInit
    | PeerInit
    | FinishOutbound
    | PeerNewKeys
    | SetEvent
    // the packetizer
    | TriggerRekey

  predicate At(s: State, i: nat, at: UserAt) {
    i < |s.users| && s.users[i] == at
  }

  predicate Enabled(s: State, step: Step) {
    match step
    case Call(i) => At(s, i, Idle)
    case WaitReturns(i) => At(s, i, WaitingForEvent)
    case Acquire(i) => At(s, i, WaitingForLock) && s.holder == Nobody
    case Check(i, _) => At(s, i, HoldingLock)
    case Write(i) => At(s, i, Writing)
    case Release(i) => At(s, i, Leaving)
    // at the start, and whenever a rekey is due and no exchange is under way
    case BeginInit => s.transport == Running && (s.sent == 0 || (s.needRekey && !s.inKex))
    case TransportAcquire =>
      && s.holder == Nobody
      && s.transport in {ClearingForInit(false), ClearingForPeer(false), SettingAfterKeys(false)}
    case Clear => s.transport == ClearingForInit(true) || s.transport == ClearingForPeer(true)
    case WriteInit => s.transport == WritingInit
    // only NEWKEYS is accepted between our NEWKEYS and the peer's
    case PeerInit => s.transport == Running && s.sent > 0 && s.keyed == s.heard && s.peerInits == s.heard
    case FinishOutbound => s.transport == Running && s.keyed < s.sent && s.keyed < s.peerInits
    case PeerNewKeys => s.transport == Running && s.heard < s.keyed
    case SetEvent => s.transport == SettingAfterKeys(true)
    case TriggerRekey => true
  }

  function Next(s: State, step: Step): State
    requires Enabled(s, step)
  {
    match step
    case Call(i) => s.(users := s.users[i := WaitingForEvent])
    case WaitReturns(i) => s.(users := s.users[i := WaitingForLock])
    case Acquire(i) => s.(users := s.users[i := HoldingLock], holder := User(i))
    case Check(i, timedOut) =>
      if s.clear then s.(users := s.users[i := Writing])
      else s.(users := s.users[i := if timedOut then Idle else WaitingForEvent], holder := Nobody)
    case Write(i) => s.(users := s.users[i := Leaving], log := s.log + [UserMessage(i)])
    case Release(i) => s.(users := s.users[i := Idle], holder := Nobody)
    case BeginInit => s.(transport := ClearingForInit(false))
    case TransportAcquire =>
      var at := match s.transport
        case ClearingForInit(_) => ClearingForInit(true)
        case ClearingForPeer(_) => ClearingForPeer(true)
        case _ => SettingAfterKeys(true);
      s.(transport := at, holder := Transport)
    case Clear =>
      var at := if s.transport.ClearingForInit? then WritingInit
                else if s.localInit then Running
                else ClearingForInit(false); // the peer has announced first
      s.(transport := at, holder := Nobody, clear := false, inKex := s.inKex || s.transport.ClearingForInit?)
    case WriteInit =>
      s.(transport := Running, sent := s.sent + 1, localInit := true, log := s.log + [InitSent(s.sent + 1)])
    case PeerInit => s.(transport := ClearingForPeer(false), peerInits := s.peerInits + 1)
    case FinishOutbound =>
      s.(keyed := s.keyed + 1, inKex := s.inKex && s.needRekey, log := s.log + [NewKeysSent(s.keyed + 1)])
    case PeerNewKeys =>
      // both directions have been switched, which clears the rekey flag
      s.(transport := SettingAfterKeys(false), heard := s.heard + 1,
         needRekey := false, localInit := false, inKex := false, log := s.log + [NewKeysProcessed(s.heard + 1)])
    case SetEvent => s.(transport := Running, holder := Nobody, clear := true)
    case TriggerRekey => s.(needRekey := true)
  }

  /** A run takes the enabled steps of a schedule in order; a thread whose step is not enabled waits. */
  function Run(s: State, steps: seq<Step>): State
    decreases |steps|
  {
    if steps == [] then s else Run(if Enabled(s, steps[0]) then Next(s, steps[0]) else s, steps[1..])
  }

  // ---- every user message waits for some NEWKEYS ----

  /** Whether an announcement of ours has been sent since the peer's last NEWKEYS was processed. */
  predicate InitPending(log: seq<Event>) {
    if log == [] then false
    else
      match log[|log| - 1]
      case InitSent(_) => true
      case NewKeysProcessed(_) => false
      case _ => InitPending(log[..|log| - 1])
  }

  ghost predicate Gated(log: seq<Event>) {
    forall j :: 0 <= j < |log| && log[j].UserMessage? ==> !InitPending(log[..j])
  }

  /** Who holds the lock is where the lock says, and a thread about to write holds it with the event set. */
  predicate LockOk(s: State) {
    && (forall i :: 0 <= i < |s.users| && s.users[i] in {HoldingLock, Writing, Leaving} ==> s.holder == User(i))
    && (forall i :: 0 <= i < |s.users| && s.users[i] == Writing ==> s.clear)
    && (s.transport in {ClearingForInit(true), ClearingForPeer(true), SettingAfterKeys(true)} ==> s.holder == Transport)
  }

  /** Messages so far were gated, and the event is set, or about to be, only when no announcement is pending. */
  ghost predicate GateOk(s: State) {
    && Gated(s.log)
    && (s.clear ==> !InitPending(s.log) && s.transport != WritingInit)
    && (s.transport.SettingAfterKeys? ==> !InitPending(s.log))
  }

  ghost predicate Invariant(s: State) {
    LockOk(s) && GateOk(s)
  }

  lemma LastEvent(log: seq<Event>, e: Event)
    ensures InitPending(log + [e])
            == (if e.InitSent? then true else if e.NewKeysProcessed? then false else InitPending(log))
    ensures Gated(log) && (e.UserMessage? ==> !InitPending(log)) ==> Gated(log + [e])
  {
    assert (log + [e])[..|log|] == log;
    if Gated(log) && (e.UserMessage? ==> !InitPending(log)) {
      forall j | 0 <= j < |log + [e]| && (log + [e])[j].UserMessage?
        ensures !InitPending((log + [e])[..j])
      {
        assert (log + [e])[..j] == log[..j];
        if j < |log| {
          assert log[j].UserMessage?;
        } else {
          assert log[..j] == log;
        }
      }
    }
  }

  lemma NextKeepsLock(s: State, step: Step)
    requires LockOk(s) && Enabled(s, step)
    ensures LockOk(Next(s, step))
  {
  }

  predicate ByUser(step: Step) {
    step.Call? || step.WaitReturns? || step.Acquire? || step.Check? || step.Write? || step.Release?
  }

  lemma UserKeepsGate(s: State, step: Step)
    requires LockOk(s) && GateOk(s) && Enabled(s, step) && ByUser(step)
    ensures GateOk(Next(s, step))
  {
    if step.Write? {
      LastEvent(s.log, UserMessage(step.i));
    }
  }

  lemma TransportKeepsGate(s: State, step: Step)
    requires LockOk(s) && GateOk(s) && Enabled(s, step) && !ByUser(step)
    ensures GateOk(Next(s, step))
  {
    hide InitPending, Gated;
    match step
    case WriteInit => LastEvent(s.log, InitSent(s.sent + 1));
    case FinishOutbound => LastEvent(s.log, NewKeysSent(s.keyed + 1));
    case PeerNewKeys => LastEvent(s.log, NewKeysProcessed(s.heard + 1));
    case _ =>
  }

  lemma NextKeeps(s: State, step: Step)
    requires Invariant(s) && Enabled(s, step)
    ensures Invariant(Next(s, step))
  {
    NextKeepsLock(s, step);
    if ByUser(step) {
      UserKeepsGate(s, step);
    } else {
      TransportKeepsGate(s, step);
    }
  }

  lemma {:induction false} RunKeeps(s: State, steps: seq<Step>)
    requires Invariant(s)
    ensures Invariant(Run(s, steps))
    decreases |steps|
  {
    if steps == [] {
    } else {
      if Enabled(s, steps[0]) {
        NextKeeps(s, steps[0]);
        RunKeeps(Next(s, steps[0]), steps[1..]);
      } else {
        RunKeeps(s, steps[1..]);
      }
    }
  }

  lemma {:induction false} PendingMeansNoKeys(log: seq<Event>, i: nat)
    requires i < |log| && log[i].InitSent? && !InitPending(log)
    ensures exists k :: i < k < |log| && log[k].NewKeysProcessed?
    decreases |log|
  {
    var n := |log| - 1;
    if log[n].NewKeysProcessed? {
    } else {
      PendingMeansNoKeys(log[..n], i);
      var k :| i < k < n && log[..n][k].NewKeysProcessed?;
      assert log[k].NewKeysProcessed?;
    }
  }

  /**
   * With any number of user threads and any interleaving, a user message written after our announcement comes after
   * a NEWKEYS processed since that announcement.
   */
  lemma UserMessagesWait(n: nat, steps: seq<Step>, i: nat, j: nat)
    requires var log := Run(Start(n), steps).log; i < j < |log| && log[i].InitSent? && log[j].UserMessage?
    ensures var log := Run(Start(n), steps).log; exists k :: i < k < j && log[k].NewKeysProcessed?
  {
    RunKeeps(Start(n), steps);
    var log := Run(Start(n), steps).log;
    assert log[..j][i] == log[i];
    PendingMeansNoKeys(log[..j], i);
    var k :| i < k < j && log[..j][k].NewKeysProcessed?;
    assert log[k].NewKeysProcessed?;
  }

  // ---- but not always for the NEWKEYS of its own exchange ----

  /** User data never falls between our announcement of an exchange and the peer's NEWKEYS of the same exchange. */
  ghost predicate GatedByOwnKeys(log: seq<Event>) {
    forall i, j :: 0 <= i < j < |log| && log[i].InitSent? && log[j].UserMessage? ==>
      exists k :: i < k < j && log[k] == NewKeysProcessed(log[i].exchange)
  }

  /**
   * The transport announces again before the peer's NEWKEYS for the previous exchange has come, which it can do since
   * sending our NEWKEYS ends the exchange as far as its loop is concerned.
   */
  predicate Premature(s: State, step: Step) {
    step == BeginInit && Enabled(s, step) && s.keyed > s.heard
  }

  /** A premature announcement is possible while the lock is free and a user thread is idle. */
  predicate Exposed(s: State) {
    Premature(s, BeginInit) && s.holder == Nobody && At(s, 0, Idle) && s.keyed <= s.sent
  }

  /** No announcement of the run is premature. */
  predicate Orderly(s: State, steps: seq<Step>)
    decreases |steps|
  {
    steps == [] ||
    (!Premature(s, steps[0]) && Orderly(if Enabled(s, steps[0]) then Next(s, steps[0]) else s, steps[1..]))
  }

  /** In an orderly run at most one exchange is open at a time, and the event is set only when none is. */
  predicate Counts(s: State) {
    && s.heard <= s.keyed <= s.sent <= s.heard + 1
    && s.keyed <= s.peerInits <= s.heard + 1
    && s.localInit == (s.sent > s.heard)
    && (s.sent > s.heard == s.keyed && s.transport != WritingInit ==> s.inKex)
    && (s.clear || s.transport.SettingAfterKeys? || s.transport.ClearingForInit? || s.transport == WritingInit ==>
       s.sent == s.heard)
    && (s.transport == WritingInit ==> s.inKex && !s.clear)
  }

  /** Every announcement is numbered, and those of finished exchanges are followed by the peer's NEWKEYS. */
  ghost predicate Answered(s: State) {
    forall i :: 0 <= i < |s.log| && s.log[i].InitSent? ==>
      s.log[i].exchange <= s.sent
          && (s.log[i].exchange <= s.heard ==> FollowedBy(s.log, i, NewKeysProcessed(s.log[i].exchange)))
  }

  ghost predicate FollowedBy(log: seq<Event>, i: nat, e: Event) {
    exists k :: i < k < |log| && log[k] == e
  }

  ghost predicate OrderlyInvariant(s: State) {
    LockOk(s) && Counts(s) && Answered(s) && GatedByOwnKeys(s.log)
  }

  lemma FollowedStill(log: seq<Event>, i: nat, e: Event, x: Event)
    requires FollowedBy(log, i, e)
    ensures FollowedBy(log + [x], i, e)
  {
    var k :| i < k < |log| && log[k] == e;
    assert (log + [x])[k] == e;
  }

  /** Appending anything but an announcement or a user message keeps all answers. */
  lemma AppendKeeps(s: State, x: Event, s': State)
    requires Answered(s) && GatedByOwnKeys(s.log) && s'.log == s.log + [x]
    requires s'.sent >= s.sent && (x.InitSent? ==> s'.heard < x.exchange <= s'.sent)
    requires s'.heard == s.heard || (s'.heard == s.heard + 1 && x == NewKeysProcessed(s'.heard))
    requires x.UserMessage? ==> s.sent == s.heard
    ensures Answered(s') && GatedByOwnKeys(s'.log)
  {
    forall i | 0 <= i < |s'.log| && s'.log[i].InitSent?
      ensures s'.log[i].exchange <= s'.sent
      ensures s'.log[i].exchange <= s'.heard ==> FollowedBy(s'.log, i, NewKeysProcessed(s'.log[i].exchange))
    {
      if i < |s.log| {
        assert s'.log[i] == s.log[i];
        if s.log[i].exchange <= s.heard {
          FollowedStill(s.log, i, NewKeysProcessed(s.log[i].exchange), x);
        } else if s.log[i].exchange <= s'.heard {
          assert s'.log[|s.log|] == NewKeysProcessed(s.log[i].exchange);
        }
      }
    }
    forall i, j | 0 <= i < j < |s'.log| && s'.log[i].InitSent? && s'.log[j].UserMessage?
      ensures exists k :: i < k < j && s'.log[k] == NewKeysProcessed(s'.log[i].exchange)
    {
      assert s'.log[i] == s.log[i];
      if j < |s.log| {
        assert s'.log[j] == s.log[j];
        var k :| i < k < j && s.log[k] == NewKeysProcessed(s.log[i].exchange);
        assert s'.log[k] == s.log[k];
      } else {
        assert FollowedBy(s.log, i, NewKeysProcessed(s.log[i].exchange));
        var k :| i < k < |s.log| && s.log[k] == NewKeysProcessed(s.log[i].exchange);
        assert s'.log[k] == s.log[k];
      }
    }
  }

  lemma NextKeepsOrderly(s: State, step: Step)
    requires OrderlyInvariant(s) && Enabled(s, step) && !Premature(s, step)
    ensures OrderlyInvariant(Next(s, step))
  {
    var s' := Next(s, step);
    match step
    case Write(i) => AppendKeeps(s, UserMessage(i), s');
    case WriteInit => AppendKeeps(s, InitSent(s.sent + 1), s');
    case FinishOutbound => AppendKeeps(s, NewKeysSent(s.keyed + 1), s');
    case PeerNewKeys => AppendKeeps(s, NewKeysProcessed(s.heard + 1), s');
    case _ =>
  }

  lemma {:induction false} OrderlyRunKeeps(s: State, steps: seq<Step>)
    requires OrderlyInvariant(s) && Orderly(s, steps)
    ensures OrderlyInvariant(Run(s, steps))
    decreases |steps|
  {
    if steps == [] {
    } else {
      if Enabled(s, steps[0]) {
        NextKeepsOrderly(s, steps[0]);
        OrderlyRunKeeps(Next(s, steps[0]), steps[1..]);
      } else {
        OrderlyRunKeeps(s, steps[1..]);
      }
    }
  }

  /** Without a premature announcement, user data waits for the NEWKEYS of its own exchange. */
  lemma OrderlyRunsAreGatedByOwnKeys(n: nat, steps: seq<Step>)
    requires Orderly(Start(n), steps)
    ensures GatedByOwnKeys(Run(Start(n), steps).log)
  {
    OrderlyRunKeeps(Start(n), steps);
  }

  lemma {:induction false} RunConcat(s: State, a: seq<Step>, b: seq<Step>)
    ensures Run(s, a + b) == Run(Run(s, a), b)
    decreases |a|
  {
    if a == [] {
      assert a + b == b;
    } else {
      assert (a + b)[1..] == a[1..] + b;
      RunConcat(if Enabled(s, a[0]) then Next(s, a[0]) else s, a[1..], b);
    }
  }

  lemma RunOne(s: State, a: Step)
    requires Enabled(s, a)
    ensures Run(s, [a]) == Next(s, a)
  {
    assert [a][1..] == [];
  }

  lemma RunTwo(s: State, a: Step, b: Step, s1: State)
    requires Enabled(s, a) && s1 == Next(s, a) && Enabled(s1, b)
    ensures Run(s, [a, b]) == Next(s1, b)
  {
    RunConcat(s, [a], [b]);
    assert [a] + [b] == [a, b];
    RunOne(s, a);
    RunOne(s1, b);
  }

  lemma RunThree(s: State, a: Step, b: Step, c: Step, s1: State, s2: State)
    requires Enabled(s, a) && s1 == Next(s, a) && Enabled(s1, b) && s2 == Next(s1, b) && Enabled(s2, c)
    ensures Run(s, [a, b, c]) == Next(s2, c)
  {
    RunConcat(s, [a, b], [c]);
    assert [a, b] + [c] == [a, b, c];
    RunTwo(s, a, b, s1);
    RunOne(s2, c);
  }

  /** From the premature announcement to a user message: the NEWKEYS of the exchange before opens the gate. */
  const ANNOUNCE: seq<Step> := [BeginInit, TransportAcquire, Clear, WriteInit]
  const OPEN: seq<Step> := [PeerNewKeys, TransportAcquire, SetEvent]
  const SPEAK: seq<Step> := [Call(0), WaitReturns(0), Acquire(0), Check(0, false), Write(0)]

  lemma RunAnnounce(s: State)
    requires s.holder == Nobody && Enabled(s, BeginInit)
    ensures Run(s, ANNOUNCE)
            == s.(clear := false, inKex := true, sent := s.sent + 1, localInit := true,
                log := s.log + [InitSent(s.sent + 1)])
  {
    var s1 := Next(s, BeginInit);
    var s2 := Next(s1, TransportAcquire);
    var s3 := Next(s2, Clear);
    RunTwo(s, BeginInit, TransportAcquire, s1);
    RunTwo(s2, Clear, WriteInit, s3);
    RunConcat(s, [BeginInit, TransportAcquire], [Clear, WriteInit]);
    assert [BeginInit, TransportAcquire] + [Clear, WriteInit] == ANNOUNCE;
  }

  lemma RunOpen(s: State)
    requires s.holder == Nobody && Enabled(s, PeerNewKeys)
    ensures Run(s, OPEN)
            == s.(clear := true, heard := s.heard + 1, needRekey := false, localInit := false, inKex := false,
                               log := s.log + [NewKeysProcessed(s.heard + 1)])
  {
    var s1 := Next(s, PeerNewKeys);
    var s2 := Next(s1, TransportAcquire);
    RunThree(s, PeerNewKeys, TransportAcquire, SetEvent, s1, s2);
  }

  lemma RunSpeak(s: State)
    requires s.holder == Nobody && s.clear && At(s, 0, Idle)
    ensures Run(s, SPEAK).log == s.log + [UserMessage(0)]
  {
    var s1 := Next(s, Call(0));
    var s2 := Next(s1, WaitReturns(0));
    var s3 := Next(s2, Acquire(0));
    var s4 := Next(s3, Check(0, false));
    RunThree(s, Call(0), WaitReturns(0), Acquire(0), s1, s2);
    RunTwo(s3, Check(0, false), Write(0), s4);
    RunConcat(s, [Call(0), WaitReturns(0), Acquire(0)], [Check(0, false), Write(0)]);
    assert [Call(0), WaitReturns(0), Acquire(0)] + [Check(0, false), Write(0)] == SPEAK;
  }

  lemma OpenAfterAnnounce(s: State, announced: State)
    requires Premature(s, BeginInit) && s.holder == Nobody && At(s, 0, Idle)
    requires announced
             == s.(clear := false, inKex := true, sent := s.sent + 1, localInit := true,
                 log := s.log + [InitSent(s.sent + 1)])
    ensures announced.holder == Nobody && Enabled(announced, PeerNewKeys) && At(announced, 0, Idle)
    ensures announced.log == s.log + [InitSent(s.sent + 1)] && announced.heard == s.heard
  {
  }

  lemma OpenThenSpeak(s: State, unlocked: State, spoken: State)
    requires s.holder == Nobody && Enabled(s, PeerNewKeys) && At(s, 0, Idle)
    requires unlocked == Run(s, OPEN) && spoken == Run(unlocked, SPEAK)
    ensures spoken.log == s.log + [NewKeysProcessed(s.heard + 1)] + [UserMessage(0)]
  {
    RunOpen(s);
    RunSpeak(unlocked);
  }

  lemma NotGated(log: seq<Event>, n: nat, m: nat, announced: seq<Event>)
    requires n != m && announced == log + [InitSent(n)]
    ensures !GatedByOwnKeys(announced + [NewKeysProcessed(m)] + [UserMessage(0)])
  {
    var l, i := announced + [NewKeysProcessed(m)] + [UserMessage(0)], |log|;
    assert l[i] == InitSent(n) && l[i + 1] == NewKeysProcessed(m) && l[i + 2] == UserMessage(0);
    assert forall k :: i < k < i + 2 ==> l[k] != NewKeysProcessed(l[i].exchange);
  }

  lemma NotGatedAfter(s: State, announced: State, spoken: seq<Event>)
    requires s.keyed > s.heard && s.keyed <= s.sent
    requires announced.log == s.log + [InitSent(s.sent + 1)] && announced.heard == s.heard
    requires spoken == announced.log + [NewKeysProcessed(announced.heard + 1)] + [UserMessage(0)]
    ensures !GatedByOwnKeys(spoken)
  {
    NotGated(s.log, s.sent + 1, s.heard + 1, announced.log);
  }

  /**
   * A premature announcement, made when the lock is free and a user thread is idle, always can be followed by user
   * data inside the exchange it opens: the condition of `OrderlyRunsAreGatedByOwnKeys` cannot be weakened.
   */
  lemma PrematureAnnouncementExposes(s: State)
    requires Exposed(s)
    ensures exists steps :: !GatedByOwnKeys(Run(s, steps).log)
  {
    var announced := Run(s, ANNOUNCE);
    var unlocked := Run(announced, OPEN);
    var spoken := Run(unlocked, SPEAK);
    RunAnnounce(s);
    OpenAfterAnnounce(s, announced);
    OpenThenSpeak(announced, unlocked, spoken);
    NotGatedAfter(s, announced, spoken.log);
    Joined(s, ANNOUNCE, OPEN, SPEAK, spoken);
  }

  lemma Joined(s: State, a: seq<Step>, b: seq<Step>, c: seq<Step>, end: State)
    requires Run(Run(Run(s, a), b), c) == end && !GatedByOwnKeys(end.log)
    ensures exists steps :: !GatedByOwnKeys(Run(s, steps).log)
  {
    RunConcat(s, a, b);
    RunConcat(s, a + b, c);
    assert Run(s, a + b + c) == end;
  }

  /** The peer's answer and our NEWKEYS, after which a rekey falls due before the peer's NEWKEYS is in. */
  const ANSWER: seq<Step> := [PeerInit, TransportAcquire, Clear, FinishOutbound, TriggerRekey]

  lemma RunHearPeer(s: State)
    requires s.holder == Nobody && Enabled(s, PeerInit) && s.localInit
    ensures Run(s, [PeerInit, TransportAcquire, Clear]) == s.(clear := false, peerInits := s.peerInits + 1)
  {
    var s1 := Next(s, PeerInit);
    var s2 := Next(s1, TransportAcquire);
    RunThree(s, PeerInit, TransportAcquire, Clear, s1, s2);
  }

  lemma RunFinish(s: State)
    requires Enabled(s, FinishOutbound) && !s.needRekey
    ensures Run(s, [FinishOutbound, TriggerRekey]) ==
            s.(keyed := s.keyed + 1, inKex := false, needRekey := true, log := s.log + [NewKeysSent(s.keyed + 1)])
  {
    RunTwo(s, FinishOutbound, TriggerRekey, Next(s, FinishOutbound));
  }

  lemma RunAnswer(s: State)
    requires s.holder == Nobody && Enabled(s, PeerInit) && s.localInit && !s.needRekey && s.keyed < s.sent
    ensures var s' := Run(s, ANSWER);
            && s'.transport == Running && s'.holder == Nobody && s'.users == s.users && s'.needRekey && !s'.inKex
            && s'.keyed == s.keyed + 1 && s'.heard == s.heard && s'.sent == s.sent
  {
    RunHearPeer(s);
    RunFinish(s.(clear := false, peerInits := s.peerInits + 1));
    RunConcat(s, [PeerInit, TransportAcquire, Clear], [FinishOutbound, TriggerRekey]);
    assert [PeerInit, TransportAcquire, Clear] + [FinishOutbound, TriggerRekey] == ANSWER;
  }

  /** Such a state is reached in the first exchange already: one user thread and one rekey suffice. */
  lemma PrematureAnnouncementHappens()
    ensures exists steps :: Exposed(Run(Start(1), steps))
  {
    var announced := Run(Start(1), ANNOUNCE);
    RunAnnounce(Start(1));
    FirstAnswer(announced, Run(announced, ANSWER));
    RunConcat(Start(1), ANNOUNCE, ANSWER);
  }

  lemma FirstAnswer(announced: State, answered: State)
    requires announced == Start(1).(inKex := true, sent := 1, localInit := true, log := [InitSent(1)])
    requires answered == Run(announced, ANSWER)
    ensures Exposed(answered)
  {
    RunAnswer(announced);
    assert At(announced, 0, Idle);
  }
}
