/**
 * Channel numbers: the counter that hands them out, the map of live channels, and any history of opening and closing.
 */
module ChannelIds {
  import opened Basics

  /** Channel numbers are 24 bits wide. */
  const IDS := 0x100_0000

  /** The number `k` places after `from`, going round. */
  function Ahead(from: nat, k: nat): (id: nat)
    ensures id < IDS
  {
    (from + k) % IDS
  }

  /** `k` places ahead is the first number without a live channel. */
  ghost predicate FirstFree(live: set<nat>, from: nat, k: nat) {
    k < IDS && Ahead(from, k) !in live && forall j :: 0 <= j < k ==> Ahead(from, j) in live
  }

  lemma AheadNext(from: nat, k: nat)
    ensures Ahead(Ahead(from, k), 1) == Ahead(from, k + 1)
  {
  }

  /** Going once round meets every number. */
  lemma RoundMeetsAll(from: nat, id: nat)
    requires from < IDS && id < IDS
    ensures exists k :: 0 <= k < IDS && Ahead(from, k) == id
  {
    var k := if id >= from then id - from else id + IDS - from;
    assert Ahead(from, k) == id;
  }

  /** Fewer than a full round ahead is somewhere else. */
  lemma ShortOfARound(from: nat, k: nat)
    requires from < IDS && 0 < k < IDS
    ensures Ahead(from, k) != from
  {
  }

  class ChannelMap {
    /** The channel object under each number, for as long as it is referenced. */
    var chans: map<nat, nat>

    constructor ()
      ensures chans == map[]
    {
      chans := map[];
    }

    method Get(id: nat) returns (chan: Option<nat>)
      ensures chan == if id in chans then Some(chans[id]) else None
    {
      chan := if id in chans then Some(chans[id]) else None;
    }

    method Put(id: nat, chan: nat)
      modifies this
      ensures chans == old(chans)[id := chan]
    {
      chans := chans[id := chan];
    }

    method Delete(id: nat)
      modifies this
      ensures chans == old(chans) - {id}
    {
      chans := chans - {id};
    }
  }

  // ---- histories ----

  /**
   * A user opens a channel; the peer asks for one, which is then either put into the map or refused; a channel closes,
   * or is collected when nothing refers to it any more.
   */
  datatype Op = Open | Reserve | PutReserved | Refuse | Close(chan: nat) | Collect(chan: nat)

  /**
   * `chans` is the map from numbers to channel objects, `live` the channels put and not yet gone, each with the number
   * it was given, and `objects` the identity of the next channel object.
   */
  datatype Table = Table(counter: nat, reserved: Option<nat>, chans: map<nat, nat>, live: map<nat, nat>, objects: nat)

  const START := Table(0, None, map[], map[], 0)

  /** The distance from `from` to the first free number at least `k` places ahead, going round once. */
  function Distance(chans: map<nat, nat>, from: nat, k: nat): (d: Option<nat>)
    requires k <= IDS
    ensures d.Some? ==> k <= d.value < IDS && Ahead(from, d.value) !in chans
    ensures d.Some? ==> forall j :: k <= j < d.value ==> Ahead(from, j) in chans
    ensures d == None ==> forall j :: k <= j < IDS ==> Ahead(from, j) in chans
    decreases IDS - k
  {
    if k == IDS then None else if Ahead(from, k) in chans then Distance(chans, from, k + 1) else Some(k)
  }

  function Put(s: Table, id: nat): Table {
    s.(chans := s.chans[id := s.objects], live := s.live[s.objects := id], objects := s.objects + 1)
  }

  /** Every number is taken, so the search for one goes round for ever. */
  predicate Stuck(s: Table, op: Op) {
    (op == Open || (op == Reserve && s.reserved == None)) && Distance(s.chans, s.counter, 0) == None
  }

  /** An operation that does not apply leaves everything as it is: one request of the peer is handled at a time. */
  function Next(s: Table, op: Op): Table
    requires !Stuck(s, op)
  {
    match op
    case Open =>
      var d := Distance(s.chans, s.counter, 0).value;
      Put(s.(counter := Ahead(s.counter, d + 1)), Ahead(s.counter, d))
    case Reserve =>
      if s.reserved.Some? then s
      else
        var d := Distance(s.chans, s.counter, 0).value;
        s.(counter := Ahead(s.counter, d + 1), reserved := Some(Ahead(s.counter, d)))
    case PutReserved => if s.reserved == None then s else Put(s, s.reserved.value).(reserved := None)
    case Refuse => s.(reserved := None)
    case Close(c) => if c in s.live then s.(chans := s.chans - {s.live[c]}, live := s.live - {c}) else s
    case Collect(c) =>
      if c in s.live then
        s.(chans := if Found(s, c) then s.chans - {s.live[c]} else s.chans, live := s.live - {c})
      else s
  }

  /** The whole history, as far as it gets before a search goes round for ever. */
  function Run(s: Table, ops: seq<Op>): Table
    decreases |ops|
  {
    if ops == [] || Stuck(s, ops[0]) then s else Run(Next(s, ops[0]), ops[1..])
  }

  /** The channel is in the map under its own number. */
  predicate Found(s: Table, c: nat)
    requires c in s.live
  {
    s.live[c] in s.chans && s.chans[s.live[c]] == c
  }

  /** No two live channels have the same number, numbers are 24 bits wide, and each channel is found under its own. */
  ghost predicate Distinct(s: Table) {
    && (forall c, d :: c in s.live && d in s.live && s.live[c] == s.live[d] ==> c == d)
    && (forall c :: c in s.live ==> s.live[c] < IDS && Found(s, c))
  }

  ghost predicate AlwaysDistinct(s: Table, ops: seq<Op>)
    decreases |ops|
  {
    Distinct(s) && (ops != [] && !Stuck(s, ops[0]) ==> AlwaysDistinct(Next(s, ops[0]), ops[1..]))
  }

  /** The peer's channel is about to be put under a number that another channel has got in the meantime. */
  predicate Clobbers(s: Table, op: Op) {
    op == PutReserved && s.reserved.Some? && s.reserved.value in s.chans
  }

  predicate SomePutClobbers(s: Table, ops: seq<Op>)
    decreases |ops|
  {
    ops != [] && !Stuck(s, ops[0]) && (Clobbers(s, ops[0]) || SomePutClobbers(Next(s, ops[0]), ops[1..]))
  }

  /** What holds of every table, clobbered or not. */
  ghost predicate Sound(s: Table) {
    && s.counter < IDS && (s.reserved.Some? ==> s.reserved.value < IDS)
    && (forall id :: id in s.chans ==> id < IDS && s.chans[id] in s.live && s.live[s.chans[id]] == id)
    && (forall c :: c in s.live ==> c < s.objects && s.live[c] < IDS)
  }

  lemma NextKeepsSound(s: Table, op: Op)
    requires Sound(s) && !Stuck(s, op)
    ensures Sound(Next(s, op))
  {
  }

  lemma PutKeepsDistinct(s: Table, id: nat)
    requires Sound(s) && Distinct(s) && id < IDS
    ensures Distinct(Put(s, id)) <==> id !in s.chans
  {
    if id in s.chans {
      PutShares(s, id);
    } else {
      PutFree(s, id);
    }
  }

  lemma PutShares(s: Table, id: nat)
    requires Sound(s) && id in s.chans
    ensures !Distinct(Put(s, id))
  {
    var s', c := Put(s, id), s.chans[id];
    assert c in s'.live && s'.live[c] == id && !Found(s', c);
  }

  lemma PutFree(s: Table, id: nat)
    requires Sound(s) && Distinct(s) && id < IDS && id !in s.chans
    ensures Distinct(Put(s, id))
  {
    var s' := Put(s, id);
    forall c | c in s'.live
      ensures s'.live[c] < IDS && Found(s', c)
    {
      assert c in s.live ==> Found(s, c) && s.live[c] != id;
    }
    FoundIsDistinct(s');
  }

  /** Channels found under their own numbers cannot share one. */
  lemma FoundIsDistinct(s: Table)
    requires forall c :: c in s.live ==> s.live[c] < IDS && Found(s, c)
    ensures Distinct(s)
  {
    forall c, d | c in s.live && d in s.live && s.live[c] == s.live[d]
      ensures c == d
    {
      assert Found(s, c) && Found(s, d);
    }
  }

  lemma GoingKeepsDistinct(s: Table, c: nat)
    requires Sound(s) && Distinct(s) && c in s.live
    ensures Next(s, Close(c)) == Next(s, Collect(c)) && Distinct(Next(s, Close(c)))
  {
    assert Found(s, c);
    var s' := Next(s, Close(c));
    assert forall d :: d in s'.live ==> Found(s, d) && s.live[d] != s.live[c];
    assert forall d :: d in s'.live ==> Found(s', d);
  }

  lemma SameMaps(s: Table, s': Table)
    requires s'.chans == s.chans && s'.live == s.live
    ensures Distinct(s) <==> Distinct(s')
  {
    assert forall c :: c in s.live ==> Found(s, c) == Found(s', c);
  }

  /** One operation breaks distinctness exactly when it is a put under a number that is in the map. */
  lemma NextKeepsDistinct(s: Table, op: Op)
    requires Sound(s) && Distinct(s) && !Stuck(s, op)
    ensures Distinct(Next(s, op)) <==> !Clobbers(s, op)
  {
    hide Distinct, Sound;
    match op
    case Open =>
      var d := Distance(s.chans, s.counter, 0).value;
      CounterKeeps(s, Ahead(s.counter, d + 1));
      PutKeepsDistinct(s.(counter := Ahead(s.counter, d + 1)), Ahead(s.counter, d));
    case Reserve => SameMaps(s, Next(s, op));
    case PutReserved =>
      if s.reserved.Some? {
        ReservedIsNumber(s);
        PutKeepsDistinct(s, s.reserved.value);
        SameMaps(Put(s, s.reserved.value), Next(s, op));
      }
    case Refuse => SameMaps(s, Next(s, op));
    case Close(c) =>
      if c in s.live {
        GoingKeepsDistinct(s, c);
      }
    case Collect(c) =>
      if c in s.live {
        GoingKeepsDistinct(s, c);
      }
  }

  lemma ReservedIsNumber(s: Table)
    requires Sound(s) && s.reserved.Some?
    ensures s.reserved.value < IDS
  {
  }

  lemma CounterKeeps(s: Table, counter: nat)
    requires Sound(s) && Distinct(s) && counter < IDS
    ensures Sound(s.(counter := counter)) && Distinct(s.(counter := counter))
  {
    SameMaps(s, s.(counter := counter));
  }

  /**
   * Over any history, live channels have distinct numbers at every moment exactly when no put of a peer's channel
   * finds the reserved number in the map, a test that could be made before the put.
   */
  lemma {:induction false} AlwaysDistinctUnlessClobbered(s: Table, ops: seq<Op>)
    requires Sound(s) && Distinct(s)
    ensures AlwaysDistinct(s, ops) <==> !SomePutClobbers(s, ops)
    decreases |ops|
  {
    if ops == [] || Stuck(s, ops[0]) {
    } else {
      NextKeepsSound(s, ops[0]);
      NextKeepsDistinct(s, ops[0]);
      if !Clobbers(s, ops[0]) {
        AlwaysDistinctUnlessClobbered(Next(s, ops[0]), ops[1..]);
      }
    }
  }

  lemma History(ops: seq<Op>)
    ensures AlwaysDistinct(START, ops) <==> !SomePutClobbers(START, ops)
    ensures Reserve !in ops ==> AlwaysDistinct(START, ops)
  {
    AlwaysDistinctUnlessClobbered(START, ops);
    if Reserve !in ops {
      NothingReserved(START, ops);
    }
  }

  /** Opens, closes and collections alone never clobber. */
  lemma {:induction false} NothingReserved(s: Table, ops: seq<Op>)
    requires s.reserved == None && Reserve !in ops
    ensures !SomePutClobbers(s, ops)
    decreases |ops|
  {
    if ops == [] || Stuck(s, ops[0]) {
    } else {
      assert forall op :: op in ops[1..] ==> op in ops;
      assert ops[0] in ops;
      NothingReserved(Next(s, ops[0]), ops[1..]);
    }
  }

  // ---- the objects ----

  class Transport {
    var counter: nat
    const channels: ChannelMap
    /** The number a channel the peer asked for will get, between its allocation and its entry in the map. */
    var reserved: Option<nat>
    var objects: nat
    /** Each channel object in use knows its own number. */
    var live: map<nat, nat>
    /** Numbers passed over or handed out since the reservation. */
    ghost var since: nat

    constructor ()
      ensures Valid() && fresh(channels) && State() == START
    {
      counter, reserved, objects, live, since := 0, None, 0, map[], 0;
      channels := new ChannelMap();
    }

    ghost function State(): Table
      reads this, channels
    {
      Table(counter, reserved, channels.chans, live, objects)
    }

    /** Short of a full round since a reservation, the counter has not come back to the reserved number. */
    ghost predicate Valid()
      reads this, channels
    {
      && Sound(State())
      && (reserved.Some? ==> counter == Ahead(reserved.value, 1 + since))
      && (reserved.Some? && since < IDS ==> reserved.value !in channels.chans)
    }

    /**
     * The next number without a live channel, going round from the counter, which ends just behind it. The loop ends
     * unless every number is taken; a full circle without a free one never would.
     */
    method NextChannel() returns (r: Option<nat>, ghost k: nat)
      requires counter < IDS
      modifies this`counter
      ensures r == None <==> forall id :: 0 <= id < IDS ==> id in channels.chans
      ensures r.Some? ==> FirstFree(channels.chans.Keys, old(counter), k)
      ensures r.Some? ==> r.value == Ahead(old(counter), k) && counter == Ahead(old(counter), k + 1)
      ensures r == None ==> counter == old(counter)
      ensures counter < IDS
    {
      k := 0;
      var chanid := counter;
      var start := counter;
      var chan := channels.Get(chanid);
      while chan != None
        invariant k < IDS && chanid == counter == Ahead(start, k)
        invariant chan == if chanid in channels.chans then Some(channels.chans[chanid]) else None
        invariant forall j :: 0 <= j < k ==> Ahead(start, j) in channels.chans
        decreases IDS - k
      {
        AheadNext(start, k);
        counter := (counter + 1) % IDS;
        chanid := counter;
        k := k + 1;
        if chanid == start {
          CameRound(start, k, channels.chans.Keys);
          return None, k;
        }
        chan := channels.Get(chanid);
      }
      AheadNext(start, k);
      counter := (counter + 1) % IDS;
      r := Some(chanid);
      assert Ahead(start, k) !in channels.chans;
    }

    /**
     * Allocation, keeping track of how far the counter has gone since a reservation. The first allocation to complete
     * a round since then is the one that hands out the reserved number again.
     */
    method Allocate() returns (r: Option<nat>, ghost k: nat)
      requires Valid()
      modifies this`counter, this`since
      ensures Valid()
      ensures r == None <==> Distance(channels.chans, old(counter), 0) == None
      ensures r == None <==> forall id :: 0 <= id < IDS ==> id in channels.chans
      ensures r.Some? ==>
                FirstFree(channels.chans.Keys, old(counter), k) && Distance(channels.chans, old(counter), 0) == Some(k)
      ensures r.Some? ==> r.value == Ahead(old(counter), k) && counter == Ahead(old(counter), k + 1)
      ensures if r == None then counter == old(counter) && since == old(since) else since > old(since)
      ensures reserved.Some? && old(since) < IDS && r.Some? ==> (since >= IDS <==> r == reserved)
    {
      ghost var from := counter;
      r, k := NextChannel();
      SameDistance(channels.chans, from, k, r.Some?);
      if r.Some? {
        if reserved.Some? {
          Round(reserved.value, from, since, k, channels.chans.Keys);
        }
        since := since + k + 1;
      }
    }

    /** A user's channel gets a number no live channel has; nothing else in the map changes. */
    method OpenChannel() returns (r: Option<nat>)
      requires Valid()
      modifies this`counter, this`since, this`objects, this`live, channels
      ensures Valid()
      ensures r == None <==> Stuck(old(State()), Open)
      ensures r == None ==> State() == old(State())
      ensures r.Some? ==> State() == Next(old(State()), Open)
      ensures r.Some? ==> r.value < IDS && r.value !in old(channels.chans) && live == old(live)[old(objects) := r.value]
      ensures reserved.Some? && old(since) < IDS && r.Some? ==> (since >= IDS <==> r == reserved)
    {
      ghost var k;
      r, k := Allocate();
      if r.Some? {
        channels.Put(r.value, objects);
        live := live[objects := r.value];
        objects := objects + 1;
      }
    }

    /** The peer asks for a channel: a number is set aside, and the lock let go, before there is a channel. */
    method ReserveForPeer() returns (ok: bool)
      requires Valid() && reserved == None
      modifies this`counter, this`since, this`reserved
      ensures Valid()
      ensures !ok <==> Stuck(old(State()), Reserve)
      ensures !ok ==> State() == old(State())
      ensures ok ==> State() == Next(old(State()), Reserve) && since == 0 && reserved.value !in channels.chans
    {
      ghost var k, from := 0, counter;
      if !Stuck(State(), Reserve) {
        NextKeepsSound(State(), Reserve);
      }
      reserved, k := Allocate();
      AheadNext(from, k);
      since := 0;
      ok := reserved.Some?;
    }

    /** The peer's channel goes under the reserved number; short of a full round no live channel is replaced. */
    method PutReserved()
      requires Valid() && reserved.Some?
      modifies this`reserved, this`objects, this`live, channels
      ensures Valid() && State() == Next(old(State()), Op.PutReserved)
      ensures Distinct(old(State())) ==> (Distinct(State()) <==> old(reserved.value) !in old(channels.chans))
      ensures since < IDS ==> old(reserved.value) !in old(channels.chans)
    {
      NextKeepsSound(State(), Op.PutReserved);
      if Distinct(State()) {
        NextKeepsDistinct(State(), Op.PutReserved);
      }
      channels.Put(reserved.value, objects);
      live := live[objects := reserved.value];
      objects := objects + 1;
      reserved := None;
    }

    /** The server refuses the peer's request, and the number set aside for it is dropped. */
    method RefusePeer()
      requires Valid() && reserved.Some?
      modifies this`reserved
      ensures Valid() && State() == Next(old(State()), Refuse)
    {
      reserved := None;
    }

    /** A channel that closes is unlinked by its number. */
    method UnlinkChannel(c: nat)
      requires Valid() && c in live
      modifies this`live, channels
      ensures Valid() && State() == Next(old(State()), Close(c))
    {
      NextKeepsSound(State(), Close(c));
      channels.Delete(live[c]);
      live := live - {c};
    }

    /** A channel that nothing refers to any more takes its own entry, and no other, out of the map. */
    method Collected(c: nat)
      requires Valid() && c in live
      modifies this`live, channels
      ensures Valid() && State() == Next(old(State()), Collect(c))
    {
      NextKeepsSound(State(), Collect(c));
      var id := live[c];
      live := live - {c};
      if id in channels.chans && channels.chans[id] == c {
        channels.Delete(id);
      }
    }
  }

  /** A search that went once round met every number. */
  lemma CameRound(start: nat, k: nat, live: set<nat>)
    requires start < IDS && 0 < k <= IDS && Ahead(start, k) == start
    requires forall j :: 0 <= j < k ==> Ahead(start, j) in live
    ensures forall id :: 0 <= id < IDS ==> id in live
  {
    if k < IDS {
      ShortOfARound(start, k);
    }
    forall id | 0 <= id < IDS
      ensures id in live
    {
      RoundMeetsAll(start, id);
    }
  }

  lemma SameDistance(chans: map<nat, nat>, from: nat, k: nat, found: bool)
    requires from < IDS && (found ==> FirstFree(chans.Keys, from, k))
    requires !found ==> forall id :: 0 <= id < IDS ==> id in chans
    ensures Distance(chans, from, 0) == if found then Some(k) else None
  {
    var d := Distance(chans, from, 0);
    if found && d.Some? {
      assert Ahead(from, k) !in chans && Ahead(from, d.value) !in chans;
    }
  }

  lemma AheadAdds(id: nat, a: nat, b: nat)
    ensures Ahead(Ahead(id, a), b) == Ahead(id, a + b)
  {
  }

  lemma FullRound(id: nat)
    requires id < IDS
    ensures Ahead(id, IDS) == id
  {
  }

  lemma Round(id: nat, from: nat, since: nat, k: nat, live: set<nat>)
    requires id < IDS && from == Ahead(id, 1 + since) && FirstFree(live, from, k)
    ensures Ahead(from, k) == Ahead(id, since + k + 1) && Ahead(from, k + 1) == Ahead(id, 1 + (since + k + 1))
    ensures since < IDS && id !in live ==> since + k + 1 <= IDS && (Ahead(from, k) == id <==> since + k + 1 == IDS)
  {
    AheadAdds(id, 1 + since, k);
    AheadAdds(id, 1 + since, k + 1);
    hide Ahead;
    if since < IDS {
      AheadAdds(id, 1 + since, IDS - since - 1);
      FullRound(id);
      if since + k + 1 < IDS {
        ShortOfARound(id, since + k + 1);
      }
    }
  }

  /** The objects take exactly the steps of the history, of which the history's theorem then holds. */
  method Replay(ops: seq<Op>) returns (t: Transport)
    ensures fresh(t) && fresh(t.channels) && t.Valid() && t.State() == Run(START, ops)
  {
    t := new Transport();
    var done := 0;
    while done < |ops|
      invariant done <= |ops| && t.Valid() && fresh(t) && fresh(t.channels)
      invariant Run(START, ops) == Run(t.State(), ops[done..])
    {
      assert ops[done..][0] == ops[done] && ops[done..][1..] == ops[done + 1..];
      var goesOn := Do(t, ops[done]);
      if !goesOn {
        return;
      }
      done := done + 1;
    }
  }

  method Do(t: Transport, op: Op) returns (goesOn: bool)
    requires t.Valid()
    modifies t, t.channels
    ensures t.Valid() && goesOn == !Stuck(old(t.State()), op)
    ensures t.State() == if goesOn then Next(old(t.State()), op) else old(t.State())
  {
    goesOn := true;
    match op
    case Open =>
      var r := t.OpenChannel();
      goesOn := r.Some?;
    case Reserve =>
      if t.reserved == None {
        goesOn := t.ReserveForPeer();
      }
    case PutReserved =>
      if t.reserved.Some? {
        t.PutReserved();
      }
    case Refuse =>
      if t.reserved.Some? {
        t.RefusePeer();
      }
    case Close(c) =>
      if c in t.live {
        t.UnlinkChannel(c);
      }
    case Collect(c) =>
      if c in t.live {
        t.Collected(c);
      }
  }

  /**
   * The condition is needed: when 2^24 channels come and go while the peer's request is being answered, the reserved
   * number is handed out again, and putting the peer's channel under it takes the number of a live one.
   */
  lemma Lap() returns (ops: seq<Op>)
    ensures SomePutClobbers(START, ops) && !AlwaysDistinct(START, ops)
  {
    ops := [Reserve] + ComeAndGo(0);
    assert ops[1..] == ComeAndGo(0);
    var s := Next(START, Reserve);
    assert Distance(START.chans, 0, 0) == Some(0);
    assert s == Waiting(0);
    LapFrom(0);
    History(ops);
  }

  /** From the `j`th channel on: all but one number go by with a channel each, and then the reserved one. */
  function ComeAndGo(j: nat): seq<Op>
    requires j < IDS
    decreases IDS - j
  {
    if j == IDS - 1 then [Open, PutReserved] else [Open, Close(j)] + ComeAndGo(j + 1)
  }

  /** Number 0 is reserved, and `j` channels have come and gone since. */
  function Waiting(j: nat): Table {
    Table(Ahead(0, j + 1), Some(0), map[], map[], j)
  }

  lemma OneOpens(j: nat)
    requires j < IDS
    ensures !Stuck(Waiting(j), Open)
    ensures Next(Waiting(j), Open)
            == Table(Ahead(0, j + 2), Some(0), map[Ahead(0, j + 1) := j], map[j := Ahead(0, j + 1)], j + 1)
  {
    var s := Waiting(j);
    assert Ahead(s.counter, 0) !in s.chans && Distance(s.chans, s.counter, 0) == Some(0);
    AheadNext(0, j + 1);
  }

  lemma ClobbersLater(s: Table, op: Op, rest: seq<Op>)
    requires !Stuck(s, op) && (Clobbers(s, op) || SomePutClobbers(Next(s, op), rest))
    ensures SomePutClobbers(s, [op] + rest)
  {
    assert ([op] + rest)[0] == op && ([op] + rest)[1..] == rest;
  }

  /** The channel opened last goes again. */
  lemma OneCloses(j: nat)
    requires j < IDS - 1
    ensures Next(Table(Ahead(0, j + 2), Some(0), map[Ahead(0, j + 1) := j], map[j := Ahead(0, j + 1)], j + 1), Close(j))
            == Waiting(j + 1)
  {
  }

  lemma {:induction false} LapFrom(j: nat)
    requires j < IDS
    ensures SomePutClobbers(Waiting(j), ComeAndGo(j))
    decreases IDS - j
  {
    hide Distance, SomePutClobbers, Next, Waiting;
    OneOpens(j);
    var s := Next(Waiting(j), Open);
    if j == IDS - 1 {
      ClobbersLater(s, PutReserved, []);
      assert [PutReserved] + [] == [PutReserved];
      ClobbersLater(Waiting(j), Open, [PutReserved]);
      assert [Open] + [PutReserved] == [Open, PutReserved];
    } else {
      OneCloses(j);
      LapFrom(j + 1);
      ClobbersLater(s, Close(j), ComeAndGo(j + 1));
      ClobbersLater(Waiting(j), Open, [Close(j)] + ComeAndGo(j + 1));
      assert [Open] + ([Close(j)] + ComeAndGo(j + 1)) == [Open, Close(j)] + ComeAndGo(j + 1);
    }
  }
}
