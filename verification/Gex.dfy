/** Group exchange: the client asks for a range of sizes, the server picks the group, and both hash the whole of it. */
module Gex {
  import opened Bytes
  import opened Messages
  import opened Drawing
  import opened Moduli
  import ModArith

  const MSG_GROUP: byte := 31
  const MSG_INIT: byte := 32
  const MSG_REQUEST: byte := 34

  datatype Limits = Limits(min: int, preferred: int, max: int)

  const DEFAULT_LIMITS := Limits(1024, 2048, 8192)

  datatype Fault = NoModuli | GroupOutOfRange | ValueOutOfRange | NotPackable

  datatype Outcome = Fine | Failed(f: Fault) | Hangs

  predicate Sendable(l: Limits) {
    0 <= l.min < WORD && 0 <= l.preferred < WORD && 0 <= l.max < WORD
  }

  function LimitFields(l: Limits): seq<Field> {
    [Int(l.min), Int(l.preferred), Int(l.max)]
  }

  /** A request pulled into the server's own limits, then made consistent. */
  function Normalised(own: Limits, asked: Limits): Limits {
    var high := if asked.preferred > own.max then own.max else asked.preferred;
    var preferred := if high < own.min then own.min else high;
    Limits(if asked.min > preferred then preferred else asked.min,
           preferred,
           if asked.max < preferred then preferred else asked.max)
  }

  function Distance(a: int, b: int): (d: nat)
    ensures a + d == b || b + d == a
  {
    if a < b then b - a else a - b
  }

  /** `n` is the value between `own.min` and `own.max` that is nearest to what was asked for. */
  ghost predicate NearestWithin(own: Limits, asked: int, n: int) {
    && own.min <= n <= own.max
    && forall b :: own.min <= b <= own.max ==> Distance(n, asked) <= Distance(b, asked)
  }

  /** The preferred size is the nearest that the server serves, and the limits give way to it where they exclude it. */
  ghost predicate Served(own: Limits, asked: Limits, l: Limits) {
    && NearestWithin(own, asked.preferred, l.preferred)
    && l.min == (if asked.min <= l.preferred then asked.min else l.preferred)
    && l.max == (if asked.max >= l.preferred then asked.max else l.preferred)
  }

  lemma NormalisedIsServed(own: Limits, asked: Limits)
    requires own.min <= own.max
    ensures Served(own, asked, Normalised(own, asked))
  {
  }

  /** There is only one such answer. */
  lemma ServedIsUnique(own: Limits, asked: Limits, l: Limits)
    requires own.min <= own.max && Served(own, asked, l)
    ensures l == Normalised(own, asked)
  {
    var m := Normalised(own, asked);
    NormalisedIsServed(own, asked);
    assert Distance(m.preferred, asked.preferred) == Distance(l.preferred, asked.preferred);
  }

  /**
   * The transcript: what precedes the limits (versions, announcements, host key), the limits unless the old request
   * was used, the group, both public values and the secret.
   */
  function Transcript(before: seq<Field>, oldStyle: bool, l: Limits, p: int, g: int, e: int, f: int,
                      k: int): seq<Field>
  {
    before + (if oldStyle then [Int(l.preferred)] else LimitFields(l))
        + [Mpint(p), Mpint(g), Mpint(e), Mpint(f), Mpint(k)]
  }

  /** The order of section 3 of RFC 4419: the limits, the group, both public values and the secret. */
  ghost predicate Covers(fields: seq<Field>, before: seq<Field>, l: Limits, p: int, g: int, e: int, f: int, k: int) {
    fields == before + [Int(l.min), Int(l.preferred), Int(l.max), Mpint(p), Mpint(g), Mpint(e), Mpint(f), Mpint(k)]
  }

  lemma TranscriptCovers(before: seq<Field>, l: Limits, p: int, g: int, e: int, f: int, k: int)
    ensures Covers(Transcript(before, false, l, p, g, e, f, k), before, l, p, g, e, f, k)
    ensures Transcript(before, true, l, p, g, e, f, k)
            == before + [Int(l.preferred), Mpint(p), Mpint(g), Mpint(e), Mpint(f), Mpint(k)]
  {
    assert LimitFields(l) == [Int(l.min), Int(l.preferred), Int(l.max)];
  }

  /** Transcripts of the same shape have the same bytes only if they are equal field by field. */
  lemma BytesTellFields(a: seq<Field>, b: seq<Field>)
    requires AllPackable(a) && AllPackable(b) && Kinds(a) == Kinds(b)
    requires forall f :: f in a + b ==> Separable(f)
    ensures WireAll(a) == WireAll(b) <==> a == b
  {
    assert forall f :: f in a ==> f in a + b;
    assert forall f :: f in b ==> f in a + b;
    RoundTrip(a, []);
    RoundTrip(b, []);
  }

  /** The request survives the server's normalisation exactly when it was consistent and within the server's limits. */
  lemma UnchangedIffConsistent(own: Limits, asked: Limits)
    requires own.min <= own.max
    ensures Normalised(own, asked) == asked <==>
              asked.min <= asked.preferred <= asked.max && own.min <= asked.preferred <= own.max
  {
  }

  /** What the server works with is consistent whatever was asked for. */
  lemma NormalisedIsConsistent(own: Limits, asked: Limits)
    requires own.min <= own.max
    ensures var l := Normalised(own, asked);
            && l.min <= l.preferred <= l.max && own.min <= l.preferred <= own.max
            && (l.min == asked.min || l.min == l.preferred) && (l.max == asked.max || l.max == l.preferred)
            && Normalised(own, l) == l
  {
  }

  /**
   * The client hashes what it asked for and the server what it made of it, so the hashed bytes are the same exactly
   * when the request was consistent and its preferred size within the server's limits.
   */
  lemma HashedBytesAgreeIffConsistent(before: seq<Field>, own: Limits, asked: Limits, p: int, g: int, e: int, f: int,
                                      k: int)
    requires own.min <= own.max && Sendable(own) && Sendable(asked) && forall x :: x in before ==> x.Str?
    requires AllPackable(Transcript(before, false, asked, p, g, e, f, k))
    ensures AllPackable(Transcript(before, false, Normalised(own, asked), p, g, e, f, k))
    ensures WireAll(Transcript(before, false, asked, p, g, e, f, k)) ==
            WireAll(Transcript(before, false, Normalised(own, asked), p, g, e, f, k)) <==>
            asked.min <= asked.preferred <= asked.max && own.min <= asked.preferred <= own.max
  {
    var l := Normalised(own, asked);
    var a, b := Transcript(before, false, asked, p, g, e, f, k), Transcript(before, false, l, p, g, e, f, k);
    NormalisedPackable(before, own, asked, p, g, e, f, k);
    SameShape(before, asked, l, p, g, e, f, k);
    BytesTellFields(a, b);
    UnchangedIffConsistent(own, asked);
    LimitsAreInTranscript(before, asked, l, p, g, e, f, k);
  }

  /**
   * A client that wants at least 3000 bits and would like 2048: the server takes 2048 for the least, and hashes that.
   */
  lemma InconsistentRequestSplitsHashes(p: int, g: int, e: int, f: int, k: int)
    requires AllPackable([Mpint(p), Mpint(g), Mpint(e), Mpint(f), Mpint(k)])
    ensures var asked := Limits(3000, 2048, 8192); var l := Normalised(DEFAULT_LIMITS, asked);
            && l == Limits(2048, 2048, 8192)
            && AllPackable(Transcript([], false, asked, p, g, e, f, k))
            && AllPackable(Transcript([], false, l, p, g, e, f, k))
            && WireAll(Transcript([], false, asked, p, g, e, f, k)) != WireAll(Transcript([], false, l, p, g, e, f, k))
  {
    var asked, numbers := Limits(3000, 2048, 8192), [Mpint(p), Mpint(g), Mpint(e), Mpint(f), Mpint(k)];
    assert forall x :: x in Transcript([], false, asked, p, g, e, f, k) ==> x in LimitFields(asked) || x in numbers;
    HashedBytesAgreeIffConsistent([], DEFAULT_LIMITS, asked, p, g, e, f, k);
  }

  lemma NormalisedPackable(before: seq<Field>, own: Limits, asked: Limits, p: int, g: int, e: int, f: int, k: int)
    requires Sendable(own) && Sendable(asked) && AllPackable(Transcript(before, false, asked, p, g, e, f, k))
    ensures AllPackable(Transcript(before, false, Normalised(own, asked), p, g, e, f, k))
  {
    var a, b := Transcript(before, false, asked, p, g, e, f, k),
        Transcript(before, false, Normalised(own, asked), p, g, e, f, k);
    var n := |before|;
    forall x | x in b
      ensures Packable(x)
    {
      var i :| 0 <= i < |b| && b[i] == x;
      assert n <= i < n + 3 || a[i] == b[i];
      assert a[i] in a;
    }
  }

  lemma SameShape(before: seq<Field>, a: Limits, b: Limits, p: int, g: int, e: int, f: int, k: int)
    requires forall x :: x in before ==> x.Str?
    ensures Kinds(Transcript(before, false, a, p, g, e, f, k)) == Kinds(Transcript(before, false, b, p, g, e, f, k))
    ensures var s, t := Transcript(before, false, a, p, g, e, f, k), Transcript(before, false, b, p, g, e, f, k);
            forall x :: x in s + t ==> Separable(x)
  {
    var s, t := Transcript(before, false, a, p, g, e, f, k), Transcript(before, false, b, p, g, e, f, k);
    forall i | 0 <= i < |s|
      ensures KindOf(s[i]) == KindOf(t[i])
    {
    }
  }

  lemma LimitsAreInTranscript(before: seq<Field>, a: Limits, b: Limits, p: int, g: int, e: int, f: int, k: int)
    ensures Transcript(before, false, a, p, g, e, f, k) == Transcript(before, false, b, p, g, e, f, k) <==> a == b
  {
    var s, t, n := Transcript(before, false, a, p, g, e, f, k), Transcript(before, false, b, p, g, e, f, k), |before|;
    assert s[n] == Int(a.min) && s[n + 1] == Int(a.preferred) && s[n + 2] == Int(a.max);
    assert t[n] == Int(b.min) && t[n + 1] == Int(b.preferred) && t[n + 2] == Int(b.max);
  }

  /** The group that is rolled for a range among those of the pack. */
  ghost predicate Offered(pack: map<nat, seq<(int, int)>>, sizes: seq<nat>, l: Limits, rolls: seq<bytes>, g: int,
                          p: int)
  {
    Stocked(pack, sizes, l.min, l.preferred, l.max, rolls, g, p)
  }

  /** Rolling for a group of the chosen size does not end. */
  ghost predicate RollsOn(pack: map<nat, seq<(int, int)>>, sizes: seq<nat>, l: Limits, rolls: seq<bytes>) {
    NeverRolls(pack, sizes, l.min, l.preferred, l.max, rolls)
  }

  /** What an end that draws its exponent from `draws` sends. */
  function PublicValue(g: int, p: int, draws: seq<bytes>): int
    requires ExponentDraw(p, draws).Drawn?
  {
    ModArith.ModPow(g, ExponentDraw(p, draws).x, p)
  }

  predicate ZeroValue(g: int, p: int, draws: seq<bytes>) {
    ExponentDraw(p, draws).Drawn? && PublicValue(g, p, draws) == 0
  }

  class KexGex {
    var limits: Limits
    var oldStyle: bool
    var p: int
    var g: int
    var x: int
    var e: int
    var f: int

    constructor ()
      ensures limits == DEFAULT_LIMITS && !oldStyle
    {
      limits, oldStyle := DEFAULT_LIMITS, false;
      p, g, x, e, f := 0, 0, 0, 0, 0;
    }

    /** Client: the range asked for. */
    method StartKex() returns (packet: bytes)
      requires Sendable(limits)
      ensures packet == [MSG_REQUEST] + WireAll(LimitFields(limits))
    {
      var m := new Message([]);
      m.AddBytes([MSG_REQUEST]);
      assert m.packet == [MSG_REQUEST];
      var ok := m.AddAll(LimitFields(limits));
      packet := m.packet;
    }

    /** The group message, once a modulus is picked. */
    method SendGroup(pick: Pick) returns (r: Outcome, packet: bytes)
      modifies this`p, this`g
      ensures pick.Picked? ==> p == pick.modulus && g == pick.generator
      ensures r == (if pick == Empty then Failed(NoModuli)
                    else if pick == StillRolling then Hangs
                    else if AllPackable([Mpint(p), Mpint(g)]) then Fine
                    else Failed(NotPackable))
      ensures r == Fine ==> packet == [MSG_GROUP] + WireAll([Mpint(p), Mpint(g)])
    {
      packet := [];
      match pick {
        case Empty => r := Failed(NoModuli);
        case StillRolling => r := Hangs;
        case Picked(generator, modulus, _) =>
          p, g := modulus, generator;
          var m := new Message([]);
          m.AddBytes([MSG_GROUP]);
          assert m.packet == [MSG_GROUP];
          var ok := m.AddAll([Mpint(p), Mpint(g)]);
          packet := m.packet;
          r := if ok then Fine else Failed(NotPackable);
      }
    }

    /** Server: the request is pulled into our limits and a group of a fitting size is sent. */
    method ParseRequest(m: Message, pack: ModulusPack, sizes: seq<nat>, rolls: seq<bytes>)
      returns (r: Outcome, packet: bytes)
      requires m.Valid() && pack.Valid() && Ascending(sizes) && forall b :: b in sizes <==> b in pack.pack
      modifies this`limits, this`p, this`g, m`pos
      ensures var asked := ReadAll([IntKind, IntKind, IntKind], old(m.Remainder())).0;
              && LimitsIn(asked) && limits == Normalised(old(limits), Limits(asked[0].n, asked[1].n, asked[2].n))
              && (old(limits.min <= limits.max) ==>
                    Served(old(limits), Limits(asked[0].n, asked[1].n, asked[2].n), limits))
      ensures r == Failed(NoModuli) <==> pack.pack == map[]
      ensures r == Fine || r == Failed(NoModuli) || r == Failed(NotPackable) || r == Hangs
      ensures r == Fine || r == Failed(NotPackable) ==> Offered(pack.pack, sizes, limits, rolls, g, p)
      ensures r == Hangs ==> RollsOn(pack.pack, sizes, limits, rolls)
      ensures r == Failed(NotPackable) ==> !AllPackable([Mpint(p), Mpint(g)])
      ensures r == Hangs ==> exists b :: b in pack.pack && !FirstBelow(|pack.pack[b]|, rolls).Drawn?
      ensures r == Fine ==> Chosen(sizes, limits.min, limits.preferred, limits.max, BitLength(p))
      ensures r == Fine ==> AllPackable([Mpint(p), Mpint(g)]) && packet == [MSG_GROUP] + WireAll([Mpint(p), Mpint(g)])
    {
      ThreeInts(m.packet[m.pos..]);
      var asked := m.GetAll([IntKind, IntKind, IntKind]);
      var minBits, preferredBits, maxBits := asked[0].n, asked[1].n, asked[2].n;
      if preferredBits > limits.max {
        preferredBits := limits.max;
      }
      if preferredBits < limits.min {
        preferredBits := limits.min;
      }
      if minBits > preferredBits {
        minBits := preferredBits;
      }
      if maxBits < preferredBits {
        maxBits := preferredBits;
      }
      if limits.min <= limits.max {
        NormalisedIsServed(limits, Limits(asked[0].n, asked[1].n, asked[2].n));
      }
      limits := Limits(minBits, preferredBits, maxBits);
      var pick := pack.GetModulus(sizes, minBits, preferredBits, maxBits, rolls);
      r, packet := SendGroup(pick);
    }

    /** Takes a preferred size, pulled into our limits. */
    method Prefer(n: int)
      modifies this`limits
      ensures limits == old(limits).(preferred := Normalised(old(limits), Limits(0, n, 0)).preferred)
      ensures limits.min <= limits.max ==> NearestWithin(old(limits), n, limits.preferred)
    {
      limits := limits.(preferred := n);
      if limits.preferred > limits.max {
        limits := limits.(preferred := limits.max);
      }
      if limits.preferred < limits.min {
        limits := limits.(preferred := limits.min);
      }
    }

    /** Server: the request of older clients, which names a preferred size only; our own limits stay. */
    method ParseRequestOld(m: Message, pack: ModulusPack, sizes: seq<nat>, rolls: seq<bytes>)
      returns (r: Outcome, packet: bytes)
      requires m.Valid() && pack.Valid() && Ascending(sizes) && forall b :: b in sizes <==> b in pack.pack
      modifies this`limits, this`oldStyle, this`p, this`g, m`pos
      ensures var n := ReadInt(old(m.Remainder())).0;
              && limits == old(limits).(preferred := Normalised(old(limits), Limits(0, n, 0)).preferred)
              && (limits.min <= limits.max ==> NearestWithin(old(limits), n, limits.preferred))
      ensures r == Failed(NoModuli) <==> pack.pack == map[]
      ensures r == Fine || r == Failed(NoModuli) || r == Failed(NotPackable) || r == Hangs
      ensures r == Fine || r == Failed(NotPackable) ==> Offered(pack.pack, sizes, limits, rolls, g, p)
      ensures r == Hangs ==> RollsOn(pack.pack, sizes, limits, rolls)
      ensures r == Failed(NotPackable) ==> !AllPackable([Mpint(p), Mpint(g)])
      ensures r == Fine ==> oldStyle && Chosen(sizes, limits.min, limits.preferred, limits.max, BitLength(p))
      ensures r == Fine ==> AllPackable([Mpint(p), Mpint(g)]) && packet == [MSG_GROUP] + WireAll([Mpint(p), Mpint(g)])
    {
      hide Chosen, WireAll, ReadInt, Normalised, Packable, Wire;
      var n := m.GetInt();
      Prefer(n);
      var pick := pack.GetModulus(sizes, limits.min, limits.preferred, limits.max, rolls);
      r, packet := SendGroup(pick);
      oldStyle := r == Fine;
    }

    /** Client: a group outside 1024 to 8192 bits is refused, else our public value is sent. */
    method ParseGroup(m: Message, draws: seq<bytes>) returns (r: Outcome, packet: bytes)
      requires m.Valid()
      modifies this`p, this`g, this`x, this`e, m`pos
      ensures [Mpint(p), Mpint(g)] == ReadAll([MpintKind, MpintKind], old(m.Remainder())).0
      ensures r == Failed(GroupOutOfRange) <==> !(1024 <= BitLength(p) <= 8192)
      ensures r == Hangs || r == Fine || r == Failed(GroupOutOfRange) || r == Failed(NotPackable)
      ensures r == Failed(NotPackable) ==>
                ExponentDraw(p, draws).Drawn? && e == PublicValue(g, p, draws) && !Packable(Mpint(e))
      ensures 1024 <= BitLength(p) <= 8192 ==> (r == Hangs <==> !ExponentDraw(p, draws).Drawn?)
      ensures r == Fine ==> x == ExponentDraw(p, draws).x && 1 < x < Half(p) && e == ModArith.ModPow(g, x, p)
      ensures r == Fine ==> Packable(Mpint(e)) && packet == [MSG_INIT] + WireAll([Mpint(e)])
    {
      TwoMpints(m.packet[m.pos..]);
      var fields := m.GetAll([MpintKind, MpintKind]);
      p, g := fields[0].n, fields[1].n;
      packet := [];
      var bits := BitLength(p);
      if bits < 1024 || bits > 8192 {
        return Failed(GroupOutOfRange), [];
      }
      var drawn := GenerateX(p, draws);
      if !drawn.Drawn? {
        return Hangs, [];
      }
      x := drawn.x;
      e := ModArith.ModPow(g, x, p);
      r, packet := SendInit();
    }

    method SendInit() returns (r: Outcome, packet: bytes)
      ensures r == if Packable(Mpint(e)) then Fine else Failed(NotPackable)
      ensures r == Fine ==> packet == [MSG_INIT] + WireAll([Mpint(e)])
    {
      var m := new Message([]);
      m.AddBytes([MSG_INIT]);
      assert m.packet == [MSG_INIT];
      assert Mpint(e) in [Mpint(e)];
      var ok := m.AddAll([Mpint(e)]);
      packet := m.packet;
      r := if ok then Fine else Failed(NotPackable);
    }

    /** Server: from the client's public value to the secret and the transcript. */
    method ParseInit(m: Message, draws: seq<bytes>, before: seq<Field>) returns (r: Outcome, k: int, fields: seq<Field>)
      requires m.Valid()
      modifies this`x, this`e, this`f, m`pos
      ensures Mpint(e) == ReadField(MpintKind, old(m.Remainder())).0
      ensures r == Failed(ValueOutOfRange) <==> !(1 <= e <= p - 1)
      ensures r == Fine || r == Failed(ValueOutOfRange) || r == Hangs
      ensures 1 <= e <= p - 1 ==> (r == Fine <==> ExponentDraw(p, draws).Drawn?)
      ensures r == Fine ==> x == ExponentDraw(p, draws).x && 1 < x < Half(p)
      ensures r == Fine ==> f == ModArith.ModPow(g, x, p) && k == ModArith.ModPow(e, x, p)
      ensures r == Fine ==> fields == Transcript(before, oldStyle, limits, p, g, e, f, k)
    {
      k, fields := 0, [];
      e := m.GetMpint();
      if e < 1 || e > p - 1 {
        return Failed(ValueOutOfRange), 0, [];
      }
      var drawn := GenerateX(p, draws);
      if !drawn.Drawn? {
        return Hangs, 0, [];
      }
      x := drawn.x;
      f := ModArith.ModPow(g, x, p);
      k := ModArith.ModPow(e, x, p);
      fields := Transcript(before, oldStyle, limits, p, g, e, f, k);
      r := Fine;
    }

    /** Client: from the server's public value, read off its reply, to the secret and the transcript. */
    method ParseReply(f: int, before: seq<Field>) returns (r: Outcome, k: int, fields: seq<Field>)
      requires 1 < x < Half(p)
      modifies this`f
      ensures this.f == f
      ensures r == if 1 <= f <= p - 1 then Fine else Failed(ValueOutOfRange)
      ensures r == Fine ==> k == ModArith.ModPow(f, x, p)
      ensures r == Fine ==> fields == Transcript(before, oldStyle, limits, p, g, e, f, k)
    {
      this.f := f;
      if f < 1 || f > p - 1 {
        return Failed(ValueOutOfRange), 0, [];
      }
      k := ModArith.ModPow(f, x, p);
      fields := Transcript(before, oldStyle, limits, p, g, e, f, k);
      r := Fine;
    }
  }

  predicate LimitsIn(fs: seq<Field>) {
    |fs| == 3 && fs[0].Int? && fs[1].Int? && fs[2].Int?
  }

  lemma ThreeInts(r: bytes)
    ensures LimitsIn(ReadAll([IntKind, IntKind, IntKind], r).0)
  {
    var r1 := ReadField(IntKind, r).1;
    var r2 := ReadField(IntKind, r1).1;
    assert [IntKind, IntKind, IntKind][1..] == [IntKind, IntKind] && [IntKind, IntKind][1..] == [IntKind]
        && [IntKind][1..] == [];
    assert ReadAll([IntKind], r2).0 == [ReadField(IntKind, r2).0] + [];
    assert ReadAll([IntKind, IntKind], r1).0 == [ReadField(IntKind, r1).0] + ReadAll([IntKind], r2).0;
  }

  lemma TwoMpints(r: bytes)
    ensures var fs := ReadAll([MpintKind, MpintKind], r).0;
            |fs| == 2 && fs[0].Mpint? && fs[1].Mpint?
  {
    var r1 := ReadField(MpintKind, r).1;
    assert [MpintKind, MpintKind][1..] == [MpintKind] && [MpintKind][1..] == [];
    assert ReadAll([MpintKind], r1).0 == [ReadField(MpintKind, r1).0] + [];
  }

  // ---- both ends ----

  datatype Result = Complete(secret: int, clientHashed: seq<Field>, serverHashed: seq<Field>) | Incomplete(why: Outcome)

  /** Why both ends do not come to a group and a public value, told from what they are given. */
  ghost predicate NoAgreement(why: Outcome, pack: map<nat, seq<(int, int)>>, sizes: seq<nat>, l: Limits,
                              rolls: seq<bytes>, draws: seq<bytes>, g: int, p: int)
  {
    match why
    case Fine => false
    case Failed(NoModuli) => pack == map[]
    case Failed(GroupOutOfRange) => Offered(pack, sizes, l, rolls, g, p) && !(1024 <= BitLength(p) <= 8192)
    case Failed(NotPackable) =>
      && Offered(pack, sizes, l, rolls, g, p)
      && (!AllPackable([Mpint(p), Mpint(g)])
          || (ExponentDraw(p, draws).Drawn? && !Packable(Mpint(PublicValue(g, p, draws)))))
    case Failed(ValueOutOfRange) => false
    case Hangs =>
      RollsOn(pack, sizes, l, rolls) || (Offered(pack, sizes, l, rolls, g, p) && !ExponentDraw(p, draws).Drawn?)
  }

  /** The request and the group: both ends hold the same group, picked for the request as the server normalised it. */
  method AgreeOnGroup(c: KexGex, s: KexGex, pack: ModulusPack, sizes: seq<nat>, rolls: seq<bytes>, draws: seq<bytes>)
    returns (r: Outcome, packet: bytes)
    requires c != s && Sendable(c.limits)
    requires pack.Valid() && Ascending(sizes) && forall b :: b in sizes <==> b in pack.pack
    modifies c`p, c`g, c`x, c`e, s`limits, s`p, s`g
    ensures s.limits == Normalised(old(s.limits), c.limits)
    ensures r == Failed(NoModuli) <==> pack.pack == map[]
    ensures r != Fine ==> NoAgreement(r, pack.pack, sizes, s.limits, rolls, draws, s.g, s.p)
    ensures r == Fine ==>
              && c.p == s.p && c.g == s.g && Offered(pack.pack, sizes, s.limits, rolls, c.g, c.p)
              && ExponentDraw(c.p, draws).Drawn? && c.x == ExponentDraw(c.p, draws).x
              && 1 < c.x < Half(c.p) && c.e == ModArith.ModPow(c.g, c.x, c.p)
    ensures r == Fine ==> 1024 <= BitLength(c.p) <= 8192
    ensures r == Fine ==> Chosen(sizes, s.limits.min, s.limits.preferred, s.limits.max, BitLength(c.p))
    ensures r == Fine ==> AllPackable([Mpint(s.p), Mpint(s.g)])
    ensures r == Fine ==> Packable(Mpint(c.e)) && packet == [MSG_INIT] + WireAll([Mpint(c.e)])
  {
    hide Chosen, ReadAll, Normalised, Offered, RollsOn;
    var request := c.StartKex();
    var m := new Message(request[1..]);
    assert m.Remainder() == m.packet;
    ReadPacket(MSG_REQUEST, LimitFields(c.limits), [IntKind, IntKind, IntKind]);
    r, packet := s.ParseRequest(m, pack, sizes, rolls);
    if r != Fine {
      return;
    }
    var m2 := new Message(packet[1..]);
    assert m2.Remainder() == m2.packet;
    ReadPacket(MSG_GROUP, [Mpint(s.p), Mpint(s.g)], [MpintKind, MpintKind]);
    r, packet := c.ParseGroup(m2, draws);
    assert [Mpint(c.p), Mpint(c.g)] == [Mpint(s.p), Mpint(s.g)];
  }

  /** From the client's public value to both secrets. */
  method TradeValues(c: KexGex, s: KexGex, packet: bytes, draws: seq<bytes>, before: seq<Field>) returns (r: Result)
    requires c != s && c.p == s.p && c.g == s.g && 1 < c.x < Half(c.p) && c.e == ModArith.ModPow(c.g, c.x, c.p)
    requires Packable(Mpint(c.e)) && packet == [MSG_INIT] + WireAll([Mpint(c.e)])
    modifies c`f, s`x, s`e, s`f
    ensures r.Incomplete? ==> r.why == Failed(ValueOutOfRange) || r.why == Hangs
    ensures r == Incomplete(Failed(ValueOutOfRange)) ==> c.e == 0 || ZeroValue(c.g, c.p, draws)
    ensures r == Incomplete(Hangs) ==> !ExponentDraw(s.p, draws).Drawn?
    ensures r.Complete? ==>
              && c.e != 0 && ExponentDraw(c.p, draws).Drawn? && s.x == ExponentDraw(c.p, draws).x && c.f != 0
              && 1 < s.x < Half(s.p) && r.secret == ModArith.ModPow(ModArith.ModPow(c.g, s.x, c.p), c.x, c.p)
              && c.f == ModArith.ModPow(c.g, s.x, c.p)
              && r.clientHashed == Transcript(before, c.oldStyle, c.limits, c.p, c.g, c.e, c.f, r.secret)
              && r.serverHashed == Transcript(before, s.oldStyle, s.limits, c.p, c.g, c.e, c.f, r.secret)
  {
    var m := new Message(packet[1..]);
    assert m.Remainder() == m.packet;
    assert Kinds([Mpint(c.e)]) == [MpintKind];
    ReadPacket(MSG_INIT, [Mpint(c.e)], [MpintKind]);
    OneField(MpintKind, m.packet);
    var o, secret, serverFields := s.ParseInit(m, draws, before);
    if o != Fine {
      return Incomplete(o);
    }
    assert s.e == c.e;
    var o2, k, clientFields := c.ParseReply(s.f, before);
    if o2 != Fine {
      return Incomplete(o2);
    }
    ModArith.SharedSecret(c.g, c.x, s.x, c.p);
    r := Complete(k, clientFields, serverFields);
  }

  lemma OneField(k: Kind, r: bytes)
    ensures ReadAll([k], r).0 == [ReadField(k, r).0]
  {
    assert [k][1..] == [];
    assert [ReadField(k, r).0] + [] == [ReadField(k, r).0];
  }

  /** Why an exchange does not complete: no agreement, a public value that is 0, or exponents that are never drawn. */
  ghost predicate Unfinished(why: Outcome, pack: map<nat, seq<(int, int)>>, sizes: seq<nat>, l: Limits,
                             rolls: seq<bytes>, drawsC: seq<bytes>, drawsS: seq<bytes>, g: int, p: int)
  {
    || NoAgreement(why, pack, sizes, l, rolls, drawsC, g, p)
    || (Offered(pack, sizes, l, rolls, g, p)
        && match why
           case Failed(ValueOutOfRange) => ZeroValue(g, p, drawsC) || ZeroValue(g, p, drawsS)
           case Hangs => !ExponentDraw(p, drawsS).Drawn?
           case _ => false)
  }

  /**
   * A whole group exchange between a client that may ask for any range and a server, whose own limits are the default
   * ones. If it completes, both ends hold the same group and secret, and both hash the same fields exactly when the
   * client's range was consistent and its preferred size within the server's limits; the default client's is.
   */
  method Exchange(c: KexGex, s: KexGex, pack: ModulusPack, sizes: seq<nat>, rolls: seq<bytes>, drawsC: seq<bytes>,
                  drawsS: seq<bytes>, before: seq<Field>)
    returns (r: Result)
    requires c != s && Sendable(c.limits) && s.limits == DEFAULT_LIMITS && !c.oldStyle && !s.oldStyle
    requires pack.Valid() && Ascending(sizes) && forall b :: b in sizes <==> b in pack.pack
    modifies c, s
    ensures c.limits == old(c.limits)
    ensures r.Complete? ==>
              && c.p == s.p && c.g == s.g && 1024 <= BitLength(c.p) <= 8192
              && 1 < c.x < Half(c.p) && 1 < s.x < Half(c.p)
              && r.secret == ModArith.ModPow(ModArith.ModPow(c.g, s.x, c.p), c.x, c.p)
              && s.limits == Normalised(DEFAULT_LIMITS, c.limits) && Served(DEFAULT_LIMITS, c.limits, s.limits)
              && Chosen(sizes, s.limits.min, s.limits.preferred, s.limits.max, BitLength(c.p))
    ensures r.Complete? ==>
              var e, f := ModArith.ModPow(c.g, c.x, c.p), ModArith.ModPow(c.g, s.x, c.p);
              && r.clientHashed == Transcript(before, false, c.limits, c.p, c.g, e, f, r.secret)
              && r.serverHashed == Transcript(before, false, s.limits, c.p, c.g, e, f, r.secret)
              && Covers(r.clientHashed, before, c.limits, c.p, c.g, e, f, r.secret)
              && Covers(r.serverHashed, before, s.limits, c.p, c.g, e, f, r.secret)
    ensures r.Complete? ==> (r.clientHashed == r.serverHashed <==>
                             c.limits.min <= c.limits.preferred <= c.limits.max && 1024 <= c.limits.preferred <= 8192)
    ensures r.Complete? && c.limits == DEFAULT_LIMITS ==> r.clientHashed == r.serverHashed
    ensures r.Complete? ==>
              && Offered(pack.pack, sizes, s.limits, rolls, s.g, s.p) && AllPackable([Mpint(s.p), Mpint(s.g)])
              && ExponentDraw(c.p, drawsC).Drawn? && Packable(Mpint(PublicValue(c.g, c.p, drawsC)))
              && c.x == ExponentDraw(c.p, drawsC).x && !ZeroValue(c.g, c.p, drawsC)
              && ExponentDraw(c.p, drawsS).Drawn? && s.x == ExponentDraw(c.p, drawsS).x && !ZeroValue(c.g, c.p, drawsS)
    ensures r == Incomplete(Failed(NoModuli)) <==> pack.pack == map[]
    ensures r.Incomplete? ==>
              Unfinished(r.why, pack.pack, sizes, Normalised(DEFAULT_LIMITS, c.limits), rolls, drawsC, drawsS, s.g, s.p)
  {
    hide Chosen, Ascending, Transcript, Served, FirstBelow, ExponentDraw, AllPackable, Packable, WireAll, Offered;
    hide RollsOn;
    var o, packet := AgreeOnGroup(c, s, pack, sizes, rolls, drawsC);
    if o != Fine {
      return Incomplete(o);
    }
    r := TradeValues(c, s, packet, drawsS, before);
    UnchangedIffConsistent(DEFAULT_LIMITS, c.limits);
    if r.Complete? {
      LimitsAreInTranscript(before, c.limits, s.limits, c.p, c.g, c.e, c.f, r.secret);
      NormalisedIsServed(DEFAULT_LIMITS, c.limits);
      TranscriptCovers(before, c.limits, c.p, c.g, c.e, c.f, r.secret);
      TranscriptCovers(before, s.limits, c.p, c.g, c.e, c.f, r.secret);
    }
  }
}
