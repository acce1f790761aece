/** The typed SSH message: fields written one after another to a byte buffer and read back in the same order. */
module Messages {
  import opened Basics
  import opened Bytes
  import opened LongCodec

  const BIG_INT := 0xff00_0000
  const MAX_PAD_SIZE := 0x10_0000
  const COMMA: byte := 44

  datatype Field =
    | Raw(data: bytes)
    | Flag(b: bool)
    | Int(n: int)
    | Int64(n: int)
    | Adaptive(n: int)
    | Mpint(n: int)
    | Str(s: bytes)
    | Names(names: seq<bytes>)

  datatype Kind = RawKind(size: nat) | FlagKind | IntKind | Int64Kind | AdaptiveKind | MpintKind | StrKind | NamesKind

  function KindOf(f: Field): Kind {
    match f
    case Raw(data) => RawKind(|data|)
    case Flag(_) => FlagKind
    case Int(_) => IntKind
    case Int64(_) => Int64Kind
    case Adaptive(_) => AdaptiveKind
    case Mpint(_) => MpintKind
    case Str(_) => StrKind
    case Names(_) => NamesKind
  }

  // ---- the wire form of each field ----

  function Join(names: seq<bytes>): bytes {
    if names == [] then []
    else if |names| == 1 then names[0]
    else names[0] + [COMMA] + Join(names[1..])
  }

  function Split(s: bytes): (names: seq<bytes>)
    ensures names != []
  {
    if s == [] then [[]]
    else
      var rest := Split(s[1..]);
      if s[0] == COMMA then [[]] + rest else [[s[0]] + rest[0]] + rest[1..]
  }

  function StringWire(s: bytes): bytes
    requires |s| < WORD
  {
    Pack32(|s|) + s
  }

  /** The values the fixed-width and length-prefixed forms have room for; packing any other value raises. */
  predicate Packable(f: Field) {
    match f
    case Int(n) => 0 <= n < WORD
    case Int64(n) => 0 <= n < WORD * WORD
    case Adaptive(n) => if n >= BIG_INT then |Deflate(n, true)| < WORD else 0 <= n
    case Mpint(n) => |Deflate(n, true)| < WORD
    case Str(s) => |s| < WORD
    case Names(names) => |Join(names)| < WORD
    case _ => true
  }

  function Wire(f: Field): bytes
    requires Packable(f)
  {
    match f
    case Raw(data) => data
    case Flag(b) => if b then [1] else [0]
    case Int(n) => Pack32(n)
    case Int64(n) => Word(n, 8)
    case Adaptive(n) => if n >= BIG_INT then [255] + StringWire(Deflate(n, true)) else Pack32(n)
    case Mpint(n) => StringWire(Deflate(n, true))
    case Str(s) => StringWire(s)
    case Names(names) => StringWire(Join(names))
  }

  predicate AllPackable(fields: seq<Field>) {
    forall f :: f in fields ==> Packable(f)
  }

  function WireAll(fields: seq<Field>): bytes
    requires AllPackable(fields)
  {
    if fields == [] then [] else Wire(fields[0]) + WireAll(fields[1..])
  }

  /** The data types of section 5 of RFC 4251, and the adaptive integer, byte by byte. */
  lemma WireForms(f: Field)
    requires Packable(f)
    ensures var w := Wire(f);
            match f
            case Raw(data) => w == data
            case Flag(b) => w == [if b then 1 else 0]
            case Int(n) => |w| == 4 && Value(w) == n
            case Int64(n) => |w| == 8 && Value(w) == n
            case Adaptive(n) =>
              if n < 0xff00_0000 then |w| == 4 && Value(w) == n
              else
                && |w| >= 5 && w[0] == 0xff && Value(w[1..5]) == |w| - 5
                && Inflate(w[5..], false) == n && Shortest(w[5..])
            case Mpint(n) =>
              |w| >= 4 && Value(w[..4]) == |w| - 4 && Inflate(w[4..], false) == n && Shortest(w[4..])
            case Str(s) => |w| >= 4 && Value(w[..4]) == |s| && w[4..] == s
            case Names(names) => |w| >= 4 && Value(w[..4]) == |w| - 4 && w[4..] == Join(names)
  {
    hide Deflate, Inflate, Shortest, Join;
    match f
    case Int(n) => WordOf(n, 4);
    case Int64(n) => WordOf(n, 8);
    case Adaptive(n) =>
      if n < BIG_INT {
        WordOf(n, 4);
      } else {
        StringForm(Deflate(n, true));
        InflateDeflate(n);
        DeflateShortest(n);
      }
    case Mpint(n) =>
      StringForm(Deflate(n, true));
      InflateDeflate(n);
      DeflateShortest(n);
    case Str(s) => StringForm(s);
    case Names(names) => StringForm(Join(names));
    case _ =>
  }

  lemma WordOf(n: nat, k: nat)
    requires k == 4 || k == 8
    requires n < if k == 4 then WORD else WORD * WORD
    ensures Value(Word(n, k)) == n
  {
    Pow256Four();
    WordValue(n, k);
  }

  lemma StringForm(s: bytes)
    requires |s| < WORD
    ensures var w := StringWire(s); |w| == 4 + |s| && Value(w[..4]) == |s| && w[4..] == s
    ensures var w := [255] + StringWire(s); |w| == 5 + |s| && Value(w[1..5]) == |s| && w[5..] == s
  {
    WordOf(|s|, 4);
    assert StringWire(s)[..4] == Pack32(|s|);
    assert ([255] + StringWire(s))[1..5] == Pack32(|s|);
  }

  // ---- reading from the unread part of a buffer ----

  /** The next `n` bytes, padded with zero bytes when the buffer runs out and `n` is below the padding limit. */
  function Taken(r: bytes, n: nat): (b: bytes)
    ensures n < MAX_PAD_SIZE ==> |b| == n
    ensures n <= |r| ==> b == r[..n]
    ensures |r| < n < MAX_PAD_SIZE ==> b[..|r|] == r && forall i :: |r| <= i < n ==> b[i] == 0
    ensures |r| < n && n >= MAX_PAD_SIZE ==> b == r
  {
    var b := r[..Min(n, |r|)];
    if |b| < n < MAX_PAD_SIZE then b + Fill(0, n - |b|) else b
  }

  function Left(r: bytes, n: nat): bytes {
    r[Min(n, |r|)..]
  }

  function ReadInt(r: bytes): (nat, bytes) {
    (Unpack32(Taken(r, 4)), Left(r, 4))
  }

  function ReadString(r: bytes): (bytes, bytes) {
    var (n, r') := ReadInt(r);
    (Taken(r', n), Left(r', n))
  }

  function ReadAdaptive(r: bytes): (int, bytes) {
    if Taken(r, 1) == [255] then
      var (s, r') := ReadString(Left(r, 1));
      (Inflate(s, false), r')
    else
      (Unpack32(Taken(r, 1) + Taken(Left(r, 1), 3)), Left(Left(r, 1), 3))
  }

  function ReadField(k: Kind, r: bytes): (Field, bytes) {
    match k
    case RawKind(n) => (Raw(Taken(r, n)), Left(r, n))
    case FlagKind => (Flag(Taken(r, 1) != [0]), Left(r, 1))
    case IntKind => var (n, r') := ReadInt(r); (Int(n), r')
    case Int64Kind => (Int64(Value(Taken(r, 8))), Left(r, 8))
    case AdaptiveKind => var (n, r') := ReadAdaptive(r); (Adaptive(n), r')
    case MpintKind => var (s, r') := ReadString(r); (Mpint(Inflate(s, false)), r')
    case StrKind => var (s, r') := ReadString(r); (Str(s), r')
    case NamesKind => var (s, r') := ReadString(r); (Names(Split(s)), r')
  }

  function ReadAll(kinds: seq<Kind>, r: bytes): (seq<Field>, bytes) {
    if kinds == [] then ([], r)
    else
      var (f, r1) := ReadField(kinds[0], r);
      var (fs, r2) := ReadAll(kinds[1..], r1);
      ([f] + fs, r2)
  }

  lemma StringKinds(r: bytes, s: bytes, rest: bytes)
    requires (s, rest) == ReadString(r)
    ensures ReadField(MpintKind, r) == (Mpint(Inflate(s, false)), rest)
    ensures ReadField(NamesKind, r) == (Names(Split(s)), rest)
  {
  }

  // ---- round trips ----

  predicate CommaFree(s: bytes) {
    COMMA !in s
  }

  /** Lists of names that survive being joined by commas. */
  predicate Separable(f: Field) {
    f.Names? ==> f.names != [] && forall s :: s in f.names ==> CommaFree(s)
  }

  lemma {:induction false} SplitFirst(a: bytes, s: bytes)
    requires CommaFree(a)
    ensures Split(a) == [a]
    ensures Split(a + [COMMA] + s) == [a] + Split(s)
  {
    if a == [] {
      assert ([] + [COMMA] + s)[1..] == s;
      assert [COMMA] + s == a + [COMMA] + s;
    } else {
      SplitFirst(a[1..], s);
      assert (a + [COMMA] + s)[1..] == a[1..] + [COMMA] + s;
      assert a == [a[0]] + a[1..];
    }
  }

  /** Comma-joined names split back into the same names exactly when there is a name and none contains a comma. */
  lemma {:induction false} SplitJoin(names: seq<bytes>)
    ensures Split(Join(names)) == names <==> names != [] && forall s :: s in names ==> CommaFree(s)
  {
    SplitIsCommaFree(Join(names));
    if names != [] && forall s :: s in names ==> CommaFree(s) {
      JoinSplits(names);
    }
  }

  lemma {:induction false} SplitIsCommaFree(s: bytes)
    ensures forall t :: t in Split(s) ==> CommaFree(t)
  {
    if s == [] {
    } else {
      SplitIsCommaFree(s[1..]);
      var rest := Split(s[1..]);
      assert CommaFree(rest[0]);
      assert forall t :: t in rest[1..] ==> t in rest;
      assert s[0] != COMMA ==> CommaFree([s[0]] + rest[0]);
    }
  }

  lemma {:induction false} JoinSplits(names: seq<bytes>)
    requires names != [] && forall s :: s in names ==> CommaFree(s)
    ensures Split(Join(names)) == names
  {
    if |names| == 1 {
      SplitFirst(names[0], []);
    } else {
      JoinSplits(names[1..]);
      SplitFirst(names[0], Join(names[1..]));
    }
  }

  lemma ReadIntOfWire(n: nat, rest: bytes)
    requires n < WORD
    ensures ReadInt(Pack32(n) + rest) == (n, rest)
  {
    Pow256Four();
    WordValue(n, 4);
    assert Taken(Pack32(n) + rest, 4) == Pack32(n);
  }

  lemma ReadStringOfWire(s: bytes, rest: bytes)
    requires |s| < WORD
    ensures ReadString(StringWire(s) + rest) == (s, rest)
  {
    assert StringWire(s) + rest == Pack32(|s|) + (s + rest);
    ReadIntOfWire(|s|, s + rest);
    assert Taken(s + rest, |s|) == s;
    assert Left(s + rest, |s|) == rest;
  }

  lemma ReadAdaptiveOfWire(n: int, rest: bytes)
    requires Packable(Adaptive(n))
    ensures ReadAdaptive(Wire(Adaptive(n)) + rest) == (n, rest)
  {
    var r := Wire(Adaptive(n)) + rest;
    if n >= BIG_INT {
      var s := Deflate(n, true);
      assert r == [255] + (StringWire(s) + rest);
      assert Taken(r, 1) == [255];
      ReadStringOfWire(s, rest);
      InflateDeflate(n);
    } else {
      var w := Pack32(n);
      Pow256Four();
      WordValue(n, 4);
      LeadingByte(w);
      assert Pow256(3) == 0x100_0000;
      assert w[0] < 255;
      assert Taken(r, 1) == w[..1] && Left(r, 1) == w[1..] + rest;
      assert Taken(w[1..] + rest, 3) == w[1..];
      assert w[..1] + w[1..] == w;
    }
  }

  lemma ReadShortOfWire(f: Field, rest: bytes)
    requires Packable(f) && (f.Raw? || f.Flag? || f.Int? || f.Int64? || f.Adaptive?)
    ensures ReadField(KindOf(f), Wire(f) + rest) == (f, rest)
  {
    match f
    case Raw(data) =>
    case Flag(b) =>
    case Int(n) => ReadIntOfWire(n, rest);
    case Int64(n) =>
      Pow256Four();
      WordValue(n, 8);
      assert Taken(Word(n, 8) + rest, 8) == Word(n, 8);
    case Adaptive(n) => ReadAdaptiveOfWire(n, rest);
  }

  lemma ReadLongOfWire(f: Field, rest: bytes)
    requires Packable(f) && Separable(f) && (f.Mpint? || f.Str? || f.Names?)
    ensures ReadField(KindOf(f), Wire(f) + rest) == (f, rest)
  {
    match f
    case Mpint(n) =>
      ReadStringOfWire(Deflate(n, true), rest);
      InflateDeflate(n);
    case Str(s) => ReadStringOfWire(s, rest);
    case Names(names) =>
      ReadStringOfWire(Join(names), rest);
      SplitJoin(names);
  }

  lemma ReadFieldOfWire(f: Field, rest: bytes)
    requires Packable(f) && Separable(f)
    ensures ReadField(KindOf(f), Wire(f) + rest) == (f, rest)
  {
    hide ReadField, Wire, Packable;
    if f.Mpint? || f.Str? || f.Names? {
      ReadLongOfWire(f, rest);
    } else {
      ReadShortOfWire(f, rest);
    }
  }

  function Kinds(fields: seq<Field>): (kinds: seq<Kind>)
    ensures |kinds| == |fields|
  {
    seq(|fields|, i requires 0 <= i < |fields| => KindOf(fields[i]))
  }

  /** Reading field `f` with the getter for `k` yields `v` and leaves what follows, whatever that is. */
  ghost predicate ReadsAs(k: Kind, f: Field, v: Field) {
    Packable(f) && forall rest :: ReadField(k, Wire(f) + rest) == (v, rest)
  }

  /** Fields read one after another, each with a getter that may differ from its adder. */
  lemma {:induction false} ReadAllAs(kinds: seq<Kind>, fields: seq<Field>, values: seq<Field>, rest: bytes)
    requires |kinds| == |fields| == |values|
    requires forall i :: 0 <= i < |fields| ==> ReadsAs(kinds[i], fields[i], values[i])
    ensures AllPackable(fields)
    ensures ReadAll(kinds, WireAll(fields) + rest) == (values, rest)
  {
    hide ReadField, Wire, Packable;
    if fields == [] {
      assert [] + rest == rest;
    } else {
      var more := WireAll(fields[1..]);
      ReadAllAs(kinds[1..], fields[1..], values[1..], rest);
      assert ReadsAs(kinds[0], fields[0], values[0]);
      ReadAllStep(kinds, Wire(fields[0]), more + rest, values[0]);
      assert WireAll(fields) + rest == Wire(fields[0]) + (more + rest);
      assert [values[0]] + values[1..] == values;
    }
  }

  lemma ReadAllStep(kinds: seq<Kind>, w: bytes, rest: bytes, v: Field)
    requires kinds != [] && ReadField(kinds[0], w + rest) == (v, rest)
    ensures ReadAll(kinds, w + rest) == ([v] + ReadAll(kinds[1..], rest).0, ReadAll(kinds[1..], rest).1)
  {
  }

  /** Any sequence of fields, read back with the matching getters, gives the same values and leaves what followed. */
  lemma RoundTrip(fields: seq<Field>, rest: bytes)
    requires AllPackable(fields) && forall f :: f in fields ==> Separable(f)
    ensures ReadAll(Kinds(fields), WireAll(fields) + rest) == (fields, rest)
  {
    forall i | 0 <= i < |fields|
      ensures ReadsAs(Kinds(fields)[i], fields[i], fields[i])
    {
      ReadsBack(fields[i]);
    }
    ReadAllAs(Kinds(fields), fields, fields, rest);
  }

  lemma ReadsBack(f: Field)
    requires Packable(f) && Separable(f)
    ensures ReadsAs(KindOf(f), f, f)
  {
    forall rest: bytes
      ensures ReadField(KindOf(f), Wire(f) + rest) == (f, rest)
    {
      ReadFieldOfWire(f, rest);
    }
  }

  /** A packet whose type byte has been taken off reads as the fields that were written behind it. */
  lemma ReadPacket(id: byte, fields: seq<Field>, kinds: seq<Kind>)
    requires AllPackable(fields) && (forall f :: f in fields ==> Separable(f)) && kinds == Kinds(fields)
    ensures ReadAll(kinds, ([id] + WireAll(fields))[1..]) == (fields, [])
  {
    RoundTrip(fields, []);
    assert ([id] + WireAll(fields))[1..] == WireAll(fields) + [];
  }

  /** The wire form of the first fields, built from the front. */
  function WireOfFirst(fields: seq<Field>, i: nat): bytes
    requires i <= |fields| && forall j :: 0 <= j < i ==> Packable(fields[j])
  {
    if i == 0 then [] else WireOfFirst(fields, i - 1) + Wire(fields[i - 1])
  }

  lemma {:induction false} WireOfOneMore(fields: seq<Field>, f: Field)
    requires AllPackable(fields) && Packable(f)
    ensures WireAll(fields + [f]) == WireAll(fields) + Wire(f)
  {
    if fields == [] {
      assert [] + [f] == [f];
      assert WireAll([f]) == Wire(f) + [];
    } else {
      WireOfOneMore(fields[1..], f);
      assert (fields + [f])[1..] == fields[1..] + [f];
    }
  }

  lemma {:induction false} WireOfFirstIsWireOfTake(fields: seq<Field>, i: nat)
    requires i <= |fields| && forall j :: 0 <= j < i ==> Packable(fields[j])
    ensures WireOfFirst(fields, i) == WireAll(fields[..i])
  {
    hide Wire, Packable;
    if i == 0 {
    } else {
      WireOfFirstIsWireOfTake(fields, i - 1);
      assert fields[..i] == fields[..i - 1] + [fields[i - 1]];
      WireOfOneMore(fields[..i - 1], fields[i - 1]);
    }
  }

  // ---- the buffer ----

  /** What a write at `pos` leaves in the buffer: it overwrites, and extends the buffer at its end. */
  function Overwritten(packet: bytes, pos: nat, data: bytes): bytes
    requires pos <= |packet|
  {
    if pos + |data| >= |packet| then packet[..pos] + data else packet[..pos] + data + packet[pos + |data|..]
  }

  /** Before and behind what is written nothing changes. */
  lemma OverwrittenOnlyThere(packet: bytes, pos: nat, data: bytes)
    requires pos <= |packet|
    ensures var r, end := Overwritten(packet, pos, data), pos + |data|;
            && end <= |r| && r[..pos] == packet[..pos] && r[pos..end] == data
            && r[end..] == if end <= |packet| then packet[end..] else []
  {
  }

  class Message {
    var packet: bytes
    var pos: nat

    ghost predicate Valid()
      reads this
    {
      pos <= |packet|
    }

    ghost function Remainder(): bytes
      reads this
      requires Valid()
    {
      packet[pos..]
    }

    constructor (content: bytes)
      ensures Valid() && packet == content && pos == 0
    {
      packet, pos := content, 0;
    }

    method Rewind()
      modifies this`pos
      ensures pos == 0 && Valid()
    {
      pos := 0;
    }

    method Read(n: nat) returns (b: bytes)
      requires Valid()
      modifies this`pos
      ensures Valid() && b == old(Remainder())[..Min(n, |old(Remainder())|)]
      ensures Remainder() == Left(old(Remainder()), n)
    {
      var k := Min(n, |packet| - pos);
      b := packet[pos..pos + k];
      pos := pos + k;
    }

    method Write(data: bytes)
      requires Valid()
      modifies this
      ensures Valid() && packet == Overwritten(old(packet), old(pos), data)
      ensures pos == old(pos) + |data|
    {
      packet := Overwritten(packet, pos, data);
      pos := pos + |data|;
    }

    method GetRemainder() returns (b: bytes)
      requires Valid()
      modifies this`pos
      ensures Valid() && pos == old(pos) && b == Remainder()
    {
      var position := pos;
      b := packet[pos..];
      pos := |packet|;
      pos := position;
    }

    /** The part read so far; together with the remainder it is the whole content. */
    method GetSoFar() returns (b: bytes)
      requires Valid()
      modifies this`pos
      ensures Valid() && pos == old(pos) && b + Remainder() == packet && |b| == pos
    {
      var position := pos;
      Rewind();
      b := Read(position);
    }

    method GetBytes(n: nat) returns (b: bytes)
      requires Valid()
      modifies this`pos
      ensures Valid() && (b, Remainder()) == (Taken(old(Remainder()), n), Left(old(Remainder()), n))
    {
      b := Read(n);
      if |b| < n < MAX_PAD_SIZE {
        b := b + Fill(0, n - |b|);
      }
    }

    method GetBoolean() returns (b: bool)
      requires Valid()
      modifies this`pos
      ensures Valid() && (Flag(b), Remainder()) == ReadField(FlagKind, old(Remainder()))
    {
      var x := GetBytes(1);
      b := x != [0];
    }

    method GetInt() returns (n: nat)
      requires Valid()
      modifies this`pos
      ensures Valid() && (n, Remainder()) == ReadInt(old(Remainder()))
    {
      var b := GetBytes(4);
      n := Unpack32(b);
    }

    method GetInt64() returns (n: nat)
      requires Valid()
      modifies this`pos
      ensures Valid() && (Int64(n), Remainder()) == ReadField(Int64Kind, old(Remainder()))
    {
      var b := GetBytes(8);
      n := Value(b);
    }

    method GetString() returns (s: bytes)
      requires Valid()
      modifies this`pos
      ensures Valid() && (s, Remainder()) == ReadString(old(Remainder()))
    {
      var n := GetInt();
      s := GetBytes(n);
    }

    method GetAdaptiveInt() returns (n: int)
      requires Valid()
      modifies this`pos
      ensures Valid() && (n, Remainder()) == ReadAdaptive(old(Remainder()))
    {
      var b := GetBytes(1);
      if b == [255] {
        var s := GetString();
        n := InflateLong(s, false);
        return;
      }
      var c := GetBytes(3);
      n := Unpack32(b + c);
    }

    method GetMpint() returns (n: int)
      requires Valid()
      modifies this`pos
      ensures Valid() && (Mpint(n), Remainder()) == ReadField(MpintKind, old(Remainder()))
    {
      ghost var r := Remainder();
      var s := GetString();
      n := InflateLong(s, false);
      StringKinds(r, s, Remainder());
    }

    method GetList() returns (names: seq<bytes>)
      requires Valid()
      modifies this`pos
      ensures Valid() && (Names(names), Remainder()) == ReadField(NamesKind, old(Remainder()))
    {
      ghost var r := Remainder();
      var s := GetString();
      names := Split(s);
      StringKinds(r, s, Remainder());
    }

    method AddBytes(b: bytes)
      requires Valid()
      modifies this
      ensures Valid() && packet == Overwritten(old(packet), old(pos), b) && pos == old(pos) + |b|
    {
      Write(b);
    }

    method AddBoolean(b: bool)
      requires Valid()
      modifies this
      ensures Valid() && packet == Overwritten(old(packet), old(pos), Wire(Flag(b))) && pos == old(pos) + 1
    {
      if b {
        Write([1]);
      } else {
        Write([0]);
      }
    }

    /** False when packing raised, in which case nothing was written. */
    method AddInt(n: int) returns (ok: bool)
      requires Valid()
      modifies this
      ensures Valid() && ok == Packable(Int(n)) && (ok <==> 0 <= n < 0x1_0000_0000)
      ensures ok ==> packet == Overwritten(old(packet), old(pos), Wire(Int(n))) && pos == old(pos) + 4
      ensures !ok ==> packet == old(packet) && pos == old(pos)
    {
      ok := 0 <= n < WORD;
      if ok {
        Write(Pack32(n));
      }
    }

    method AddInt64(n: int) returns (ok: bool)
      requires Valid()
      modifies this
      ensures Valid() && ok == Packable(Int64(n)) && (ok <==> 0 <= n < 0x1_0000_0000_0000_0000)
      ensures ok ==> packet == Overwritten(old(packet), old(pos), Wire(Int64(n))) && pos == old(pos) + 8
      ensures !ok ==> packet == old(packet) && pos == old(pos)
    {
      ok := 0 <= n < WORD * WORD;
      if ok {
        Write(Word(n, 8));
      }
    }

    method AddString(s: bytes) returns (ok: bool)
      requires Valid()
      modifies this
      ensures Valid() && ok == Packable(Str(s)) && (ok <==> |s| < 0x1_0000_0000)
      ensures ok ==> packet == Overwritten(old(packet), old(pos), Wire(Str(s))) && pos == old(pos) + 4 + |s|
      ensures !ok ==> packet == old(packet) && pos == old(pos)
    {
      ok := AddInt(|s|);
      if ok {
        Write(s);
        OverwrittenTwice(old(packet), old(pos), Pack32(|s|), s);
      }
    }

    method AddAdaptiveInt(n: int) returns (ok: bool)
      requires Valid()
      modifies this
      ensures Valid() && ok == Packable(Adaptive(n)) && (n < 0xff00_0000 ==> (ok <==> n >= 0))
      ensures ok ==> packet == Overwritten(old(packet), old(pos), Wire(Adaptive(n)))
      ensures ok ==> pos == old(pos) + |Wire(Adaptive(n))|
      // a failed big integer has already left its marker byte
      ensures !ok ==> packet == Overwritten(old(packet), old(pos), if n >= BIG_INT then [255] else [])
    {
      if n >= BIG_INT {
        var s := DeflateLong(n, true);
        ok := AddMarked(s);
      } else {
        ok := AddInt(n);
        OverwrittenByNothing(old(packet), old(pos));
      }
    }

    /** A marker byte and then a string. */
    method AddMarked(s: bytes) returns (ok: bool)
      requires Valid()
      modifies this
      ensures Valid() && ok == (|s| < WORD)
      ensures ok ==> packet == Overwritten(old(packet), old(pos), [255] + StringWire(s)) && pos == old(pos) + 5 + |s|
      ensures !ok ==> packet == Overwritten(old(packet), old(pos), [255])
    {
      Write([255]);
      ok := AddString(s);
      if ok {
        OverwrittenTwice(old(packet), old(pos), [255], StringWire(s));
      }
    }

    method AddMpint(z: int) returns (ok: bool)
      requires Valid()
      modifies this
      ensures Valid() && ok == Packable(Mpint(z))
      ensures ok ==> packet == Overwritten(old(packet), old(pos), Wire(Mpint(z)))
      ensures ok ==> pos == old(pos) + |Wire(Mpint(z))|
      ensures !ok ==> packet == old(packet) && pos == old(pos)
    {
      var s := DeflateLong(z, true);
      ok := AddString(s);
    }

    method AddList(names: seq<bytes>) returns (ok: bool)
      requires Valid()
      modifies this
      ensures Valid() && ok == Packable(Names(names))
      ensures ok ==> packet == Overwritten(old(packet), old(pos), Wire(Names(names)))
      ensures ok ==> pos == old(pos) + |Wire(Names(names))|
      ensures !ok ==> packet == old(packet) && pos == old(pos)
    {
      ok := AddString(Join(names));
    }

    /** Dispatch on the kind of field, as a caller picks the adder. */
    method AddField(f: Field) returns (ok: bool)
      requires Valid()
      modifies this
      ensures Valid() && ok == Packable(f)
      ensures ok ==> packet == Overwritten(old(packet), old(pos), Wire(f)) && pos == old(pos) + |Wire(f)|
    {
      ok := true;
      match f
      case Raw(data) => AddBytes(data);
      case Flag(b) => AddBoolean(b);
      case Int(n) => ok := AddInt(n);
      case Int64(n) => ok := AddInt64(n);
      case Adaptive(n) => ok := AddAdaptiveInt(n);
      case Mpint(n) => ok := AddMpint(n);
      case Str(s) => ok := AddString(s);
      case Names(names) => ok := AddList(names);
    }

    /** Several fields in a row, to the end of the buffer; stops at the first that cannot be packed. */
    method AddAll(fields: seq<Field>) returns (ok: bool)
      requires Valid() && pos == |packet|
      modifies this
      ensures Valid() && ok == AllPackable(fields)
      ensures ok ==> packet == old(packet) + WireAll(fields) && pos == |packet|
    {
      hide Wire, Packable;
      for i := 0 to |fields|
        invariant Valid() && pos == |packet|
        invariant forall j :: 0 <= j < i ==> Packable(fields[j])
        invariant packet == old(packet) + WireOfFirst(fields, i)
      {
        WroteAtEnd(packet, fields, i, old(packet));
        ok := AddField(fields[i]);
        if !ok {
          assert fields[i] in fields;
          return;
        }
      }
      WroteAll(fields);
      ok := true;
    }

    method GetAll(kinds: seq<Kind>) returns (fields: seq<Field>)
      requires Valid()
      modifies this`pos
      ensures Valid() && (fields, Remainder()) == ReadAll(kinds, old(Remainder()))
    {
      hide ReadField;
      fields := [];
      ghost var all := ReadAll(kinds, Remainder()).0;
      assert kinds[0..] == kinds && fields + all == all;
      for i := 0 to |kinds|
        invariant Valid()
        invariant var (more, rest) := ReadAll(kinds[i..], Remainder());
                  ReadAll(kinds, old(Remainder())) == (fields + more, rest)
      {
        ghost var (f0, r0) := ReadField(kinds[i], Remainder());
        ghost var (more, rest) := ReadAll(kinds[i + 1..], r0);
        assert kinds[i..][1..] == kinds[i + 1..];
        assert fields + ([f0] + more) == (fields + [f0]) + more;
        var f := GetField(kinds[i]);
        fields := fields + [f];
      }
      assert fields + [] == fields;
    }

    method GetField(k: Kind) returns (f: Field)
      requires Valid()
      modifies this`pos
      ensures Valid() && (f, Remainder()) == ReadField(k, old(Remainder()))
    {
      match k
      case RawKind(n) => var b := GetBytes(n); f := Raw(b);
      case FlagKind => var b := GetBoolean(); f := Flag(b);
      case IntKind => var n := GetInt(); f := Int(n);
      case Int64Kind => var n := GetInt64(); f := Int64(n);
      case AdaptiveKind => var n := GetAdaptiveInt(); f := Adaptive(n);
      case MpintKind => var n := GetMpint(); f := Mpint(n);
      case StrKind => var s := GetString(); f := Str(s);
      case NamesKind => var l := GetList(); f := Names(l);
    }
  }

  lemma WroteAtEnd(packet: bytes, fields: seq<Field>, i: nat, before: bytes)
    requires i < |fields| && (forall j :: 0 <= j < i ==> Packable(fields[j]))
             && packet == before + WireOfFirst(fields, i)
    ensures Packable(fields[i]) ==>
              Overwritten(packet, |packet|, Wire(fields[i])) == before + WireOfFirst(fields, i + 1)
  {
  }

  lemma WroteAll(fields: seq<Field>)
    requires forall j :: 0 <= j < |fields| ==> Packable(fields[j])
    ensures AllPackable(fields)
    ensures WireOfFirst(fields, |fields|) == WireAll(fields)
  {
    WireOfFirstIsWireOfTake(fields, |fields|);
    assert fields[..|fields|] == fields;
  }

  lemma OverwrittenByNothing(packet: bytes, pos: nat)
    requires pos <= |packet|
    ensures Overwritten(packet, pos, []) == packet
  {
  }

  lemma OverwrittenTwice(packet: bytes, pos: nat, a: bytes, b: bytes)
    requires pos <= |packet|
    ensures var once := Overwritten(packet, pos, a);
            && pos + |a| <= |once|
            && Overwritten(once, pos + |a|, b) == Overwritten(packet, pos, a + b)
  {
    var once := Overwritten(packet, pos, a);
    assert once[..pos + |a|] == packet[..pos] + a;
    if pos + |a| < |packet| {
      assert forall i :: pos + |a| <= i < |once| ==> once[i] == packet[i];
    }
  }

  /** A message built field by field and reopened yields the same fields, in order, with nothing left over. */
  method Exchange(fields: seq<Field>) returns (sent: Message, got: seq<Field>)
    requires AllPackable(fields) && forall f :: f in fields ==> Separable(f)
    ensures fresh(sent) && sent.Valid() && sent.packet == WireAll(fields)
    ensures got == fields
  {
    sent := new Message([]);
    var ok := sent.AddAll(fields);
    RoundTrip(fields, []);
    assert WireAll(fields) + [] == WireAll(fields);
    var received := new Message(sent.packet);
    got := received.GetAll(Kinds(fields));
  }
}
