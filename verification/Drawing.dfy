/**
 * Random numbers below a limit, drawn as masked byte strings until one fits; and the bit lengths the masks come from.
 */
module Drawing {
  import opened Basics
  import opened Bytes
  import opened LongCodec
  import ModArith

  // ---- bit lengths ----

  function Pow2(n: nat): (p: nat)
    ensures p >= 1
  {
    if n == 0 then 1 else 2 * Pow2(n - 1)
  }

  /** Python's `int.bit_length`. */
  function BitLength(n: int): (b: nat)
    ensures n == 0 <==> b == 0
    ensures n != 0 ==> Pow2(b - 1) <= ModArith.Abs(n) < Pow2(b)
    decreases ModArith.Abs(n)
  {
    if n == 0 then 0 else 1 + BitLength(ModArith.Abs(n) / 2)
  }

  lemma {:induction false} Pow2Add(a: nat, b: nat)
    ensures Pow2(a + b) == Pow2(a) * Pow2(b)
  {
    if a == 0 {
    } else {
      Pow2Add(a - 1, b);
      assert Pow2(a + b) == 2 * (Pow2(a - 1) * Pow2(b));
    }
  }

  lemma {:induction false} Pow2Monotone(a: nat, b: nat)
    requires a < b
    ensures 2 * Pow2(a) <= Pow2(b)
    decreases b
  {
    if a == b - 1 {
    } else {
      Pow2Monotone(a, b - 1);
    }
  }

  lemma Pow2Eight()
    ensures Pow2(1) == 2 && Pow2(2) == 4 && Pow2(3) == 8 && Pow2(4) == 16
    ensures Pow2(5) == 32 && Pow2(6) == 64 && Pow2(7) == 128 && Pow2(8) == 256
  {
    assert Pow2(4) == 16 && Pow2(6) == 64;
  }

  lemma {:induction false} Pow256IsPow2(n: nat)
    ensures Pow256(n) == Pow2(8 * n)
  {
    if n == 0 {
    } else {
      Pow256IsPow2(n - 1);
      Pow2Eight();
      Pow2Add(8, 8 * (n - 1));
    }
  }

  lemma BitLengthUnique(n: nat, b: nat)
    requires b > 0 && Pow2(b - 1) <= n < Pow2(b)
    ensures BitLength(n) == b
  {
    var c := BitLength(n);
    if c < b {
      if c < b - 1 {
        Pow2Monotone(c, b - 1);
      }
    } else if b < c {
      if b < c - 1 {
        Pow2Monotone(b, c - 1);
      }
    }
  }

  /** A leading byte below two to some power keeps the whole below that power shifted by the bytes behind it. */
  lemma Shifted(top: nat, bits: nat, k: nat, total: nat)
    requires total == bits + 8 * k
    ensures top < Pow2(bits) ==> (top + 1) * Pow256(k) <= Pow2(total)
    ensures top >= Pow2(bits) ==> top * Pow256(k) >= Pow2(total)
  {
    Pow256IsPow2(k);
    Pow2Add(bits, 8 * k);
    if top < Pow2(bits) {
      MulMonotone(top + 1, Pow2(bits), Pow256(k));
    } else {
      MulMonotone(Pow2(bits), top, Pow256(k));
    }
  }

  lemma LengthOfShifted(top: nat, n: nat, bits: nat, k: nat, total: nat)
    requires bits > 0 && Pow2(bits - 1) <= top < Pow2(bits) && total == bits + 8 * k
    requires top * Pow256(k) <= n < (top + 1) * Pow256(k)
    ensures BitLength(n) == total
  {
    Shifted(top, bits, k, total);
    Shifted(top, bits - 1, k, total - 1);
    BitLengthUnique(n, total);
  }

  /** The bit length of a byte string's value is that of its leading byte plus eight for every other byte. */
  lemma BitLengthOfBytes(s: bytes)
    requires s != [] && s[0] != 0
    ensures BitLength(Value(s)) == BitLength(s[0]) + 8 * (|s| - 1)
  {
    LeadingByte(s);
    LengthOfShifted(s[0], Value(s), BitLength(s[0]), |s| - 1, BitLength(s[0]) + 8 * (|s| - 1));
  }

  // ---- masks ----

  /** Bitwise and. */
  function And(a: nat, b: nat): (r: nat)
    ensures r <= a
  {
    if a == 0 then 0 else (if a % 2 == b % 2 == 1 then 1 else 0) + 2 * And(a / 2, b / 2)
  }

  /** As many low bits set. */
  function Ones(bits: nat): nat {
    Pow2(bits) - 1
  }

  lemma {:induction false} AndMask(a: nat, bits: nat)
    ensures And(a, Ones(bits)) == a % Pow2(bits)
    decreases bits
  {
    if bits == 0 {
      AndZero(a);
    } else {
      AndMask(a / 2, bits - 1);
      AndOdd(a, Ones(bits - 1), Ones(bits));
      HalveMod(a, Pow2(bits - 1), Pow2(bits));
    }
  }

  lemma MaskKeepsSmall(a: nat, bits: nat)
    ensures And(a, Ones(bits)) < Pow2(bits)
    ensures a < Pow2(bits) ==> And(a, Ones(bits)) == a
  {
    AndMask(a, bits);
    if a < Pow2(bits) {
      RemainderUnique(a, 0, a, Pow2(bits));
    }
  }

  lemma AndOdd(a: nat, low: nat, mask: nat)
    requires mask == 2 * low + 1
    ensures And(a, mask) == a % 2 + 2 * And(a / 2, low)
  {
    assert mask / 2 == low && mask % 2 == 1;
  }

  lemma {:induction false} AndZero(a: nat)
    ensures And(a, 0) == 0
  {
    if a == 0 {
    } else {
      AndZero(a / 2);
    }
  }

  lemma HalveMod(a: nat, p: nat, m: nat)
    requires p > 0 && m == 2 * p
    ensures a % m == a % 2 + 2 * ((a / 2) % p)
  {
    var h := a / 2;
    var q, r := h / p, h % p;
    assert a == q * m + (a % 2 + 2 * r) by {
      assert h == p * q + r;
      assert 2 * (p * q) == q * m;
    }
    RemainderUnique(a, q, a % 2 + 2 * r, m);
  }

  function Masked(d: bytes, mask: nat): (m: bytes)
    requires d != []
    ensures |m| == |d|
  {
    [And(d[0], mask)] + d[1..]
  }

  /** What the system's generator returns when asked for `n` bytes, as one entry of a script of draws. */
  function Urandom(d: bytes, n: nat): (b: bytes)
    ensures |b| == n
  {
    if |d| >= n then d[..n] else d + Fill(0, n - |d|)
  }

  /** A masked string stays below two to the number of bits let through. */
  lemma MaskedBound(d: bytes, bits: nat, total: nat)
    requires d != [] && total == bits + 8 * (|d| - 1)
    ensures Value(Masked(d, Ones(bits))) < Pow2(total)
  {
    var m := Masked(d, Ones(bits));
    MaskKeepsSmall(d[0], bits);
    LeadingByte(m);
    Shifted(m[0], bits, |d| - 1, total);
  }

  /** And every number below that is the value of some masked string. */
  lemma MaskedOnto(x: nat, k: nat, bits: nat, total: nat)
    requires k > 0 && bits <= 8 && total == bits + 8 * (k - 1) && x < Pow2(total)
    ensures Value(Masked(Word(x, k), Ones(bits))) == x
  {
    var w := Word(x, k);
    FitsBytes(x, k, total);
    WordValue(x, k);
    LeadingByte(w);
    Shifted(w[0], bits, k - 1, total);
    MaskKeepsSmall(w[0], bits);
    assert Masked(w, Ones(bits)) == w;
  }

  lemma FitsBytes(x: nat, k: nat, total: nat)
    requires total <= 8 * k && x < Pow2(total)
    ensures x < Pow256(k)
  {
    Pow256IsPow2(k);
    if total < 8 * k {
      Pow2Monotone(total, 8 * k);
    }
  }

  // ---- the private exponent ----

  datatype Draw = Drawn(x: int, left: seq<bytes>) | Spins | Waits

  function Half(p: int): (q: int)
    ensures 2 * q + 1 <= p <= 2 * q + 2
  {
    (p - 1) / 2
  }

  /** The bits of q's leading byte. */
  function TopBits(q: int): nat {
    BitLength(Strip(q)[0])
  }

  /** The number one draw stands for: as many bytes as q has, the first one masked to the bits of q's leading byte. */
  function Candidate(q: int, d: bytes): nat {
    Value(Masked(Urandom(d, |Strip(q)|), Ones(TopBits(q))))
  }

  /** The first draw that falls strictly between 1 and q. */
  function FirstBetween(q: int, draws: seq<bytes>): Draw {
    if draws == [] then Waits
    else
      var x := Candidate(q, draws[0]);
      if 1 < x < q then Drawn(x, draws[1..]) else FirstBetween(q, draws[1..])
  }

  /** The draw for the group of modulus `p`; when (p - 1) / 2 has a zero leading byte the mask loop never ends. */
  function ExponentDraw(p: int, draws: seq<bytes>): (r: Draw)
    ensures r.Drawn? ==> 1 < r.x < Half(p)
  {
    if Strip(Half(p))[0] == 0 then Spins
    else
      DrawnIsBetween(Half(p), draws);
      FirstBetween(Half(p), draws)
  }

  /**
   * The mask for a leading byte: the byte is shifted up, and the mask down, until the byte's top bit is set. The loop
   * ends because the byte is not zero.
   */
  method MaskFor(leading: byte) returns (mask: nat)
    requires leading != 0
    ensures mask == Ones(BitLength(leading))
  {
    var high: nat := leading;
    mask := 255;
    ghost var bits := 8;
    Pow2Eight();
    while high < 128
      invariant 1 <= bits <= 8 && mask == Ones(bits)
      invariant high == leading * Pow2(8 - bits) && high < 256
      decreases 128 - high
    {
      assert leading * Pow2(8 - bits) * 2 == leading * Pow2(9 - bits);
      high := high * 2;
      mask := mask / 2;
      bits := bits - 1;
    }
    LeadingBits(leading, bits);
  }

  lemma LeadingBits(leading: byte, bits: nat)
    requires 1 <= bits <= 8 && 128 <= leading * Pow2(8 - bits) < 256
    ensures BitLength(leading) == bits
  {
    Pow2Eight();
    assert Pow2(bits - 1) <= leading < Pow2(bits);
    BitLengthUnique(leading, bits);
  }

  /** What counting down from the byte count comes to, for any integer: the bits of its shortest string, or 1. */
  function BitsOfString(n: int): nat {
    if Strip(n)[0] == 0 then 1 else BitLength(Value(Strip(n)))
  }

  lemma StripOfPositive(n: nat)
    requires n > 0
    ensures Strip(n)[0] != 0 && Value(Strip(n)) == n
  {
    hide Strip, Value, Pow256;
    StripValue(n);
    assert Sign(n) == 0 && 0 * Pow256(|Strip(n)|) == 0;
  }

  /** For a natural number that is its bit length, except that 0 counts as one bit. */
  lemma NaturalBits(n: nat)
    ensures BitsOfString(n) == if n == 0 then 1 else BitLength(n)
  {
    if n == 0 {
      assert Strip(0) == [0];
    } else {
      hide Strip, BitLength, Value;
      StripOfPositive(n);
    }
  }

  /** For a negative number it is, only when the number is the least one of so many bytes: the others come out wrong. */
  lemma NegativeBits(n: int)
    requires n < 0
    ensures BitsOfString(n) == BitLength(n) <==> exists k: nat :: k > 0 && IsLeastOf(n, k)
  {
    var k := |Strip(n)|;
    if BitsOfString(n) == BitLength(n) {
      AgreesOnlyAtLeast(n);
      assert IsLeastOf(n, k);
    }
    if j: nat :| j > 0 && IsLeastOf(n, j) {
      LeastAgrees(n, j);
    }
  }

  /** The least two's-complement number of `k` bytes. */
  predicate IsLeastOf(n: int, k: nat) {
    k > 0 && n + Pow2(8 * k - 1) == 0
  }

  lemma LeastAgrees(n: int, k: nat)
    requires IsLeastOf(n, k)
    ensures BitsOfString(n) == BitLength(n)
  {
    var s := [128] + Fill(0, k - 1);
    Pow256IsPow2(k);
    Pow256IsPow2(k - 1);
    Pow2Eight();
    Pow2Add(7, 8 * (k - 1));
    assert s[..1] == [128] && s[1..] == Fill(0, k - 1);
    ValueSplit(s, 1);
    ValueFill(k - 1);
    ValueOne(128);
    assert Value(s) == Pow2(8 * k - 1) && n + Pow256(k) == Value(s);
    StripUnique(n, s);
    SameLength(n, Value(s));
  }

  lemma SameLength(a: int, b: int)
    requires ModArith.Abs(a) == ModArith.Abs(b)
    ensures BitLength(a) == BitLength(b)
  {
  }

  lemma AgreesOnlyAtLeast(n: int)
    requires n < 0 && BitsOfString(n) == BitLength(n)
    ensures IsLeastOf(n, |Strip(n)|)
  {
    hide Strip, Value, Pow256, Pow2, BitLength;
    var k, v := |Strip(n)|, Value(Strip(n));
    StripValue(n);
    ValueBound(Strip(n));
    LeadingByte(Strip(n));
    Pow256IsPow2(k);
    Pow256IsPow2(k - 1);
    NotOneBit(n, k, v);
    if Strip(n)[0] != 0 {
      HalvesOfPower(8 * k, v, -n, BitLength(n));
    }
  }

  lemma NotOneBit(n: int, k: nat, v: nat)
    requires n < 0 && k > 0 && v - n == Pow2(8 * k)
    ensures BitLength(n) == 1 ==> v >= Pow2(8 * (k - 1))
  {
    Pow2Eight();
    Pow2Add(8, 8 * (k - 1));
  }

  /** Two numbers of the same bit length that add up to a power of two are its halves. */
  lemma HalvesOfPower(b: nat, v: nat, m: nat, bits: nat)
    requires b > 0 && bits > 0 && v + m == Pow2(b)
    requires Pow2(bits - 1) <= v < Pow2(bits) && Pow2(bits - 1) <= m < Pow2(bits)
    ensures v == m == Pow2(b - 1)
  {
    if bits < b {
      Pow2Monotone(bits, b);
    } else if bits > b {
      if bits - 1 > b {
        Pow2Monotone(b, bits - 1);
      }
    }
  }

  /** The bit length found by counting down from the byte count, for integers without a built-in one. */
  method BitLengthByBytes(n: int) returns (b: nat)
    ensures b == BitsOfString(n)
    ensures n >= 0 ==> b == if n == 0 then 1 else BitLength(n)
  {
    var norm := DeflateLong(n, false);
    StripValue(n);
    if n >= 0 {
      NaturalBits(n);
    }
    var high: nat := norm[0];
    if high == 0 {
      return 1;
    }
    b := |norm| * 8;
    ghost var bits := 8;
    Pow2Eight();
    while high < 128
      invariant 1 <= bits <= 8 && b == 8 * (|norm| - 1) + bits
      invariant high == norm[0] * Pow2(8 - bits) && high < 256
      decreases 128 - high
    {
      assert norm[0] * Pow2(8 - bits) * 2 == norm[0] * Pow2(9 - bits);
      high := high * 2;
      b := b - 1;
      bits := bits - 1;
    }
    LeadingBits(norm[0], bits);
    BitLengthOfBytes(norm);
  }

  /** Draws the private exponent; when the script of draws runs out without a hit, the caller still waits. */
  method GenerateX(p: int, draws: seq<bytes>) returns (r: Draw)
    ensures r == ExponentDraw(p, draws)
  {
    var q := (p - 1) / 2;
    var qnorm := DeflateLong(q, false);
    if qnorm[0] == 0 {
      return Spins;
    }
    var mask := MaskFor(qnorm[0]);
    var i := 0;
    while i < |draws|
      invariant 0 <= i <= |draws|
      invariant FirstBetween(q, draws) == FirstBetween(q, draws[i..])
    {
      var bytes := Urandom(draws[i], |qnorm|);
      var x := InflateLong(Masked(bytes, mask), true);
      assert draws[i..][1..] == draws[i + 1..];
      if 1 < x < q {
        return Drawn(x, draws[i + 1..]);
      }
      i := i + 1;
    }
    r := Waits;
  }

  /** For every positive q the leading byte is not zero, so the mask loop ends. */
  lemma LeadingByteOfPositive(q: int)
    requires q > 0
    ensures Strip(q)[0] != 0 && Value(Strip(q)) == q
    ensures BitLength(q) == TopBits(q) + 8 * (|Strip(q)| - 1)
    ensures TopBits(q) <= 8
  {
    StripValue(q);
    BitLengthOfBytes(Strip(q));
    var b := TopBits(q);
    Pow2Eight();
    if b > 8 {
      if b > 9 {
        Pow2Monotone(8, b - 1);
      }
      assert false;
    }
  }

  /** A draw never has more bits than q. */
  lemma CandidateBound(q: int, d: bytes)
    requires q > 0
    ensures Candidate(q, d) < Pow2(BitLength(q))
  {
    LeadingByteOfPositive(q);
    MaskedBound(Urandom(d, |Strip(q)|), TopBits(q), BitLength(q));
  }

  /** Every number of at most as many bits can be drawn. */
  lemma CandidateOnto(q: int, x: nat)
    requires q > 0 && x < Pow2(BitLength(q))
    ensures Candidate(q, Word(x, |Strip(q)|)) == x
  {
    LeadingByteOfPositive(q);
    var w := Word(x, |Strip(q)|);
    assert Urandom(w, |Strip(q)|) == w;
    MaskedOnto(x, |Strip(q)|, TopBits(q), BitLength(q));
  }

  /** Exactly the numbers strictly between 1 and q are ever returned. */
  lemma {:induction false} ExponentsAreExactlyThoseBetween(q: int, x: int)
    ensures 1 < x < q <==> exists draws :: FirstBetween(q, draws).Drawn? && FirstBetween(q, draws).x == x
  {
    if 1 < x < q {
      CandidateOnto(q, x);
      var draws := [Word(x, |Strip(q)|)];
      assert FirstBetween(q, draws).Drawn? && FirstBetween(q, draws).x == x;
    }
    if exists draws :: FirstBetween(q, draws).Drawn? && FirstBetween(q, draws).x == x {
      var draws :| FirstBetween(q, draws).Drawn? && FirstBetween(q, draws).x == x;
      DrawnIsBetween(q, draws);
    }
  }

  lemma {:induction false} DrawnIsBetween(q: int, draws: seq<bytes>)
    ensures FirstBetween(q, draws).Drawn? ==> 1 < FirstBetween(q, draws).x < q
  {
    if draws == [] || 1 < Candidate(q, draws[0]) < q {
    } else {
      DrawnIsBetween(q, draws[1..]);
    }
  }

  // ---- the private exponent for the fixed group ----

  const ALMOST_ALL_ONES: bytes := [127, 255, 255, 255, 255, 255, 255, 255]
  const ALL_ZEROS: bytes := [0, 0, 0, 0, 0, 0, 0, 0]

  /** The 128 bytes of one draw, their top bit cleared. */
  function FixedCandidate(d: bytes): (x: bytes)
    ensures |x| == 128
  {
    Masked(Urandom(d, 128), 0x7f)
  }

  /** The first draw whose first eight bytes are neither all ones, but for the top bit, nor all zeros. */
  function FirstInside(draws: seq<bytes>): Draw {
    if draws == [] then Waits
    else
      var x := FixedCandidate(draws[0]);
      if x[..8] != ALMOST_ALL_ONES && x[..8] != ALL_ZEROS then Drawn(Value(x), draws[1..]) else FirstInside(draws[1..])
  }

  method GenerateFixedX(draws: seq<bytes>) returns (r: Draw)
    ensures r == FirstInside(draws)
  {
    var i := 0;
    while i < |draws|
      invariant 0 <= i <= |draws|
      invariant FirstInside(draws) == FirstInside(draws[i..])
    {
      var bytes := Masked(Urandom(draws[i], 128), 0x7f);
      assert draws[i..][1..] == draws[i + 1..];
      if bytes[..8] != ALMOST_ALL_ONES && bytes[..8] != ALL_ZEROS {
        TopBitClear(draws[i]);
        var x := InflateLong(bytes, false);
        return Drawn(x, draws[i + 1..]);
      }
      i := i + 1;
    }
    r := Waits;
  }

  lemma TopBitClear(d: bytes)
    ensures FixedCandidate(d)[0] < 0x80
  {
    Pow2Eight();
    MaskKeepsSmall(Urandom(d, 128)[0], 7);
  }

  /** Nothing but the top bit of a draw is changed. */
  lemma FixedCandidateClearsTopBit(d: bytes)
    requires |d| == 128
    ensures FixedCandidate(d) == [d[0] % 128] + d[1..]
  {
    AndMask(d[0], 7);
    Pow2Eight();
    assert d[..128] == d;
  }

  /** The first eight bytes are all ones below the top bit, or all zeros. */
  predicate Rejected(d: bytes) {
    var x := FixedCandidate(d);
    (x[0] == 127 && forall i :: 1 <= i < 8 ==> x[i] == 255) || (forall i :: 0 <= i < 8 ==> x[i] == 0)
  }

  lemma RejectedIff(d: bytes)
    ensures Rejected(d) <==> FixedCandidate(d)[..8] == ALMOST_ALL_ONES || FixedCandidate(d)[..8] == ALL_ZEROS
  {
    hide FixedCandidate;
    var x := FixedCandidate(d);
    assert forall i :: 0 <= i < 8 ==> x[..8][i] == x[i];
    if Rejected(d) {
      assert x[..8] == ALMOST_ALL_ONES || x[..8] == ALL_ZEROS;
    }
  }

  /** The draw taken is the first that is not rejected, read as a number; without one all are used up. */
  ghost predicate TakesInside(draws: seq<bytes>, r: Draw) {
    match r
    case Drawn(x, left) =>
      exists k :: 0 <= k < |draws| && x == Value(FixedCandidate(draws[k])) && left == draws[k + 1..]
                  && !Rejected(draws[k]) && forall j :: 0 <= j < k ==> Rejected(draws[j])
    case Waits => forall j :: 0 <= j < |draws| ==> Rejected(draws[j])
    case Spins => false
  }

  lemma InsideFromTail(draws: seq<bytes>, r: Draw)
    requires draws != [] && Rejected(draws[0]) && TakesInside(draws[1..], r)
    ensures TakesInside(draws, r)
  {
    hide FixedCandidate, Rejected;
    var tail := draws[1..];
    if r.Drawn? {
      var k :| 0 <= k < |tail| && r.x == Value(FixedCandidate(tail[k])) && r.left == tail[k + 1..]
               && !Rejected(tail[k]) && forall j :: 0 <= j < k ==> Rejected(tail[j]);
      assert draws[k + 1] == tail[k] && draws[k + 2..] == tail[k + 1..];
      assert forall j :: 0 < j < k + 1 ==> draws[j] == tail[j - 1];
    } else {
      assert forall j :: 0 < j < |draws| ==> draws[j] == tail[j - 1];
    }
  }

  lemma {:induction false} InsideIsFirst(draws: seq<bytes>)
    ensures TakesInside(draws, FirstInside(draws))
  {
    if draws != [] {
      RejectedIff(draws[0]);
      hide FixedCandidate, Rejected;
      if Rejected(draws[0]) {
        InsideIsFirst(draws[1..]);
        hide TakesInside;
        InsideFromTail(draws, FirstInside(draws[1..]));
      }
    }
  }

  /** Above 1 and below half of any modulus of 128 bytes whose first 64 bits are ones, as the fixed group's are. */
  lemma {:induction false} FixedExponentInRange(draws: seq<bytes>, p: int)
    requires p >= (Pow256(8) - 1) * Pow256(120)
    ensures FirstInside(draws).Drawn? ==> 1 < FirstInside(draws).x < Half(p)
  {
    hide FixedCandidate;
    if draws == [] {
    } else {
      var x := FixedCandidate(draws[0]);
      if x[..8] != ALMOST_ALL_ONES && x[..8] != ALL_ZEROS {
        TopBitClear(draws[0]);
        InsideInRange(x, p);
      } else {
        FixedExponentInRange(draws[1..], p);
      }
    }
  }

  lemma InsideInRange(x: bytes, p: int)
    requires |x| == 128 && x[0] < 0x80 && x[..8] != ALMOST_ALL_ONES && x[..8] != ALL_ZEROS
    requires p >= (Pow256(8) - 1) * Pow256(120)
    ensures 1 < Value(x) < Half(p)
  {
    LeadingEight(x[..8]);
    ValueSplit(x, 8);
    ValueBound(x[8..]);
    PowMonotone(1, 120);
    Between(Value(x[..8]), Value(x[8..]), Pow256(120), p);
  }

  /** Eight bytes with a clear top bit, other than the two that are left out. */
  lemma LeadingEight(t: bytes)
    requires |t| == 8 && t[0] < 0x80 && t != ALMOST_ALL_ONES && t != ALL_ZEROS
    ensures 1 <= Value(t) <= Pow256(8) / 2 - 2
  {
    LeadingByte(t);
    Pow256Four();
    ValueFill(7);
    assert Fill(0, 8) == ALL_ZEROS;
    ValueFill(8);
    if Value(t) == 0 {
      ValueInjective(t, ALL_ZEROS);
    }
    assert ALMOST_ALL_ONES == [127] + Fill(255, 7);
    ValueConcat([127], Fill(255, 7));
    ValueOne(127);
    if Value(t) == Value(ALMOST_ALL_ONES) {
      ValueInjective(t, ALMOST_ALL_ONES);
    }
    MulMonotone(t[0] + 1, 128, Pow256(7));
    assert Pow256(8) == 256 * Pow256(7);
  }

  lemma Between(high: int, low: int, b: int, p: int)
    requires b > 1 && 1 <= high <= Pow256(8) / 2 - 2 && 0 <= low < b && p >= (Pow256(8) - 1) * b
    ensures 1 < high * b + low < Half(p)
  {
    Pow256Four();
    var h := Pow256(8) / 2;
    assert Pow256(8) == 2 * h;
    assert high * b >= b;
    assert high * b <= (h - 2) * b;
    assert (2 * h - 1) * b == 2 * ((h - 1) * b) + b;
    assert (h - 2) * b + b == (h - 1) * b;
  }

  /** For a positive modulus the mask loop spins exactly if there is no exponent to draw at all. */
  lemma SpinsIffNothingToDraw(p: int, draws: seq<bytes>)
    requires p > 0
    ensures ExponentDraw(p, draws) == Spins <==> p <= 2
  {
    if p > 2 {
      LeadingByteOfPositive(Half(p));
      BetweenIsFirst(Half(p), draws);
    } else {
      assert Half(p) == 0;
    }
  }

  /** Draw `k` stands for `x`, which is between 1 and `q`, and no draw before it does so. */
  ghost predicate FirstFits(q: int, draws: seq<bytes>, k: nat, x: int) {
    && k < |draws| && 1 < x < q && x == Candidate(q, draws[k])
    && forall j :: 0 <= j < k ==> !(1 < Candidate(q, draws[j]) < q)
  }

  lemma FitsOneLater(q: int, draws: seq<bytes>, k: nat, x: int)
    requires draws != [] && !(1 < Candidate(q, draws[0]) < q) && FirstFits(q, draws[1..], k, x)
    ensures FirstFits(q, draws, k + 1, x)
  {
    hide Candidate;
    var tail := draws[1..];
    forall j | 0 <= j < k + 1
      ensures !(1 < Candidate(q, draws[j]) < q)
    {
      assert j > 0 ==> draws[j] == tail[j - 1];
    }
  }

  /** The draw taken is the first between 1 and `q`, and the ones behind it are left; if none is, all are used up. */
  ghost predicate TakesFirst(q: int, draws: seq<bytes>, r: Draw) {
    match r
    case Drawn(x, left) => exists k :: FirstFits(q, draws, k, x) && left == draws[k + 1..]
    case Waits => forall j :: 0 <= j < |draws| ==> !(1 < Candidate(q, draws[j]) < q)
    case Spins => false
  }

  lemma TakesTheFront(q: int, draws: seq<bytes>)
    requires draws != [] && 1 < Candidate(q, draws[0]) < q
    ensures TakesFirst(q, draws, Drawn(Candidate(q, draws[0]), draws[1..]))
  {
    hide Candidate;
    var k: nat := 0;
    assert FirstFits(q, draws, k, Candidate(q, draws[0])) && draws[1..] == draws[k + 1..];
  }

  lemma TakesFromTail(q: int, draws: seq<bytes>, r: Draw)
    requires draws != [] && !(1 < Candidate(q, draws[0]) < q) && TakesFirst(q, draws[1..], r)
    ensures TakesFirst(q, draws, r)
  {
    hide Candidate;
    var tail := draws[1..];
    match r
    case Drawn(x, left) =>
      var k :| FirstFits(q, tail, k, x) && left == tail[k + 1..];
      FitsOneLater(q, draws, k, x);
      assert draws[k + 2..] == tail[k + 1..];
    case Waits =>
      assert forall j :: 0 < j < |draws| ==> draws[j] == tail[j - 1];
  }

  lemma {:induction false} BetweenIsFirst(q: int, draws: seq<bytes>)
    ensures TakesFirst(q, draws, FirstBetween(q, draws))
  {
    hide Candidate;
    if draws == [] {
    } else if 1 < Candidate(q, draws[0]) < q {
      TakesTheFront(q, draws);
    } else {
      BetweenIsFirst(q, draws[1..]);
      TakesFromTail(q, draws, FirstBetween(q, draws[1..]));
    }
  }

  // ---- a number from 0 to n - 1 ----

  /** The number one draw of `bits` bits stands for; nothing is masked when the bits fill whole bytes. */
  function Roll(bits: nat, d: bytes): nat {
    var x := Urandom(d, (bits + 7) / 8);
    Value(if bits % 8 > 0 then Masked(x, Ones(bits % 8)) else x)
  }

  function FirstBelow(n: int, draws: seq<bytes>): (r: Draw)
    ensures r.Drawn? ==> 0 <= r.x < n
  {
    if draws == [] then Waits
    else
      var x := Roll(BitLength(n - 1), draws[0]);
      if x < n then Drawn(x, draws[1..]) else FirstBelow(n, draws[1..])
  }

  /** The draw taken is the first below `n`, and the ones behind it are left. */
  lemma {:induction false} BelowIsFirst(n: int, draws: seq<bytes>)
    ensures match FirstBelow(n, draws)
            case Drawn(x, left) =>
              exists k :: 0 <= k < |draws| && x < n && x == Roll(BitLength(n - 1), draws[k]) && left == draws[k + 1..]
                          && forall j :: 0 <= j < k ==> Roll(BitLength(n - 1), draws[j]) >= n
            case Waits => forall j :: 0 <= j < |draws| ==> Roll(BitLength(n - 1), draws[j]) >= n
            case Spins => false
  {
    hide Roll;
    if draws != [] && Roll(BitLength(n - 1), draws[0]) >= n {
      var tail := draws[1..];
      BelowIsFirst(n, tail);
      match FirstBelow(n, tail)
      case Drawn(x, left) =>
        var k :| 0 <= k < |tail| && x == Roll(BitLength(n - 1), tail[k]) && left == tail[k + 1..]
                 && forall j :: 0 <= j < k ==> Roll(BitLength(n - 1), tail[j]) >= n;
        assert draws[k + 1] == tail[k] && draws[k + 2..] == tail[k + 1..];
        assert forall j :: 0 < j < k + 1 ==> draws[j] == tail[j - 1];
      case Waits =>
        assert forall j :: 0 < j < |draws| ==> draws[j] == tail[j - 1];
    }
  }

  lemma FirstBelowStep(n: int, draws: seq<bytes>, i: nat)
    requires i < |draws|
    ensures FirstBelow(n, draws[i..]) ==
            var x := Roll(BitLength(n - 1), draws[i]);
            if x < n then Drawn(x, draws[i + 1..]) else FirstBelow(n, draws[i + 1..])
  {
    assert draws[i..][1..] == draws[i + 1..];
  }

  method RollRandom(n: int, draws: seq<bytes>) returns (r: Draw)
    ensures r == FirstBelow(n, draws)
  {
    var bits := BitLength(n - 1);
    var i := 0;
    while i < |draws|
      invariant 0 <= i <= |draws|
      invariant FirstBelow(n, draws) == FirstBelow(n, draws[i..])
    {
      FirstBelowStep(n, draws, i);
      var num := RollOnce(bits, draws[i]);
      if num < n {
        return Drawn(num, draws[i + 1..]);
      }
      i := i + 1;
    }
    r := Waits;
  }

  /** The body of the loop up to its test. */
  method RollOnce(bits: nat, draw: bytes) returns (num: int)
    ensures num == Roll(bits, draw)
  {
    var count := (bits + 7) / 8;
    var mask := Ones(bits % 8);
    var x := Urandom(draw, count);
    assert mask > 0 <==> bits % 8 > 0;
    if mask > 0 {
      x := Masked(x, mask);
    }
    num := InflateLong(x, true);
  }

  /** A draw never has more bits than asked for. */
  lemma RollBound(bits: nat, d: bytes)
    ensures Roll(bits, d) < Pow2(bits)
  {
    var k := (bits + 7) / 8;
    var x := Urandom(d, k);
    if bits % 8 > 0 {
      assert bits % 8 + 8 * (k - 1) == bits;
      MaskedBound(x, bits % 8, bits);
    } else {
      assert 8 * k == bits;
      Pow256IsPow2(k);
      ValueBound(x);
    }
  }

  /** And every number of at most as many bits can be drawn. */
  lemma RollOnto(bits: nat, x: nat)
    requires x < Pow2(bits)
    ensures Roll(bits, Word(x, (bits + 7) / 8)) == x
  {
    var k := (bits + 7) / 8;
    var w := Word(x, k);
    assert Urandom(w, k) == w;
    if bits % 8 > 0 {
      assert bits % 8 + 8 * (k - 1) == bits;
      MaskedOnto(x, k, bits % 8, bits);
    } else {
      assert 8 * k == bits;
      Pow256IsPow2(k);
      WordValue(x, k);
    }
  }

  /** Exactly the numbers from 0 to n - 1 are ever returned. */
  lemma RollsAreExactlyThoseBelow(n: int, x: int)
    ensures 0 <= x < n <==> exists draws :: FirstBelow(n, draws).Drawn? && FirstBelow(n, draws).x == x
  {
    if 0 <= x < n {
      var bits := BitLength(n - 1);
      RollOnto(bits, x);
      var draws := [Word(x, (bits + 7) / 8)];
      assert FirstBelow(n, draws) == Drawn(Roll(bits, draws[0]), draws[1..]);
      assert FirstBelow(n, draws).Drawn? && FirstBelow(n, draws).x == x;
    }
  }
}
