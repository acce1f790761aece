/** Python longs as byte strings: `inflate_long` and `deflate_long`. */
module LongCodec {
  import opened Bytes

  /** The integer a byte string stands for, read as two's complement unless `alwaysPositive`. */
  function Inflate(s: bytes, alwaysPositive: bool): int {
    if !alwaysPositive && s != [] && s[0] >= 0x80 then Value(s) - Pow256(|s|) else Value(s)
  }

  /** The sign that is left over once all significant words of `n` have been shifted out. */
  function Sign(n: int): (r: int) {
    if n < 0 then -1 else 0
  }

  function Filler(n: int): byte {
    if n < 0 then 255 else 0
  }

  /** `n` without leading sign bytes; a single sign byte stands for 0 and -1. */
  function Strip(n: int): (s: bytes)
    ensures s != []
    decreases if n < 0 then -n else n
  {
    if -256 <= n < 256 then [n % 256] else Strip(n / 256) + [n % 256]
  }

  function Deflate(n: int, addSignPadding: bool): (s: bytes)
    ensures s != []
  {
    var s := Strip(n);
    if addSignPadding && n >= 0 && s[0] >= 0x80 then [0] + s
    else if addSignPadding && n < 0 && s[0] < 0x80 then [255] + s
    else s
  }

  /** A non-empty string none of whose leading bytes could be dropped without changing its two's-complement value. */
  predicate Shortest(s: bytes) {
    && s != []
    && (|s| > 1 ==> !(s[0] == 0 && s[1] < 0x80) && !(s[0] == 255 && s[1] >= 0x80))
  }

  // ---- the loops ----

  /** Four bytes, most significant first. */
  function Pack32(n: nat): (s: bytes)
    requires n < WORD
    ensures |s| == 4
  {
    Word(n, 4)
  }

  function Unpack32(s: bytes): (n: nat)
    requires |s| == 4
    ensures n < WORD
  {
    ValueBound(s);
    Pow256Four();
    Value(s)
  }

  method InflateLong(s: bytes, alwaysPositive: bool) returns (out: int)
    ensures out == Inflate(s, alwaysPositive)
  {
    var negative := !alwaysPositive && |s| > 0 && s[0] >= 0x80;
    var filled := s;
    if |s| % 4 != 0 {
      var filler: byte := if negative then 255 else 0;
      filled := Fill(filler, 4 - |s| % 4) + s;
      ZerosAreNeutral(s, 4 - |s| % 4);
      OnesAreNeutral(s, 4 - |s| % 4);
    }
    out := SumOfWords(filled);
    if negative {
      out := out - Pow256(|filled|);
    }
  }

  /** The loop: one word at a time. */
  method SumOfWords(s: bytes) returns (out: nat)
    requires |s| % 4 == 0
    ensures out == Value(s)
  {
    out := 0;
    var i := 0;
    while i < |s|
      invariant 0 <= i <= |s| && i % 4 == 0
      invariant out == Value(s[..i])
    {
      NextWord(s, i);
      out := out * WORD + Unpack32(s[i..i + 4]);
      i := i + 4;
    }
    assert s[..i] == s;
  }

  lemma NextWord(s: bytes, i: nat)
    requires i + 4 <= |s|
    ensures Value(s[..i + 4]) == Value(s[..i]) * WORD + Unpack32(s[i..i + 4])
  {
    Pow256Four();
    ValueConcat(s[..i], s[i..i + 4]);
    assert s[..i + 4] == s[..i] + s[i..i + 4];
  }

  lemma MulMonotone(a: int, b: int, p: nat)
    requires a <= b
    ensures a * p <= b * p
  {
  }

  /** Sign bytes in front do not change the value. */
  lemma ZerosAreNeutral(s: bytes, k: nat)
    ensures Value(Fill(0, k) + s) == Value(s)
  {
    ValueConcat(Fill(0, k), s);
    ValueFill(k);
  }

  lemma {:induction false} OnesAreNeutral(s: bytes, k: nat)
    ensures Value(Fill(255, k) + s) - Pow256(k + |s|) == Value(s) - Pow256(|s|)
  {
    hide Value;
    if k == 0 {
      assert Fill(255, 0) + s == s;
    } else {
      var t := Fill(255, k - 1) + s;
      OnesAreNeutral(s, k - 1);
      assert Fill(255, k) + s == [255] + t;
      ValueConcat([255], t);
      ValueOne(255);
    }
  }

  method DeflateLong(n: int, addSignPadding: bool) returns (s: bytes)
    ensures s == Deflate(n, addSignPadding)
  {
    var m;
    s, m := ShiftOut(n);
    s := DropLeading(n, m, s);
    if addSignPadding {
      if m == 0 && s[0] >= 0x80 {
        s := [0] + s;
      }
      if m == -1 && s[0] < 0x80 {
        s := [255] + s;
      }
    }
  }

  /** The first loop: whole words are shifted out until only the sign is left. */
  method ShiftOut(n: int) returns (s: bytes, m: int)
    ensures m == Sign(n) && n == m * Pow256(|s|) + Value(s)
    ensures s == [] ==> m == n
    ensures s != [] ==> Value(s) != (if n < 0 then Pow256(|s|) - 1 else 0)
  {
    s := [];
    m := n;
    Pow256Four();
    while m != 0 && m != -1
      invariant n == m * Pow256(|s|) + Value(s)
      invariant Sign(m) == Sign(n)
      invariant s == [] ==> m == n
      invariant s != [] && m == Sign(n) ==> Value(s) != (if n < 0 then Pow256(|s|) - 1 else 0)
      decreases if m < 0 then -m else m
    {
      var w := Pack32(m % WORD);
      WordValue(m % WORD, 4);
      ValueConcat(w, s);
      PowAdd(4, |s|);
      ShiftWord(m, Pow256(|s|), Value(s));
      ValueBound(s);
      TopWord(m, Pow256(|s|), Value(s));
      s := w + s;
      m := m / WORD;
    }
  }

  /** The second loop: leading zeros, or leading sign bytes of a negative number, are dropped. */
  method DropLeading(n: int, m: int, whole: bytes) returns (s: bytes)
    requires m == Sign(n) && n == m * Pow256(|whole|) + Value(whole)
    requires whole == [] ==> m == n
    requires whole != [] ==> Value(whole) != (if n < 0 then Pow256(|whole|) - 1 else 0)
    ensures s == Strip(n)
  {
    var filler: byte := if m == 0 then 0 else 255;
    var i := 0;
    while i < |whole| && whole[i] == filler
      invariant 0 <= i <= |whole|
      invariant whole[..i] == Fill(filler, i)
    {
      i := i + 1;
    }
    if i == |whole| {
      s := if m == 0 then [0] else [255];
      ValueFill(i);
      assert whole == Fill(filler, i);
    } else {
      s := whole[i..];
      ZerosAreNeutral(s, i);
      OnesAreNeutral(s, i);
      assert whole == Fill(filler, i) + s;
      StripUnique(n, s);
    }
  }

  lemma ShiftWord(m: int, p: int, v: int)
    ensures m * p + v == (m / WORD) * (WORD * p) + ((m % WORD) * p + v)
  {
    var q, r := m / WORD, m % WORD;
    assert m == q * WORD + r;
    assert (q * WORD + r) * p == q * (WORD * p) + r * p;
  }

  /** A word shifted out of a number other than its own sign is not all sign bits when nothing but the sign remains. */
  lemma TopWord(m: int, p: int, v: int)
    requires m != 0 && m != -1
    requires p >= 1 && 0 <= v < p
    ensures m / WORD == 0 ==> (m % WORD) * p + v != 0
    ensures m / WORD == -1 ==> (m % WORD) * p + v != WORD * p - 1
  {
    if m / WORD == 0 {
      assert m * p >= p;
    }
    if m / WORD == -1 {
      var r := m % WORD;
      assert r <= WORD - 2;
      assert r * p <= (WORD - 2) * p;
    }
  }

  // ---- what the loops compute ----

  lemma {:induction false} StripValue(n: int)
    ensures n == Sign(n) * Pow256(|Strip(n)|) + Value(Strip(n))
    ensures |Strip(n)| > 1 ==> Strip(n)[0] != Filler(n)
    ensures n != Sign(n) ==> Strip(n)[0] != Filler(n)
    decreases if n < 0 then -n else n
  {
    if -256 <= n < 256 {
      ValueOne(n % 256);
    } else {
      StripValue(n / 256);
      assert Strip(n)[..|Strip(n)| - 1] == Strip(n / 256);
    }
  }

  /** Only one string spells `n` without leading sign bytes. */
  lemma {:induction false} StripUnique(n: int, s: bytes)
    requires s != [] && s[0] != Filler(n)
    requires n == Sign(n) * Pow256(|s|) + Value(s)
    ensures s == Strip(n)
    decreases |s|
  {
    var init, last := s[..|s| - 1], s[|s| - 1];
    assert s == init + [last];
    assert n == (Sign(n) * Pow256(|init|) + Value(init)) * 256 + last;
    if |s| == 1 {
      assert init == [];
    } else {
      StripUnique(n / 256, init);
      LeadingByte(init);
      ValueBound(init);
      PowMonotone(0, |init| - 1);
      StripIsLong(n, init);
    }
  }

  lemma StripIsLong(n: int, init: bytes)
    requires init != [] && init[0] != Filler(n)
    requires n / 256 == Sign(n) * Pow256(|init|) + Value(init)
    requires init[0] * Pow256(|init| - 1) <= Value(init) < (init[0] + 1) * Pow256(|init| - 1)
    ensures !(-256 <= n < 256)
  {
    var p := Pow256(|init| - 1);
    if n >= 0 {
      MulMonotone(1, init[0], p);
    } else {
      MulMonotone(init[0] + 1, 255, p);
      assert Pow256(|init|) == 256 * p;
    }
  }

  /** What goes in comes out: two's complement for every integer, plain bytes for every natural number. */
  lemma InflateDeflate(n: int)
    ensures Inflate(Deflate(n, true), false) == n
    ensures n >= 0 ==> Inflate(Deflate(n, false), true) == n
    ensures n >= 0 ==> Inflate(Deflate(n, true), true) == n
  {
    StripValue(n);
    var s := Strip(n);
    ValueConcat([0], s);
    ValueConcat([255], s);
    ValueOne(0);
    ValueOne(255);
    assert |[0] + s| == |s| + 1;
    assert |[255] + s| == |s| + 1;
  }

  lemma DeflateShortest(n: int)
    ensures Shortest(Deflate(n, true))
  {
    StripValue(n);
  }

  /** A shortest string is one that no shorter non-empty string of the same value undercuts. */
  lemma {:induction false} ShortestIsLeast(s: bytes, t: bytes)
    requires Shortest(s) && t != []
    requires Inflate(s, false) == Inflate(t, false)
    ensures |s| <= |t|
    ensures Shortest(t) ==> s == t
  {
    ShorterDiffers(s, t);
    if Shortest(t) {
      ShorterDiffers(t, s);
    }
    if |s| == |t| {
      SignedBounds(s);
      SignedBounds(t);
      ValueInjective(s, t);
    }
  }

  lemma ShorterDiffers(s: bytes, t: bytes)
    requires Shortest(s) && t != []
    ensures |t| < |s| ==> Inflate(s, false) != Inflate(t, false)
  {
    if |t| < |s| {
      SignedBounds(t);
      LongShortestIsLarge(s);
      PowMonotone(|t|, |s| - 1);
    }
  }

  /** `deflate_long` yields the unique shortest non-empty two's-complement form. */
  lemma DeflateIsLeast(n: int, t: bytes)
    requires t != [] && Inflate(t, false) == n
    ensures |Deflate(n, true)| <= |t|
    ensures Shortest(t) ==> t == Deflate(n, true)
  {
    InflateDeflate(n);
    DeflateShortest(n);
    ShortestIsLeast(Deflate(n, true), t);
  }

  lemma SignedBounds(s: bytes)
    requires s != []
    ensures 0 - Pow256(|s|) <= 2 * Inflate(s, false) < Pow256(|s|)
    ensures s[0] >= 0x80 <==> Inflate(s, false) < 0
  {
    LeadingByte(s);
    ValueBound(s);
    var p := Pow256(|s| - 1);
    if s[0] >= 0x80 {
      MulMonotone(128, s[0], p);
    } else {
      MulMonotone(s[0] + 1, 128, p);
    }
  }

  lemma LongShortestIsLarge(s: bytes)
    requires Shortest(s) && |s| > 1
    ensures 2 * Inflate(s, false) < 0 - Pow256(|s| - 1) || 2 * Inflate(s, false) >= Pow256(|s| - 1)
  {
    ValueSplit(s, 1);
    assert s[..1] == [s[0]];
    ValueOne(s[0]);
    var p, tail := Pow256(|s| - 1), s[1..];
    SignedBounds(tail);
    ValueBound(tail);
    if 0 < s[0] < 0x80 {
      MulMonotone(1, s[0], p);
    } else if 0x80 <= s[0] < 255 {
      MulMonotone(s[0], 254, p);
    }
  }
}
