/** Byte strings, their big-endian values, and fixed-width words. */
module Bytes {

  type byte = b: int | 0 <= b < 256

  type bytes = seq<byte>

  const WORD := 0x1_0000_0000

  function Pow256(n: nat): (p: nat)
    ensures p >= 1
  {
    if n == 0 then 1 else 256 * Pow256(n - 1)
  }

  /** The unsigned big-endian value of a byte string. */
  function Value(s: bytes): nat {
    if s == [] then 0 else Value(s[..|s| - 1]) * 256 + s[|s| - 1]
  }

  /** The `k`-byte big-endian form of `n` modulo 256^k. */
  function Word(n: nat, k: nat): (s: bytes)
    ensures |s| == k
  {
    if k == 0 then [] else Word(n / 256, k - 1) + [n % 256]
  }

  function Fill(b: byte, n: nat): (s: bytes)
    ensures |s| == n
    ensures forall i :: 0 <= i < n ==> s[i] == b
  {
    seq(n, i => b)
  }

  lemma {:induction false} PowAdd(a: nat, b: nat)
    ensures Pow256(a + b) == Pow256(a) * Pow256(b)
  {
    if a == 0 {
    } else {
      PowAdd(a - 1, b);
      assert Pow256(a + b) == 256 * (Pow256(a - 1) * Pow256(b));
    }
  }

  lemma {:induction false} PowMonotone(a: nat, b: nat)
    requires a <= b
    ensures Pow256(a) <= Pow256(b)
    ensures a < b ==> 256 * Pow256(a) <= Pow256(b)
    decreases b
  {
    if a == b {
    } else {
      PowMonotone(a, b - 1);
    }
  }

  lemma MulShift(a: int, p: int, v: int, d: int)
    ensures (a * p + v) * 256 + d == a * (256 * p) + (v * 256 + d)
  {
  }

  lemma {:induction false} ValueConcat(a: bytes, b: bytes)
    ensures Value(a + b) == Value(a) * Pow256(|b|) + Value(b)
  {
    if b == [] {
      assert a + b == a;
    } else {
      var init, last := b[..|b| - 1], b[|b| - 1];
      calc {
        Value(a + b);
        { assert (a + b)[..|a + b| - 1] == a + init; }
        Value(a + init) * 256 + last;
        { ValueConcat(a, init); }
        (Value(a) * Pow256(|init|) + Value(init)) * 256 + last;
        { MulShift(Value(a), Pow256(|init|), Value(init), last); }
        Value(a) * (256 * Pow256(|init|)) + (Value(init) * 256 + last);
      }
    }
  }

  lemma {:induction false} ValueBound(s: bytes)
    ensures Value(s) < Pow256(|s|)
  {
    if s == [] {
    } else {
      ValueBound(s[..|s| - 1]);
    }
  }

  lemma ValueSplit(s: bytes, i: nat)
    requires i <= |s|
    ensures Value(s) == Value(s[..i]) * Pow256(|s| - i) + Value(s[i..])
  {
    assert s == s[..i] + s[i..];
    ValueConcat(s[..i], s[i..]);
  }

  lemma ValueOne(b: byte)
    ensures Value([b]) == b
  {
    assert [b][..0] == [];
  }

  /** The first byte fixes the value to within one leading digit. */
  lemma LeadingByte(s: bytes)
    requires s != []
    ensures s[0] * Pow256(|s| - 1) <= Value(s) < (s[0] + 1) * Pow256(|s| - 1)
  {
    ValueSplit(s, 1);
    ValueBound(s[1..]);
    assert s[..1] == [s[0]];
    ValueOne(s[0]);
  }

  lemma {:induction false} ValueInjective(a: bytes, b: bytes)
    requires |a| == |b| && Value(a) == Value(b)
    ensures a == b
  {
    if a == [] {
    } else {
      ValueInjective(a[..|a| - 1], b[..|b| - 1]);
      assert a == a[..|a| - 1] + [a[|a| - 1]];
      assert b == b[..|b| - 1] + [b[|b| - 1]];
    }
  }

  lemma {:induction false} WordValue(n: nat, k: nat)
    requires n < Pow256(k)
    ensures Value(Word(n, k)) == n
  {
    if k == 0 {
    } else {
      WordValue(n / 256, k - 1);
      assert Word(n, k)[..k - 1] == Word(n / 256, k - 1);
    }
  }

  lemma {:induction false} ValueFill(n: nat)
    ensures Value(Fill(0, n)) == 0
    ensures Value(Fill(255, n)) == Pow256(n) - 1
  {
    if n == 0 {
    } else {
      ValueFill(n - 1);
      assert Fill(0, n)[..n - 1] == Fill(0, n - 1);
      assert Fill(255, n)[..n - 1] == Fill(255, n - 1);
    }
  }

  lemma Pow256Four()
    ensures Pow256(1) == 256
    ensures Pow256(4) == WORD
    ensures Pow256(8) == WORD * WORD
  {
    assert Pow256(2) == 0x1_0000;
    assert Pow256(3) == 0x100_0000;
    PowAdd(4, 4);
  }
}
