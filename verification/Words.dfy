/** Little-endian sequences of 32-bit words as natural numbers. */
module Words {
  const BASE := 0x1_0000_0000

  const DOUBLE_BASE := 0x1_0000_0000_0000_0000

  /** `ULong` */
  type Word = w: int | 0 <= w < BASE

  /** `ULLong` */
  type DoubleWord = w: int | 0 <= w < DOUBLE_BASE

  ghost function Radix(n: nat): (r: nat)
    ensures r > 0
  {
    if n == 0 then 1 else BASE * Radix(n - 1)
  }

  ghost function Val(s: seq<Word>): nat {
    if s == [] then 0 else Val(s[..|s| - 1]) + Radix(|s| - 1) * s[|s| - 1]
  }

  /** Powers of two, as the shifts use them. */
  function Pow2(n: nat): (r: nat)
    ensures r > 0
  {
    if n == 0 then 1 else 2 * Pow2(n - 1)
  }

  // ---- Arithmetic ---------------------------------------------------------

  lemma MulMonotone(a: nat, b: nat, c: nat)
    requires a <= b
    ensures a * c <= b * c && c * a <= c * b
  {
  }

  lemma MulDistribute(a: int, b: int, c: int, d: int)
    ensures a * (b + c * d) == a * b + (a * c) * d
  {
  }

  lemma {:induction false} Pow2Add(m: nat, n: nat)
    ensures Pow2(m + n) == Pow2(m) * Pow2(n)
  {
    if m > 0 {
      Pow2Add(m - 1, n);
      assert 2 * (Pow2(m - 1) * Pow2(n)) == (2 * Pow2(m - 1)) * Pow2(n);
    }
  }

  lemma {:induction false} Pow2Monotone(m: nat, n: nat)
    requires m <= n
    ensures Pow2(m) <= Pow2(n)
  {
    if m < n { Pow2Monotone(m, n - 1); }
  }

  lemma Pow2Values()
    ensures Pow2(1) == 2 && Pow2(2) == 4 && Pow2(4) == 16 && Pow2(8) == 256 && Pow2(16) == 65536
    ensures Pow2(27) == 0x800_0000 && Pow2(28) == 0x1000_0000 && Pow2(32) == BASE
  {
    assert Pow2(1) == 2 && Pow2(2) == 4;
    assert Pow2(3) == 8;
    assert Pow2(4) == 16;
    Pow2Add(4, 4);
    Pow2Add(8, 8);
    Pow2Add(16, 16);
    Pow2Add(16, 8);
    Pow2Add(24, 3);
    Pow2Add(24, 4);
  }

  lemma {:induction false} RadixIsPow2(n: nat)
    ensures Radix(n) == Pow2(32 * n)
  {
    if n > 0 {
      RadixIsPow2(n - 1);
      Pow2Add(32, 32 * (n - 1));
      Pow2Values();
    }
  }

  lemma {:induction false} RadixAdd(m: nat, n: nat)
    ensures Radix(m + n) == Radix(m) * Radix(n)
  {
    if m > 0 {
      RadixAdd(m - 1, n);
      assert BASE * (Radix(m - 1) * Radix(n)) == (BASE * Radix(m - 1)) * Radix(n);
    }
  }

  lemma {:induction false} RadixMonotone(m: nat, n: nat)
    requires m <= n
    ensures Radix(m) <= Radix(n)
  {
    if m < n { RadixMonotone(m, n - 1); }
  }

  // ---- Values of word sequences -------------------------------------------

  lemma ValNext(s: seq<Word>, i: nat)
    requires i < |s|
    ensures Val(s[..i + 1]) == Val(s[..i]) + Radix(i) * s[i]
  {
    assert s[..i + 1][..i] == s[..i];
  }

  lemma {:induction false} ValBound(s: seq<Word>)
    ensures Val(s) < Radix(|s|)
  {
    if s != [] {
      var t := s[..|s| - 1];
      ValBound(t);
      MulMonotone(s[|s| - 1], BASE - 1, Radix(|s| - 1));
    }
  }

  /** The top word decides the magnitude. */
  lemma ValTop(s: seq<Word>)
    requires s != []
    ensures var top: int := s[|s| - 1];
            Radix(|s| - 1) * top <= Val(s) < Radix(|s| - 1) * (top + 1)
  {
    ValBound(s[..|s| - 1]);
  }

  lemma {:induction false} ValZeros(s: seq<Word>)
    requires forall i :: 0 <= i < |s| ==> s[i] == 0
    ensures Val(s) == 0
  {
    if s != [] { ValZeros(s[..|s| - 1]); }
  }

  lemma {:induction false} ZeroVal(s: seq<Word>)
    requires Val(s) == 0
    ensures forall i :: 0 <= i < |s| ==> s[i] == 0
  {
    if s != [] {
      ValTop(s);
      assert Radix(|s| - 1) * s[|s| - 1] <= 0;
      ZeroVal(s[..|s| - 1]);
    }
  }

  lemma {:induction false} ValConcat(a: seq<Word>, b: seq<Word>)
    ensures Val(a + b) == Val(a) + Radix(|a|) * Val(b)
  {
    if b == [] {
      assert a + b == a;
    } else {
      var n := |b| - 1;
      ValConcat(a, b[..n]);
      RadixAdd(|a|, n);
      MulDistribute(Radix(|a|), Val(b[..n]), Radix(n), b[n]);
      assert (a + b)[..|a| + n] == a + b[..n] && (a + b)[|a| + n] == b[n];
      hide Radix;
      assert Val(a + b) == Val((a + b)[..|a| + n]) + Radix(|a| + n) * b[n];
    }
  }

  /** Longer normalised numbers are greater. */
  lemma LongerIsGreater(a: seq<Word>, b: seq<Word>)
    requires |a| < |b| && b[|b| - 1] != 0
    ensures Val(a) < Val(b)
  {
    ValBound(a);
    ValTop(b);
    RadixMonotone(|a|, |b| - 1);
    MulMonotone(1, b[|b| - 1], Radix(|b| - 1));
  }

  /** Dropping zero words from the top keeps the value. */
  lemma {:induction false} ValTrim(s: seq<Word>, n: nat)
    requires n <= |s| && forall i :: n <= i < |s| ==> s[i] == 0
    ensures Val(s) == Val(s[..n])
  {
    if n < |s| {
      ValTrim(s[..|s| - 1], n);
      assert s[..|s| - 1][..n] == s[..n];
    } else {
      assert s[..n] == s;
    }
  }
}
