/** Decimal text of integers: `encode_int` writes it, `strtol` reads it. */
module NumberTexts {
  import opened Options

  function DigitChar(d: nat): (c: char)
    requires d < 10
    ensures IsDigit(c) && DigitValue(c) == d
  {
    ('0' as int + d) as char
  }

  predicate IsDigit(c: char) { '0' <= c <= '9' }

  function DigitValue(c: char): nat
    requires IsDigit(c)
  {
    c as int - '0' as int
  }

  predicate AllDigits(s: string) { forall i :: 0 <= i < |s| ==> IsDigit(s[i]) }

  function NatText(n: nat): (s: string)
    ensures s != [] && AllDigits(s)
  {
    if n < 10 then [DigitChar(n)] else NatText(n / 10) + [DigitChar(n % 10)]
  }

  function TextValue(s: string): nat
    requires AllDigits(s)
  {
    if s == [] then 0 else 10 * TextValue(s[..|s| - 1]) + DigitValue(s[|s| - 1])
  }

  function IntText(i: int): string {
    if i < 0 then "-" + NatText(-i) else NatText(i)
  }

  /** Reading back what was written; there are no superfluous zeros. */
  lemma {:induction false} NatTextValue(n: nat)
    ensures TextValue(NatText(n)) == n
    ensures n > 0 ==> NatText(n)[0] != '0'
  {
    if n >= 10 {
      NatTextValue(n / 10);
      assert NatText(n)[..|NatText(n)| - 1] == NatText(n / 10);
    } else {
      assert NatText(n)[..0] == [];
    }
  }

  lemma TextSnoc(s: string, c: char)
    requires AllDigits(s) && IsDigit(c)
    ensures AllDigits(s + [c]) && TextValue(s + [c]) == 10 * TextValue(s) + (c as int - '0' as int)
  {
    assert (s + [c])[..|s|] == s;
  }

  lemma Tenfold(x: nat, p: nat, y: nat)
    ensures 10 * (x * p + y) == x * (10 * p) + 10 * y
  {
  }

  /** The digits count by their positions. */
  lemma {:induction false} TextValueMeans(s: string, t: string)
    requires AllDigits(s) && AllDigits(t)
    ensures AllDigits(s + t) && TextValue(s + t) == TextValue(s) * Power(|t|) + TextValue(t)
    ensures |t| == 1 ==> TextValue(t) == t[0] as int - '0' as int
    decreases |t|
  {
    if t == "" {
      assert s + t == s;
    } else {
      var front, c := t[..|t| - 1], t[|t| - 1];
      assert t == front + [c] && s + t == (s + front) + [c];
      assert Power(|t|) == 10 * Power(|front|);
      assert front == "" ==> TextValue(front) == 0;
      TextValueMeans(s, front);
      TextSnoc(front, c);
      hide TextValue, Power;
      TextSnoc(s + front, c);
      Tenfold(TextValue(s), Power(|front|), TextValue(front));
    }
  }

  // ---- Writing ------------------------------------------------------------

  const INT_BUFFER_SIZE := 32

  lemma {:induction false} TextLength(n: nat, k: nat)
    requires 0 < k && n < Power(k)
    ensures |NatText(n)| <= k
    decreases k
  {
    if n >= 10 {
      assert Power(1) == 10;
      TextLength(n / 10, k - 1);
    }
  }

  function Power(k: nat): nat {
    if k == 0 then 1 else 10 * Power(k - 1)
  }

  lemma PowerNineteen()
    ensures Power(19) == 10000000000000000000
  {
    assert Power(6) == 1000000;
    assert Power(12) == 1000000000000;
    assert Power(16) == 10000000000000000;
  }

  /** Fills a buffer from its end; the smallest integer has no positive counterpart. */
  method EncodeInt(i: int) returns (text: string)
    requires -0x8000_0000_0000_0000 < i < 0x8000_0000_0000_0000
    ensures text == IntText(i)
  {
    var buffer := new char[INT_BUFFER_SIZE];
    var p := INT_BUFFER_SIZE;
    var negative := i < 0;
    var val := if negative then -i else i;
    ghost var n := val;
    PowerNineteen();
    TextLength(n, 19);
    p := p - 1;
    buffer[p] := DigitChar(val % 10);
    val := val / 10;
    assert buffer[p..] == [DigitChar(n % 10)];
    while val > 0
      invariant 0 < p < INT_BUFFER_SIZE && 0 <= val
      invariant (if val > 0 then NatText(val) else "") + buffer[p..] == NatText(n)
      decreases val
    {
      assert |NatText(val)| + (INT_BUFFER_SIZE - p) <= 19;
      ghost var written := buffer[p..];
      ghost var before := val;
      p := p - 1;
      buffer[p] := DigitChar(val % 10);
      val := val / 10;
      assert buffer[p..] == [DigitChar(before % 10)] + written;
      assert (if val > 0 then NatText(val) else "") + [DigitChar(before % 10)] == NatText(before);
    }
    if negative {
      p := p - 1;
      buffer[p] := '-';
      assert buffer[p..] == "-" + buffer[p + 1..];
    }
    text := buffer[p..];
  }
}
