/** Replacing characters of a string: how RFC 6901 and RFC 8259 describe escapes. */
module Replacements {
  /** Every character `c` replaced. */
  function ReplaceAll(t: string, c: char, with: string): string {
    if t == [] then [] else (if t[0] == c then with else [t[0]]) + ReplaceAll(t[1..], c, with)
  }

  /** Every pair of the characters `a`, `b` replaced, from left to right. */
  function ReplacePairs(t: string, a: char, b: char, c: char): string {
    if t == [] then []
    else if |t| > 1 && t[0] == a && t[1] == b then [c] + ReplacePairs(t[2..], a, b, c)
    else [t[0]] + ReplacePairs(t[1..], a, b, c)
  }

  lemma {:induction false} ReplaceNext(s: string, t: string, c: char, with: string)
    ensures ReplaceAll(s + t, c, with) == ReplaceAll(s, c, with) + ReplaceAll(t, c, with)
  {
    if s == [] {
      assert s + t == t;
    } else {
      ReplaceNext(s[1..], t, c, with);
      assert (s + t)[1..] == s[1..] + t;
    }
  }

  lemma {:induction false} ReplaceNone(s: string, c: char, with: string)
    requires c !in s
    ensures ReplaceAll(s, c, with) == s
  {
    if s != [] {
      ReplaceNone(s[1..], c, with);
    }
  }

  lemma ReplaceOne(c: char, with: string)
    ensures ReplaceAll([c], c, with) == with
  {
    assert ReplaceAll([c][1..], c, with) == [];
  }
}
