/** JSON Pointer (`src/pointer/jso_pointer.c`; RFC 6901, sections 3 and 4). */
module JsonPointers {
  import opened Options
  import opened JsonValues
  import opened NumberTexts

  // ---- Meaning of a pointer string ----------------------------------------

  function Cons(c: char, t: Option<string>): Option<string> {
    if t.Some? then Some([c] + t.value) else None
  }

  /** Undoes the escapes of one token; every tilde must start one. */
  function Decode(t: string): Option<string> {
    if t == [] then Some([])
    else if t[0] != '~' then Cons(t[0], Decode(t[1..]))
    else if |t| >= 2 && t[1] == '0' then Cons('~', Decode(t[2..]))
    else if |t| >= 2 && t[1] == '1' then Cons('/', Decode(t[2..]))
    else None
  }

  /** The parts between slashes. */
  function Parts(s: string): (ps: seq<string>)
    ensures ps != []
  {
    if s == [] then [[]]
    else
      var rest := Parts(s[1..]);
      if s[0] == '/' then [[]] + rest else [[s[0]] + rest[0]] + rest[1..]
  }

  function DecodeAll(ps: seq<string>): Option<seq<string>> {
    if ps == [] then Some([])
    else
      var t, rest := Decode(ps[0]), DecodeAll(ps[1..]);
      if t.Some? && rest.Some? then Some([t.value] + rest.value) else None
  }

  /** The tokens of a pointer; the empty pointer is refused. */
  function Tokens(s: string): Option<seq<string>> {
    if s != [] && s[0] == '/' then DecodeAll(Parts(s[1..])) else None
  }

  /** Starts with a slash, and every tilde is followed by 0 or 1. */
  predicate WellFormedPointer(s: string) {
    && s != [] && s[0] == '/'
    && forall i :: 0 <= i < |s| && s[i] == '~' ==> i + 1 < |s| && (s[i + 1] == '0' || s[i + 1] == '1')
  }

  function EscapeOf(c: char): string {
    if c == '~' then "~0" else if c == '/' then "~1" else [c]
  }

  function Escape(t: string): string {
    if t == [] then "" else EscapeOf(t[0]) + Escape(t[1..])
  }

  function Print(ts: seq<string>): string {
    if ts == [] then "" else "/" + Escape(ts[0]) + Print(ts[1..])
  }

  // ---- Compiling ----------------------------------------------------------

  function CharAt(s: string, i: nat): char { if i < |s| then s[i] else '\0' }

  /** `memchr` over `n` characters from `start` on. */
  method Memchr(s: string, start: nat, c: char, n: nat) returns (r: Option<nat>)
    requires start + n <= |s|
    ensures r.Some? ==> start <= r.value < start + n && s[r.value] == c
    ensures r.Some? ==> forall i :: start <= i < r.value ==> s[i] != c
    ensures r.None? ==> forall i :: start <= i < start + n ==> s[i] != c
  {
    var i := start;
    while i < start + n
      invariant start <= i <= start + n && forall j :: start <= j < i ==> s[j] != c
    {
      if s[i] == c {
        return Some(i);
      }
      i := i + 1;
    }
    r := None;
  }

  function Prepend(a: string, t: Option<string>): Option<string> {
    if t.Some? then Some(a + t.value) else None
  }

  lemma PrependTwice(a: string, b: string, t: Option<string>)
    ensures Prepend(a, Prepend(b, t)) == Prepend(a + b, t)
  {
    if t.Some? { assert a + (b + t.value) == (a + b) + t.value; }
  }

  lemma {:induction false} DecodePlain(t: string, n: nat)
    requires n <= |t| && forall i :: 0 <= i < n ==> t[i] != '~'
    ensures Decode(t) == Prepend(t[..n], Decode(t[n..]))
  {
    if n > 0 {
      DecodePlain(t[1..], n - 1);
      assert t[1..][n - 1..] == t[n..] && t[..n] == [t[0]] + t[1..][..n - 1];
      assert Decode(t) == Prepend([t[0]], Decode(t[1..]));
      PrependTwice([t[0]], t[1..][..n - 1], Decode(t[n..]));
    } else {
      assert t[0..] == t && t[..0] == [];
      StartsDecoding(Decode(t));
    }
  }

  /** A part whose first tilde is at `n`. */
  lemma DecodeEscape(t: string, n: nat)
    requires n < |t| && t[n] == '~' && forall i :: 0 <= i < n ==> t[i] != '~'
    ensures Decode(t) ==
              if n + 1 < |t| && t[n + 1] == '0' then Prepend(t[..n + 1], Decode(t[n + 2..]))
              else if n + 1 < |t| && t[n + 1] == '1' then Prepend(t[..n] + ['/'], Decode(t[n + 2..]))
              else None
  {
    DecodePlain(t, n);
    var u := t[n..];
    assert Decode(u) == if |u| >= 2 && u[1] == '0' then Cons('~', Decode(u[2..]))
                        else if |u| >= 2 && u[1] == '1' then Cons('/', Decode(u[2..])) else None;
    hide Decode;
    if n + 1 < |t| {
      assert u[2..] == t[n + 2..];
      PrependTwice(t[..n], "~", Decode(t[n + 2..]));
      PrependTwice(t[..n], "/", Decode(t[n + 2..]));
      assert t[..n + 1] == t[..n] + "~";
    }
  }

  /** One token, from `start` to the slash or the end of the string at `end`. */
  method CreateToken(s: string, start: nat, end: nat) returns (token: Option<string>)
    requires start <= end <= |s| && (end < |s| ==> s[end] == '/')
    ensures token == Decode(s[start..end])
  {
    hide Decode;
    var len := end - start;
    var escape1 := Memchr(s, start, '~', len);
    if escape1.None? {
      NoEscape(s[start..end]);
      return Some(s[start..end]);
    }
    var src, dest, tokenLen, copied := start, "", len, 0;
    ghost var whole := Decode(s[start..end]);
    StartsDecoding(whole);
    while true
      invariant start <= src <= end && copied == |dest| && tokenLen - copied == end - src
      invariant escape1.Some? && src <= escape1.value < end && s[escape1.value] == '~'
      invariant forall i :: src <= i < escape1.value ==> s[i] != '~'
      invariant whole == Prepend(dest, Decode(s[src..end]))
      decreases end - src
    {
      var escape2 := escape1.value + 1;
      ghost var t, n := s[src..end], escape1.value - src;
      DecodeEscape(t, n);
      var part: string;
      if CharAt(s, escape2) == '0' {
        part := s[src..escape2];
        assert part == t[..n + 1];
      } else if CharAt(s, escape2) == '1' {
        part := s[src..escape1.value] + ['/'];
        assert part == t[..n] + ['/'];
      } else {
        return None;
      }
      assert t[n + 2..] == s[escape2 + 1..end];
      PrependTwice(dest, part, Decode(s[escape2 + 1..end]));
      dest := dest + part;
      copied := copied + |part|;
      tokenLen := tokenLen - 1;
      src := escape2 + 1;
      if tokenLen <= copied {
        break;
      }
      escape1 := Memchr(s, src, '~', tokenLen - copied);
      if escape1.None? {
        break;
      }
    }
    NoEscape(s[src..end]);
    token := Some(dest + s[src..end]);
  }

  lemma NoEscape(t: string)
    requires forall i :: 0 <= i < |t| ==> t[i] != '~'
    ensures Decode(t) == Some(t)
  {
    DecodePlain(t, |t|);
    assert t[|t|..] == [] && t[..|t|] + [] == t;
  }

  lemma StartsDecoding(t: Option<string>)
    ensures Prepend("", t) == t
  {
    if t.Some? { assert "" + t.value == t.value; }
  }

  /** Taking off the first part. */
  lemma {:induction false} FirstPart(s: string, n: nat)
    requires n <= |s| && (n < |s| ==> s[n] == '/') && forall i :: 0 <= i < n ==> s[i] != '/'
    ensures Parts(s) == if n < |s| then [s[..n]] + Parts(s[n + 1..]) else [s]
  {
    if n > 0 {
      FirstPart(s[1..], n - 1);
      assert s[1..][..n - 1] == s[1..n] && s[..n] == [s[0]] + s[1..n];
      if n < |s| {
        assert s[1..][n..] == s[n + 1..];
        assert ([s[1..n]] + Parts(s[n + 1..]))[1..] == Parts(s[n + 1..]);
      } else {
        assert s == [s[0]] + s[1..];
      }
    } else if s != [] {
      assert s[..0] == [];
    }
  }

  method Compile(s: string) returns (tokens: Option<seq<string>>)
    ensures tokens == Tokens(s)
    ensures tokens.Some? <==> WellFormedPointer(s)
    ensures tokens.Some? ==> tokens.value != []
  {
    hide Parts, Decode, DecodeAll, WellFormedPointer;
    CompilesWhen(s);
    if |s| == 0 {
      return None;
    }
    if s[0] != '/' {
      return None;
    }
    var end := |s|;
    // First, get the number of tokens.
    var tokensCount, pos := 1, 1;
    ghost var all := Parts(s[1..]);
    while true
      invariant 1 <= pos <= end && 1 <= tokensCount
      invariant |all| == tokensCount - 1 + |Parts(s[pos..])|
      decreases end - pos
    {
      var next := Memchr(s, pos, '/', end - pos);
      NextPart(s, pos, next);
      if next.None? {
        break;
      }
      tokensCount := tokensCount + 1;
      pos := next.value + 1;
    }
    pos := 1;
    var ts: seq<string> := [];
    var i := 0;
    AllStarts(DecodeAll(all));
    while i < tokensCount - 1
      invariant 0 <= i < tokensCount && 1 <= pos <= end && |Parts(s[pos..])| == tokensCount - i
      invariant DecodeAll(all) == PrependAll(ts, DecodeAll(Parts(s[pos..])))
    {
      var next := Memchr(s, pos, '/', end - pos);
      NextPart(s, pos, next);
      var token := CreateToken(s, pos, next.value);
      DecodeNext(s[pos..next.value], Parts(s[next.value + 1..]));
      if token.None? {
        return None;
      }
      PrependAllTwice(ts, [token.value], DecodeAll(Parts(s[next.value + 1..])));
      ts := ts + [token.value];
      pos := next.value + 1;
      i := i + 1;
    }
    LastPart(s, pos);
    var token := CreateToken(s, pos, end);
    assert s[pos..end] == s[pos..];
    DecodeNext(s[pos..], []);
    if token.None? {
      return None;
    }
    NoneLeft();
    PrependAllTwice(ts, [token.value], DecodeAll([]));
    ts := ts + [token.value];
    return Some(ts);
  }

  function PrependAll(a: seq<string>, ts: Option<seq<string>>): Option<seq<string>> {
    if ts.Some? then Some(a + ts.value) else None
  }

  lemma PrependAllTwice(a: seq<string>, b: seq<string>, ts: Option<seq<string>>)
    ensures PrependAll(a, PrependAll(b, ts)) == PrependAll(a + b, ts)
  {
    if ts.Some? { assert a + (b + ts.value) == (a + b) + ts.value; }
  }

  lemma AllStarts(ts: Option<seq<string>>)
    ensures PrependAll([], ts) == ts
  {
    if ts.Some? { assert [] + ts.value == ts.value; }
  }

  lemma NoneLeft()
    ensures DecodeAll([]) == Some([])
    ensures forall ts: seq<string> :: ts + [] == ts
  {
  }

  lemma DecodeNext(p: string, ps: seq<string>)
    ensures DecodeAll([p] + ps) == if Decode(p).Some? then PrependAll([Decode(p).value], DecodeAll(ps)) else None
    ensures [p] + [] == [p]
  {
    assert ([p] + ps)[1..] == ps;
  }

  lemma NextPart(s: string, pos: nat, next: Option<nat>)
    requires pos <= |s|
    requires next.Some? ==>
               pos <= next.value < |s| && s[next.value] == '/' && forall i :: pos <= i < next.value ==> s[i] != '/'
    requires next.None? ==> forall i :: pos <= i < |s| ==> s[i] != '/'
    ensures next.Some? ==> Parts(s[pos..]) == [s[pos..next.value]] + Parts(s[next.value + 1..])
    ensures next.None? ==> Parts(s[pos..]) == [s[pos..]]
    ensures |Parts(s[pos..])| > 1 <==> next.Some?
  {
    var t := s[pos..];
    if next.Some? {
      FirstPart(t, next.value - pos);
      assert t[..next.value - pos] == s[pos..next.value] && t[next.value - pos + 1..] == s[next.value + 1..];
    } else {
      FirstPart(t, |t|);
    }
  }

  /** When there is one part left, it is the rest of the string. */
  lemma LastPart(s: string, pos: nat)
    requires pos <= |s| && |Parts(s[pos..])| == 1
    ensures Parts(s[pos..]) == [s[pos..]]
  {
    SinglePart(s[pos..]);
  }

  lemma {:induction false} SinglePart(s: string)
    requires |Parts(s)| == 1
    ensures Parts(s) == [s]
  {
    if s != [] && s[0] != '/' {
      SinglePart(s[1..]);
      assert s == [s[0]] + s[1..];
    }
  }

  // ---- When a pointer compiles --------------------------------------------

  /** Every tilde from the front on starts an escape. */
  predicate Escapes(s: string) {
    s == [] || (if s[0] == '~' then |s| >= 2 && (s[1] == '0' || s[1] == '1') && Escapes(s[2..]) else Escapes(s[1..]))
  }

  lemma {:induction false} EscapesMeans(s: string)
    ensures Escapes(s) <==>
              forall i :: 0 <= i < |s| && s[i] == '~' ==> i + 1 < |s| && (s[i + 1] == '0' || s[i + 1] == '1')
  {
    if s != [] {
      if s[0] != '~' {
        EscapesMeans(s[1..]);
        assert forall i :: 0 < i < |s| ==> s[i] == s[1..][i - 1];
      } else if |s| >= 2 && (s[1] == '0' || s[1] == '1') {
        EscapesMeans(s[2..]);
        assert forall i :: 1 < i < |s| ==> s[i] == s[2..][i - 2];
      }
    }
  }

  /** The text behind the first slash that the tokens are printed as. */
  function PrintTail(ts: seq<string>): string
    requires ts != []
  {
    Escape(ts[0]) + Print(ts[1..])
  }

  /** A text decodes exactly when its tildes start escapes, and printing gives it back. */
  lemma {:induction false} DecodesWhen(s: string)
    ensures DecodeAll(Parts(s)).Some? <==> Escapes(s)
    ensures DecodeAll(Parts(s)).Some? ==>
              DecodeAll(Parts(s)).value != [] && PrintTail(DecodeAll(Parts(s)).value) == s
    decreases |s|
  {
    if s == [] {
      DecodeNext([], []);
      NoneLeft();
      assert Decode([]) == Some([]) && Escape([]) == "" && Print([]) == "";
      var none: seq<string> := [""];
      assert none + [] == none && none[1..] == [];
    } else if s[0] == '/' {
      DecodesWhen(s[1..]);
      SlashFirst(s);
    } else if s[0] != '~' {
      DecodesWhen(s[1..]);
      PlainFirst(s, s[0], Parts(s[1..]));
    } else if |s| >= 2 && (s[1] == '0' || s[1] == '1') {
      DecodesWhen(s[2..]);
      assert s[1..][1..] == s[2..];
      EscapeFirst(s, Parts(s[2..]));
    } else {
      BadEscape(s);
    }
  }

  lemma SlashFirst(s: string)
    requires s != [] && s[0] == '/'
    requires DecodeAll(Parts(s[1..])).Some? ==>
               DecodeAll(Parts(s[1..])).value != [] && PrintTail(DecodeAll(Parts(s[1..])).value) == s[1..]
    ensures DecodeAll(Parts(s)).Some? <==> DecodeAll(Parts(s[1..])).Some?
    ensures DecodeAll(Parts(s)).Some? ==>
              DecodeAll(Parts(s)).value != [] && PrintTail(DecodeAll(Parts(s)).value) == s
  {
    var rest := Parts(s[1..]);
    PartsSlash(s);
    DecodeNext("", rest);
    assert Decode("") == Some("") && Escape("") == "";
    hide Parts, Decode, Escape, Print, DecodeAll;
    if DecodeAll(rest).Some? {
      var ts := DecodeAll(rest).value;
      PrintUnfold(ts);
      assert ([""] + ts)[1..] == ts && s == "/" + s[1..];
      assert "" + Print(ts) == Print(ts);
    }
  }

  lemma PrintUnfold(ts: seq<string>)
    requires ts != []
    ensures Print(ts) == "/" + PrintTail(ts)
  {
    assert "/" + (Escape(ts[0]) + Print(ts[1..])) == "/" + Escape(ts[0]) + Print(ts[1..]);
  }

  lemma PartsSlash(s: string)
    requires s != [] && s[0] == '/'
    ensures Parts(s) == [[]] + Parts(s[1..])
  {
  }

  /** The escape of a character in front of a part. */
  lemma DecodeFront(c: char, t: string)
    ensures Decode(EscapeOf(c) + t) == Cons(c, Decode(t))
  {
    var e := EscapeOf(c);
    assert (e + t)[|e|..] == t && (e + t)[0] == e[0];
    if |e| == 2 { assert (e + t)[1] == e[1]; }
  }

  lemma EscapeFront(c: char, t: string)
    ensures Escape([c] + t) == EscapeOf(c) + Escape(t)
  {
    assert ([c] + t)[1..] == t;
  }

  lemma EscapesBoth(e: string, a: string, b: string)
    ensures (e + a) + b == e + (a + b)
  {
  }

  /** The first part of a text gets one more escaped character in front. */
  lemma FrontDecodes(c: char, rest: seq<string>, s: string, ps: seq<string>)
    requires rest != [] && ps == [EscapeOf(c) + rest[0]] + rest[1..]
    requires DecodeAll(rest).Some? ==> DecodeAll(rest).value != [] && PrintTail(DecodeAll(rest).value) == s
    ensures DecodeAll(ps).Some? <==> DecodeAll(rest).Some?
    ensures DecodeAll(ps).Some? ==> DecodeAll(ps).value != [] && PrintTail(DecodeAll(ps).value) == EscapeOf(c) + s
  {
    DecodeFront(c, rest[0]);
    DecodeNext(EscapeOf(c) + rest[0], rest[1..]);
    DecodeNext(rest[0], rest[1..]);
    assert rest == [rest[0]] + rest[1..];
    hide Decode, Escape, Print, DecodeAll, EscapeOf;
    if DecodeAll(rest).Some? {
      var t, more := Decode(rest[0]).value, DecodeAll(rest[1..]).value;
      assert DecodeAll(rest).value == [t] + more && DecodeAll(ps).value == [[c] + t] + more;
      assert ([t] + more)[1..] == more && ([[c] + t] + more)[1..] == more;
      EscapeFront(c, t);
      EscapesBoth(EscapeOf(c), Escape(t), Print(more));
    }
  }

  lemma PlainFirst(s: string, c: char, rest: seq<string>)
    requires s != [] && s[0] == c && c != '/' && c != '~' && rest == Parts(s[1..])
    requires DecodeAll(rest).Some? ==> DecodeAll(rest).value != [] && PrintTail(DecodeAll(rest).value) == s[1..]
    ensures DecodeAll(Parts(s)).Some? <==> DecodeAll(rest).Some?
    ensures DecodeAll(Parts(s)).Some? ==>
              DecodeAll(Parts(s)).value != [] && PrintTail(DecodeAll(Parts(s)).value) == s
  {
    assert EscapeOf(c) == [c];
    assert Parts(s) == [[c] + rest[0]] + rest[1..];
    hide DecodeAll, Parts, PrintTail, EscapeOf;
    FrontDecodes(c, rest, s[1..], Parts(s));
    assert s == [c] + s[1..];
  }

  lemma EscapeFirst(s: string, rest: seq<string>)
    requires |s| >= 2 && s[0] == '~' && (s[1] == '0' || s[1] == '1') && rest == Parts(s[2..])
    requires DecodeAll(rest).Some? ==> DecodeAll(rest).value != [] && PrintTail(DecodeAll(rest).value) == s[2..]
    ensures DecodeAll(Parts(s)).Some? <==> DecodeAll(rest).Some?
    ensures DecodeAll(Parts(s)).Some? ==>
              DecodeAll(Parts(s)).value != [] && PrintTail(DecodeAll(Parts(s)).value) == s
  {
    var c := if s[1] == '0' then '~' else '/';
    TwoParts(s);
    assert s[..2] == ['~', s[1]] == EscapeOf(c);
    hide DecodeAll, Parts, PrintTail, EscapeOf;
    FrontDecodes(c, rest, s[2..], Parts(s));
    assert s == s[..2] + s[2..];
  }

  lemma TwoParts(s: string)
    requires |s| >= 2 && s[0] != '/' && s[1] != '/'
    ensures var rest := Parts(s[2..]);
            Parts(s) == [s[..2] + rest[0]] + rest[1..]
  {
    var rest := Parts(s[2..]);
    assert s[1..][1..] == s[2..];
    assert Parts(s[1..]) == [[s[1]] + rest[0]] + rest[1..];
    assert ([[s[1]] + rest[0]] + rest[1..])[1..] == rest[1..];
    assert [s[0]] + ([s[1]] + rest[0]) == s[..2] + rest[0];
  }

  lemma BadEscape(s: string)
    requires s != [] && s[0] == '~' && (|s| >= 2 ==> s[1] != '0' && s[1] != '1')
    ensures DecodeAll(Parts(s)).None?
  {
    var rest := Parts(s[1..]);
    assert Parts(s) == [[s[0]] + rest[0]] + rest[1..];
    var p := Parts(s)[0];
    if |s| >= 2 && s[1] != '/' {
      assert s[1..][0] == s[1] && rest[0][0] == s[1];
      assert p[1] == s[1];
    } else {
      assert rest[0] == [];
      assert |p| == 1;
    }
    assert p[0] == '~';
    assert Decode(p).None?;
  }

  /** Exactly the well-formed pointers compile, and a compiled one prints as it was. */
  lemma CompilesWhen(s: string)
    ensures Tokens(s).Some? <==> WellFormedPointer(s)
    ensures Tokens(s).Some? ==> Tokens(s).value != [] && Print(Tokens(s).value) == s
  {
    if s != [] && s[0] == '/' {
      DecodesWhen(s[1..]);
      EscapesMeans(s[1..]);
      TildesBehindSlash(s);
      hide Parts, DecodeAll, Decode, Escape, Escapes;
      if Tokens(s).Some? {
        PrintUnfold(Tokens(s).value);
        assert s == "/" + s[1..];
      }
    }
  }

  lemma TildesBehindSlash(s: string)
    requires s != [] && s[0] == '/'
    ensures WellFormedPointer(s) <==>
              forall i :: 0 <= i < |s[1..]| && s[1..][i] == '~' ==>
                i + 1 < |s[1..]| && (s[1..][i + 1] == '0' || s[1..][i + 1] == '1')
  {
    var t := s[1..];
    assert forall i :: 0 < i < |s| ==> s[i] == t[i - 1];
    assert forall i :: 0 <= i < |t| ==> t[i] == s[i + 1];
  }

  // ---- Printing undoes compiling, and compiling undoes printing ------------

  lemma {:induction false} DecodeEscaped(t: string)
    ensures Decode(Escape(t)) == Some(t)
    ensures forall i :: 0 <= i < |Escape(t)| ==> Escape(t)[i] != '/'
  {
    if t != [] {
      DecodeEscaped(t[1..]);
      DecodeFront(t[0], Escape(t[1..]));
      assert t == [t[0]] + t[1..];
    }
  }

  lemma {:induction false} TailTokens(ts: seq<string>)
    requires ts != []
    ensures DecodeAll(Parts(PrintTail(ts))) == Some(ts)
    decreases |ts|
  {
    var e, s := Escape(ts[0]), PrintTail(ts);
    DecodeEscaped(ts[0]);
    if |ts| == 1 {
      assert Print(ts[1..]) == "" && s == e;
      FirstPart(s, |e|);
      DecodeNext(e, []);
      NoneLeft();
      assert ts == [ts[0]] + [];
    } else {
      TailTokens(ts[1..]);
      PrintUnfold(ts[1..]);
      hide Parts, Decode, Escape, DecodeAll, Print;
      assert s[|e|..] == "/" + PrintTail(ts[1..]);
      assert s[..|e|] == e && s[|e| + 1..] == PrintTail(ts[1..]);
      FirstPart(s, |e|);
      DecodeNext(e, Parts(PrintTail(ts[1..])));
      assert ts == [ts[0]] + ts[1..];
    }
  }

  /** Escaping and printing any tokens gives a pointer that compiles to them. */
  lemma PrintThenCompile(ts: seq<string>)
    requires ts != []
    ensures Tokens(Print(ts)) == Some(ts)
  {
    TailTokens(ts);
    PrintUnfold(ts);
    assert Print(ts)[1..] == PrintTail(ts);
    hide Parts, Decode, Escape, DecodeAll, Print;
  }

  // ---- Resolving ----------------------------------------------------------

  datatype PointerError = NotFound | InvalidArrayIndex

  datatype Resolution = Found(value: Json) | Failed(error: PointerError)

  const INT_MAX := 0x7fff_ffff_ffff_ffff

  const INT_MIN := -0x8000_0000_0000_0000

  predicate IsBlank(c: char) {
    c == ' ' || c == '\t' || c == '\n' || c == '\r' || c == '\U{000B}' || c == '\U{000C}'
  }

  function SkipBlanks(s: string): string {
    if s != [] && IsBlank(s[0]) then SkipBlanks(s[1..]) else s
  }

  function Clamp(i: int): int {
    if i > INT_MAX then INT_MAX else if i < INT_MIN then INT_MIN else i
  }

  /** `strtol` up to the end of the token.  A token without digits is a number only when
      it is empty, and then it is zero. */
  function StringToInt(s: string): Option<int> {
    var t := SkipBlanks(s);
    var digits := if t != [] && (t[0] == '-' || t[0] == '+') then t[1..] else t;
    if s == [] then Some(0)
    else if digits == [] || !AllDigits(digits) then None
    else
      var n: int := TextValue(digits);
      Some(Clamp(if t[0] == '-' then -n else n))
  }

  /** `jso_pointer_search` */
  function Search(ts: seq<string>, doc: Json): Resolution
    decreases |ts|
  {
    if ts == [] then Found(doc)
    else
      match doc
      case Object(members) =>
        var i := Find(members, ts[0]);
        if i.None? then Failed(NotFound) else Search(ts[1..], members[i.value].value)
      case Array(items) =>
        var index := StringToInt(ts[0]);
        if index.None? then Failed(InvalidArrayIndex)
        else if index.value < 0 || index.value >= |items| then Failed(NotFound)
        else Search(ts[1..], items[index.value])
      case _ => Failed(NotFound)
  }

  method Resolve(pointer: string, doc: Json) returns (r: Option<Resolution>)
    ensures r.Some? <==> WellFormedPointer(pointer)
    ensures r.Some? ==> Tokens(pointer).Some? && r.value == Search(Tokens(pointer).value, doc)
  {
    var tokens := Compile(pointer);
    if tokens.None? {
      return None;
    }
    r := Some(Search(tokens.value, doc));
  }

  // ---- Paths --------------------------------------------------------------

  datatype Step = Key(key: string) | Item(index: nat)

  function StepToken(step: Step): string {
    match step
    case Key(k) => k
    case Item(i) => NatText(i)
  }

  function PathTokens(path: seq<Step>): (ts: seq<string>)
    ensures |ts| == |path|
  {
    if path == [] then [] else [StepToken(path[0])] + PathTokens(path[1..])
  }

  /** The value at the path, if the path exists. */
  function Subtree(doc: Json, path: seq<Step>): Option<Json>
    decreases |path|
  {
    if path == [] then Some(doc)
    else
      match (doc, path[0])
      case (Object(members), Key(k)) =>
        var i := Find(members, k);
        if i.None? then None else Subtree(members[i.value].value, path[1..])
      case (Array(items), Item(i)) => if i < |items| then Subtree(items[i], path[1..]) else None
      case _ => None
  }

  lemma NatTextToInt(i: nat)
    requires i <= INT_MAX
    ensures StringToInt(NatText(i)) == Some(i)
  {
    NatTextValue(i);
    assert IsDigit(NatText(i)[0]);
  }

  /** Array positions that an index token can express. */
  ghost predicate Indexable(path: seq<Step>) {
    forall j :: 0 <= j < |path| && path[j].Item? ==> path[j].index <= INT_MAX
  }

  lemma {:induction false} SearchAlong(doc: Json, path: seq<Step>)
    requires Indexable(path) && Subtree(doc, path).Some?
    ensures Search(PathTokens(path), doc) == Found(Subtree(doc, path).value)
    decreases |path|
  {
    if path != [] {
      var ts := PathTokens(path);
      assert ts[0] == StepToken(path[0]) && ts[1..] == PathTokens(path[1..]);
      hide NatText, StringToInt, PathTokens;
      match (doc, path[0])
      case (Object(members), Key(k)) =>
        SearchAlong(members[Find(members, k).value].value, path[1..]);
      case (Array(items), Item(i)) =>
        assert path[0].index <= INT_MAX;
        NatTextToInt(i);
        SearchAlong(items[i], path[1..]);
    }
  }

  /** The pointer printed for any path below the root resolves to the value at that path. */
  lemma PrintedPathResolves(doc: Json, path: seq<Step>)
    requires path != [] && Indexable(path) && Subtree(doc, path).Some?
    ensures Tokens(Print(PathTokens(path))).Some?
    ensures Search(Tokens(Print(PathTokens(path))).value, doc) == Found(Subtree(doc, path).value)
  {
    PrintThenCompile(PathTokens(path));
    SearchAlong(doc, path);
  }

  // ---- What a search finds ------------------------------------------------

  /** The item that a search takes for the token in an array of this length. */
  function TakenIndex(t: string, length: nat): (i: Option<nat>)
    ensures i.Some? ==> i.value < length
  {
    var i := StringToInt(t);
    if i.None? || i.value < 0 || i.value >= length then None else Some(i.value)
  }

  function ConsStep(step: Step, path: Option<seq<Step>>): Option<seq<Step>> {
    if path.Some? then Some([step] + path.value) else None
  }

  /** The path that a search takes when it finds something. */
  function TakenPath(ts: seq<string>, doc: Json): Option<seq<Step>>
    decreases |ts|
  {
    if ts == [] then Some([])
    else
      match doc
      case Object(members) =>
        var i := Find(members, ts[0]);
        if i.None? then None else ConsStep(Key(ts[0]), TakenPath(ts[1..], members[i.value].value))
      case Array(items) =>
        var i := TakenIndex(ts[0], |items|);
        if i.None? then None else ConsStep(Item(i.value), TakenPath(ts[1..], items[i.value]))
      case _ => None
  }

  /** A search finds something exactly when it takes a path, and what it finds lies there. */
  lemma {:induction false} FoundSomewhere(ts: seq<string>, doc: Json)
    ensures Search(ts, doc).Found? <==> TakenPath(ts, doc).Some?
    ensures var path := TakenPath(ts, doc);
            path.Some? ==> |path.value| == |ts| && Subtree(doc, path.value) == Some(Search(ts, doc).value)
    decreases |ts|, 1
  {
    if ts != [] {
      hide StringToInt;
      match doc {
        case Object(members) =>
          var i := Find(members, ts[0]);
          if i.Some? {
            FoundBelow(ts, doc, Key(ts[0]), members[i.value].value);
          }
        case Array(items) =>
          var i := TakenIndex(ts[0], |items|);
          if i.Some? {
            FoundBelow(ts, doc, Item(i.value), items[i.value]);
          }
        case _ =>
      }
    }
  }

  lemma {:induction false} FoundBelow(ts: seq<string>, doc: Json, step: Step, child: Json)
    requires ts != [] && TakenPath(ts, doc) == ConsStep(step, TakenPath(ts[1..], child))
    requires Search(ts, doc) == Search(ts[1..], child)
    requires Subtree(doc, [step]) == Some(child)
    ensures Search(ts, doc).Found? <==> TakenPath(ts, doc).Some?
    ensures var path := TakenPath(ts, doc);
            path.Some? ==> |path.value| == |ts| && Subtree(doc, path.value) == Some(Search(ts, doc).value)
    decreases |ts|, 0
  {
    FoundSomewhere(ts[1..], child);
    hide Search, TakenPath;
    assert [step][1..] == [];
    var rest := TakenPath(ts[1..], child);
    if rest.Some? {
      assert ([step] + rest.value)[1..] == rest.value;
    }
  }
}
