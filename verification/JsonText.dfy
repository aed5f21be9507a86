/** JSON text: what the encoder writes, and a reader of the grammar of RFC 8259,
    sections 2 to 7, that also lets raw control characters through in strings. */
module JsonTexts {
  import opened Options
  import opened JsonValues
  import opened NumberTexts

  // ---- Text of a value ----------------------------------------------------

  /** Values that the encoder writes exactly: no doubles, and integers that can be negated. */
  ghost predicate Encodable(v: Json) {
    match v
    case Int(i) => -0x8000_0000_0000_0000 < i < 0x8000_0000_0000_0000
    case Double(_) => false
    case Array(items) => forall i :: 0 <= i < |items| ==> Encodable(items[i])
    case Object(ms) => forall i :: 0 <= i < |ms| ==> Encodable(ms[i].value)
    case _ => true
  }

  const INDENT := "    "

  function Indent(depth: nat): string {
    if depth == 0 then "" else INDENT + Indent(depth - 1)
  }

  /** Separator in front of an element, and behind the last one. */
  function ElementSep(pretty: bool, depth: nat): string {
    if pretty then "\n" + Indent(depth) else ""
  }

  function KeySep(pretty: bool): string { if pretty then " " else "" }

  const BACKSPACE := '\U{0008}'

  const FORM_FEED := '\U{000C}'

  function EscapeChar(c: char): (s: string)
    ensures s != []
  {
    if c == '"' then "\\\""
    else if c == '\\' then "\\\\"
    else if c == '/' then "\\/"
    else if c == BACKSPACE then "\\b"
    else if c == FORM_FEED then "\\f"
    else if c == '\n' then "\\n"
    else if c == '\r' then "\\r"
    else if c == '\t' then "\\t"
    else [c]
  }

  function Escaped(s: string): string {
    if s == [] then "" else EscapeChar(s[0]) + Escaped(s[1..])
  }

  function StringText(s: string): string { "\"" + Escaped(s) + "\"" }

  function Text(v: Json, pretty: bool, depth: nat): (s: string)
    requires Encodable(v)
    decreases v, 1
  {
    match v
    case Null => "null"
    case Bool(b) => if b then "true" else "false"
    case Int(i) => IntText(i)
    case Double(_) => ""
    case String(s) => StringText(s)
    case Array(items) =>
      "[" + ItemsText(v, 0, pretty, depth + 1) + (if items == [] then "" else ElementSep(pretty, depth)) + "]"
    case Object(ms) =>
      "{" + MembersText(v, 0, pretty, depth + 1) + (if ms == [] then "" else ElementSep(pretty, depth)) + "}"
  }

  function Comma(k: nat): string { if k == 0 then "" else "," }

  /** The items from number `k` on, each behind its separator. */
  function ItemsText(v: Json, k: nat, pretty: bool, depth: nat): string
    requires v.Array? && Encodable(v) && k <= |v.items|
    decreases v, 0, |v.items| - k
  {
    if k == |v.items| then ""
    else Comma(k) + ElementSep(pretty, depth) + Text(v.items[k], pretty, depth) + ItemsText(v, k + 1, pretty, depth)
  }

  function MembersText(v: Json, k: nat, pretty: bool, depth: nat): string
    requires v.Object? && Encodable(v) && k <= |v.members|
    decreases v, 0, |v.members| - k
  {
    if k == |v.members| then ""
    else Comma(k) + ElementSep(pretty, depth) + StringText(v.members[k].key) + ":" + KeySep(pretty)
         + Text(v.members[k].value, pretty, depth) + MembersText(v, k + 1, pretty, depth)
  }

  // ---- The reader ---------------------------------------------------------

  datatype Read<T> = Fail | Ok(value: T, rest: string)

  predicate IsSpace(c: char) { c == ' ' || c == '\t' || c == '\n' || c == '\r' }

  function SkipSpace(s: string): (r: string)
    ensures |r| <= |s|
    ensures r != [] ==> !IsSpace(r[0])
  {
    if s != [] && IsSpace(s[0]) then SkipSpace(s[1..]) else s
  }

  predicate StartsWith(s: string, prefix: string) { prefix <= s }

  function Unescape(c: char): Option<char> {
    if c == '"' || c == '\\' || c == '/' then Some(c)
    else if c == 'b' then Some(BACKSPACE)
    else if c == 'f' then Some(FORM_FEED)
    else if c == 'n' then Some('\n')
    else if c == 'r' then Some('\r')
    else if c == 't' then Some('\t')
    else None
  }

  function HexValue(c: char): Option<nat> {
    if '0' <= c <= '9' then Some(c as int - '0' as int)
    else if 'a' <= c <= 'f' then Some(c as int - 'a' as int + 10)
    else if 'A' <= c <= 'F' then Some(c as int - 'A' as int + 10)
    else None
  }

  /** Four hexadecimal digits of a character outside the surrogate range. */
  function HexChar(s: string): Option<char>
    requires |s| >= 4
  {
    var a, b, c, d := HexValue(s[0]), HexValue(s[1]), HexValue(s[2]), HexValue(s[3]);
    if a.None? || b.None? || c.None? || d.None? then None
    else
      var x := ((a.value * 16 + b.value) * 16 + c.value) * 16 + d.value;
      if x < 0xD800 || 0xE000 <= x < 0x1_0000 then Some(x as char) else None
  }

  /** The characters of a string up to its closing quotation mark. */
  function ReadString(s: string): (r: Read<string>)
    ensures r.Ok? ==> |r.rest| < |s|
    decreases |s|
  {
    if s == [] then Fail
    else if s[0] == '"' then Ok("", s[1..])
    else if s[0] == '\\' then
      if |s| >= 2 && Unescape(s[1]).Some? then ConsChar(Unescape(s[1]).value, ReadString(s[2..]))
      else if |s| >= 6 && s[1] == 'u' && HexChar(s[2..6]).Some? then
        ConsChar(HexChar(s[2..6]).value, ReadString(s[6..]))
      else Fail
    else ConsChar(s[0], ReadString(s[1..]))
  }

  function ConsChar(c: char, r: Read<string>): Read<string> {
    if r.Ok? then Ok([c] + r.value, r.rest) else Fail
  }

  function DigitRun(s: string): (n: nat)
    ensures n <= |s| && AllDigits(s[..n])
    ensures n < |s| ==> !IsDigit(s[n])
  {
    if s == [] || !IsDigit(s[0]) then 0
    else
      assert forall i :: 0 < i < |s| ==> s[i] == s[1..][i - 1];
      1 + DigitRun(s[1..])
  }

  /** An integer; a fraction or an exponent makes a number that is not one. */
  function ReadNat(s: string): (r: Read<nat>)
    ensures r.Ok? ==> |r.rest| < |s|
  {
    var n := if s != [] && s[0] == '0' then 1 else DigitRun(s);
    if n == 0 || (n < |s| && (s[n] == '.' || s[n] == 'e' || s[n] == 'E')) then Fail
    else Ok(TextValue(s[..n]), s[n..])
  }

  function ReadInt(s: string): (r: Read<Json>)
    ensures r.Ok? ==> |r.rest| < |s|
  {
    if s != [] && s[0] == '-' then
      var r := ReadNat(s[1..]);
      if r.Ok? then (var i: int := r.value; Ok(Int(-i), r.rest)) else Fail
    else
      var r := ReadNat(s);
      if r.Ok? then Ok(Int(r.value), r.rest) else Fail
  }

  function ReadValue(s: string): (r: Read<Json>)
    ensures r.Ok? ==> |r.rest| < |s|
    decreases |s|, 1
  {
    ReadToken(SkipSpace(s))
  }

  /** A value that starts at once. */
  function ReadToken(t: string): (r: Read<Json>)
    ensures r.Ok? ==> |r.rest| < |t|
    decreases |t|, 0
  {
    if StartsWith(t, "null") then Ok(Null, t[4..])
    else if StartsWith(t, "true") then Ok(Bool(true), t[4..])
    else if StartsWith(t, "false") then Ok(Bool(false), t[5..])
    else if t == [] then Fail
    else if t[0] == '"' then
      var r := ReadString(t[1..]);
      if r.Ok? then Ok(String(r.value), r.rest) else Fail
    else if t[0] == '[' then
      var u := SkipSpace(t[1..]);
      if StartsWith(u, "]") then Ok(Array([]), u[1..])
      else
        var r := ReadItems(t[1..]);
        if r.Ok? then Ok(Array(r.value), r.rest) else Fail
    else if t[0] == '{' then
      var u := SkipSpace(t[1..]);
      if StartsWith(u, "}") then Ok(Object([]), u[1..])
      else
        var r := ReadMembers(t[1..]);
        if r.Ok? then Ok(Object(r.value), r.rest) else Fail
    else ReadInt(t)
  }

  function ReadItems(s: string): (r: Read<seq<Json>>)
    ensures r.Ok? ==> |r.rest| < |s|
    decreases |s|, 2
  {
    var v := ReadValue(s);
    if v.Fail? then Fail
    else
      var u := SkipSpace(v.rest);
      if StartsWith(u, "]") then Ok([v.value], u[1..])
      else if StartsWith(u, ",") then
        var r := ReadItems(u[1..]);
        if r.Ok? then Ok([v.value] + r.value, r.rest) else Fail
      else Fail
  }

  function ReadMembers(s: string): (r: Read<seq<Member>>)
    ensures r.Ok? ==> |r.rest| < |s|
    decreases |s|, 2
  {
    var t := SkipSpace(s);
    if !StartsWith(t, "\"") then Fail
    else
      var k := ReadString(t[1..]);
      if k.Fail? then Fail
      else
        var c := SkipSpace(k.rest);
        if !StartsWith(c, ":") then Fail
        else
          var v := ReadValue(c[1..]);
          if v.Fail? then Fail
          else
            var u := SkipSpace(v.rest);
            if StartsWith(u, "}") then Ok([Member(k.value, v.value)], u[1..])
            else if StartsWith(u, ",") then
              var r := ReadMembers(u[1..]);
              if r.Ok? then Ok([Member(k.value, v.value)] + r.value, r.rest) else Fail
            else Fail
  }

  // ---- Reading back -------------------------------------------------------

  /** What may follow a value: nothing that would go on with a number. */
  predicate Delimited(rest: string) {
    rest == [] || !(IsDigit(rest[0]) || rest[0] == '.' || rest[0] == 'e' || rest[0] == 'E')
  }

  lemma Assoc(a: string, b: string, c: string)
    ensures (a + b) + c == a + (b + c)
  {
  }

  /** One character of a string, however it is written. */
  lemma ReadStringStep(c: char, tail: string)
    ensures ReadString(EscapeChar(c) + tail) == ConsChar(c, ReadString(tail))
  {
    var e := EscapeChar(c);
    assert (e + tail)[|e|..] == tail;
    assert (e + tail)[0] == e[0];
    if |e| == 2 {
      assert (e + tail)[1] == e[1] && e[0] == '\\';
      assert Unescape(e[1]) == Some(c);
    } else {
      assert e == [c] && c != '"' && c != '\\';
    }
  }

  lemma {:induction false} ReadStringBack(s: string, rest: string)
    ensures ReadString(Escaped(s) + ("\"" + rest)) == Ok(s, rest)
  {
    if s == [] {
      assert Escaped(s) + ("\"" + rest) == "\"" + rest;
    } else {
      var tail := Escaped(s[1..]) + ("\"" + rest);
      ReadStringBack(s[1..], rest);
      ReadStringStep(s[0], tail);
      Assoc(EscapeChar(s[0]), Escaped(s[1..]), "\"" + rest);
      hide ReadString, EscapeChar;
      assert s == [s[0]] + s[1..];
    }
  }

  lemma {:induction false} DigitRunOf(s: string, rest: string)
    requires AllDigits(s) && (rest == [] || !IsDigit(rest[0]))
    ensures DigitRun(s + rest) == |s|
  {
    if s != [] {
      assert (s + rest)[1..] == s[1..] + rest;
      DigitRunOf(s[1..], rest);
    } else {
      assert s + rest == rest;
    }
  }

  lemma ReadNatBack(n: nat, rest: string)
    requires Delimited(rest)
    ensures ReadNat(NatText(n) + rest) == Ok(n, rest)
  {
    var s := NatText(n);
    NatTextValue(n);
    DigitRunOf(s, rest);
    assert (s + rest)[..|s|] == s && (s + rest)[|s|..] == rest;
  }

  lemma ReadIntBack(i: int, rest: string)
    requires Delimited(rest)
    ensures ReadInt(IntText(i) + rest) == Ok(Int(i), rest)
  {
    var n := if i < 0 then -i else i;
    ReadNatBack(n, rest);
    hide ReadNat, NatText;
    if i < 0 {
      Assoc("-", NatText(n), rest);
      assert ("-" + (NatText(n) + rest))[1..] == NatText(n) + rest;
    } else {
      assert IsDigit(NatText(n)[0]);
      assert (NatText(n) + rest)[0] == NatText(n)[0];
    }
  }

  /** Which rule reads the token. */
  lemma TokenRule(t: string)
    requires t != [] && t[0] != 'n' && t[0] != 't' && t[0] != 'f'
    ensures t[0] == '"' ==>
              ReadToken(t) == (var r := ReadString(t[1..]); if r.Ok? then Ok(String(r.value), r.rest) else Fail)
    ensures t[0] == '[' ==>
              ReadToken(t) == (var u := SkipSpace(t[1..]);
                               if StartsWith(u, "]") then Ok(Array([]), u[1..])
                               else var r := ReadItems(t[1..]); if r.Ok? then Ok(Array(r.value), r.rest) else Fail)
    ensures t[0] == '{' ==>
              ReadToken(t) == (var u := SkipSpace(t[1..]);
                               if StartsWith(u, "}") then Ok(Object([]), u[1..])
                               else var r := ReadMembers(t[1..]); if r.Ok? then Ok(Object(r.value), r.rest) else Fail)
    ensures t[0] == '-' || IsDigit(t[0]) ==> ReadToken(t) == ReadInt(t)
  {
    hide ReadString, SkipSpace, ReadItems, ReadMembers, ReadInt;
    assert "null"[0] == 'n' && "true"[0] == 't' && "false"[0] == 'f';
  }

  lemma {:induction false} SkipSpaces(w: string, s: string)
    requires forall i :: 0 <= i < |w| ==> IsSpace(w[i])
    ensures SkipSpace(w + s) == SkipSpace(s)
  {
    if w != [] {
      assert (w + s)[1..] == w[1..] + s;
      SkipSpaces(w[1..], s);
    } else {
      assert w + s == s;
    }
  }

  lemma {:induction false} SepsAreSpace(pretty: bool, depth: nat)
    ensures forall i :: 0 <= i < |ElementSep(pretty, depth)| ==> IsSpace(ElementSep(pretty, depth)[i])
  {
    IndentIsSpace(depth);
  }

  lemma {:induction false} IndentIsSpace(depth: nat)
    ensures forall i :: 0 <= i < |Indent(depth)| ==> IsSpace(Indent(depth)[i])
  {
    if depth > 0 { IndentIsSpace(depth - 1); }
  }

  /** The end of an array or object, behind its last element. */
  function Close(pretty: bool, depth: nat, bracket: char, rest: string): string {
    ElementSep(pretty, depth) + [bracket] + rest
  }

  lemma CloseSkips(pretty: bool, depth: nat, bracket: char, rest: string)
    requires !IsSpace(bracket)
    ensures SkipSpace(Close(pretty, depth, bracket, rest)) == [bracket] + rest
    ensures !IsDigit(bracket) && bracket != '.' && bracket != 'e' && bracket != 'E' ==>
              Delimited(Close(pretty, depth, bracket, rest))
  {
    SepsAreSpace(pretty, depth);
    SkipSpaces(ElementSep(pretty, depth), [bracket] + rest);
    assert Close(pretty, depth, bracket, rest) == ElementSep(pretty, depth) + ([bracket] + rest);
  }

  /** A text begins neither with white space nor with a closing bracket. */
  lemma TextStarts(v: Json, pretty: bool, depth: nat)
    requires Encodable(v)
    ensures var s := Text(v, pretty, depth); s != [] && !IsSpace(s[0]) && s[0] != ']' && s[0] != '}'
  {
    if v.Int? { assert IsDigit(NatText(if v.i < 0 then -v.i else v.i)[0]); }
  }

  lemma SkipNothing(s: string, rest: string)
    requires s != [] && !IsSpace(s[0])
    ensures SkipSpace(s + rest) == s + rest
  {
  }

  lemma StringBack(s: string, rest: string)
    ensures ReadToken(StringText(s) + rest) == Ok(String(s), rest)
  {
    ReadStringBack(s, rest);
    hide ReadString, Escaped, ReadToken;
    var t := "\"" + (Escaped(s) + ("\"" + rest));
    Assoc("\"" + Escaped(s), "\"", rest);
    Assoc("\"", Escaped(s), "\"" + rest);
    assert StringText(s) + rest == t;
    assert t[1..] == Escaped(s) + ("\"" + rest);
    TokenRule(t);
  }

  lemma IntBack(i: int, rest: string)
    requires Delimited(rest)
    ensures ReadToken(IntText(i) + rest) == Ok(Int(i), rest)
  {
    ReadIntBack(i, rest);
    hide ReadInt, ReadToken, NatText;
    var s := IntText(i);
    assert s != [] && (s[0] == '-' || IsDigit(s[0]));
    assert (s + rest)[0] == s[0];
    TokenRule(s + rest);
  }

  lemma ConstantBack(v: Json, pretty: bool, depth: nat, rest: string)
    requires v.Null? || v.Bool?
    ensures Encodable(v) && ReadToken(Text(v, pretty, depth) + rest) == Ok(v, rest)
  {
    var s := Text(v, pretty, depth);
    assert (s + rest)[|s|..] == rest;
    assert s <= s + rest;
    assert (s + rest)[0] == s[0];
    hide ReadString, SkipSpace, ReadItems, ReadMembers, ReadInt;
    assert s == "true" ==> !("null" <= s + rest) by { assert "null"[0] == 'n'; }
    assert s == "false" ==> !("null" <= s + rest) && !("true" <= s + rest) by {
      assert "null"[0] == 'n' && "true"[0] == 't';
    }
  }

  /** The reader recovers the value from its text, compact or pretty, and stops behind it. */
  lemma {:induction false} ReadBack(v: Json, pretty: bool, depth: nat, rest: string)
    requires Encodable(v) && Delimited(rest)
    ensures ReadValue(Text(v, pretty, depth) + rest) == Ok(v, rest)
    decreases v, 3, 0
  {
    TextStarts(v, pretty, depth);
    SkipNothing(Text(v, pretty, depth), rest);
    hide ReadToken, SkipSpace, Delimited, ItemsText, MembersText, StringText, IntText;
    match v
    case Null => ConstantBack(v, pretty, depth, rest);
    case Bool(b) => ConstantBack(v, pretty, depth, rest);
    case Int(i) => IntBack(i, rest);
    case String(s) => StringBack(s, rest);
    case Array(items) => ArrayBack(v, pretty, depth, rest);
    case Object(ms) => ObjectBack(v, pretty, depth, rest);
  }

  // ---- Arrays -------------------------------------------------------------

  /** What follows the opening bracket, or the comma in front of item `k`. */
  ghost function ItemsBody(v: Json, k: nat, pretty: bool, depth: nat, rest: string): string
    requires v.Array? && Encodable(v) && k < |v.items|
  {
    ElementSep(pretty, depth + 1) + Text(v.items[k], pretty, depth + 1) + ItemsTail(v, k, pretty, depth, rest)
  }

  /** What follows item `k`. */
  ghost function ItemsTail(v: Json, k: nat, pretty: bool, depth: nat, rest: string): string
    requires v.Array? && Encodable(v) && k < |v.items|
  {
    ItemsText(v, k + 1, pretty, depth + 1) + Close(pretty, depth, ']', rest)
  }

  /** Grouping the pieces of an item from the right. */
  lemma RegroupItem(comma: string, e: string, s: string, more: string, close: string)
    ensures (comma + e + s + more) + close == comma + (e + s + (more + close))
  {
    Assoc(comma + e + s, more, close);
    Assoc(comma + e, s, more + close);
    Assoc(comma, e, s + (more + close));
    Assoc(e, s, more + close);
  }

  lemma ItemsFrom(v: Json, k: nat, pretty: bool, depth: nat, rest: string)
    requires v.Array? && Encodable(v) && k < |v.items|
    ensures ItemsText(v, k, pretty, depth + 1) + Close(pretty, depth, ']', rest)
         == Comma(k) + ItemsBody(v, k, pretty, depth, rest)
  {
    var e, s := ElementSep(pretty, depth + 1), Text(v.items[k], pretty, depth + 1);
    var more, close := ItemsText(v, k + 1, pretty, depth + 1), Close(pretty, depth, ']', rest);
    assert ItemsText(v, k, pretty, depth + 1) == Comma(k) + e + s + more;
    assert ItemsBody(v, k, pretty, depth, rest) == e + s + (more + close);
    hide *;
    RegroupItem(Comma(k), e, s, more, close);
  }

  lemma ItemsTailIs(v: Json, k: nat, pretty: bool, depth: nat, rest: string)
    requires v.Array? && Encodable(v) && k < |v.items|
    ensures ItemsTail(v, k, pretty, depth, rest) ==
              if k + 1 == |v.items| then Close(pretty, depth, ']', rest)
              else "," + ItemsBody(v, k + 1, pretty, depth, rest)
    ensures Delimited(ItemsTail(v, k, pretty, depth, rest))
  {
    CloseSkips(pretty, depth, ']', rest);
    if k + 1 == |v.items| {
      assert "" + Close(pretty, depth, ']', rest) == Close(pretty, depth, ']', rest);
    } else {
      ItemsFrom(v, k + 1, pretty, depth, rest);
      hide ItemsText, Close, ItemsBody;
    }
  }

  lemma SpaceRead(sep: string, s: string, tail: string)
    requires forall i :: 0 <= i < |sep| ==> IsSpace(sep[i])
    requires s != [] && !IsSpace(s[0]) && s[0] != ']'
    ensures ReadValue(sep + (s + tail)) == ReadValue(s + tail)
    ensures SkipSpace(sep + (s + tail)) != [] && SkipSpace(sep + (s + tail))[0] != ']'
  {
    hide ReadToken, SkipSpace;
    SkipSpaces(sep, s + tail);
    SkipNothing(s, tail);
    assert (s + tail)[0] == s[0];
  }

  lemma ItemRead(v: Json, k: nat, pretty: bool, depth: nat, rest: string)
    requires v.Array? && Encodable(v) && k < |v.items|
    ensures ReadValue(ItemsBody(v, k, pretty, depth, rest))
         == ReadValue(Text(v.items[k], pretty, depth + 1) + ItemsTail(v, k, pretty, depth, rest))
    ensures SkipSpace(ItemsBody(v, k, pretty, depth, rest)) != []
            && SkipSpace(ItemsBody(v, k, pretty, depth, rest))[0] != ']'
  {
    hide ElementSep, Text, ItemsTail, ReadValue, SkipSpace;
    var sep, s, tail := ElementSep(pretty, depth + 1), Text(v.items[k], pretty, depth + 1),
      ItemsTail(v, k, pretty, depth, rest);
    assert ItemsBody(v, k, pretty, depth, rest) == sep + (s + tail);
    hide *;
    SepsAreSpace(pretty, depth + 1);
    TextStarts(v.items[k], pretty, depth + 1);
    SpaceRead(sep, s, tail);
  }

  lemma {:induction false} ItemsBack(v: Json, k: nat, pretty: bool, depth: nat, rest: string)
    requires v.Array? && Encodable(v) && k < |v.items|
    ensures ReadItems(ItemsBody(v, k, pretty, depth, rest)) == Ok(v.items[k..], rest)
    decreases v, 1, |v.items| - k
  {
    hide *;
    var item, tail := v.items[k], ItemsTail(v, k, pretty, depth, rest);
    var body := ItemsBody(v, k, pretty, depth, rest);
    ItemsTailIs(v, k, pretty, depth, rest);
    ItemRead(v, k, pretty, depth, rest);
    ItemEncodable(v, k);
    ReadBack(item, pretty, depth + 1, tail);
    if k + 1 == |v.items| {
      BracketSkips(pretty, depth, rest);
      assert v.items[k..] == [item];
      LastItem(body, item, tail, rest);
    } else {
      ItemsBack(v, k + 1, pretty, depth, rest);
      assert v.items[k..] == [item] + v.items[k + 1..];
      MoreItems(body, item, ItemsBody(v, k + 1, pretty, depth, rest), v.items[k + 1..], rest);
    }
  }

  lemma ItemEncodable(v: Json, k: nat)
    requires v.Array? && Encodable(v) && k < |v.items|
    ensures Encodable(v.items[k])
  {
  }

  lemma BracketSkips(pretty: bool, depth: nat, rest: string)
    ensures SkipSpace(Close(pretty, depth, ']', rest)) == "]" + rest
  {
    CloseSkips(pretty, depth, ']', rest);
  }

  lemma LastItem(s: string, item: Json, tail: string, rest: string)
    requires ReadValue(s) == Ok(item, tail) && SkipSpace(tail) == "]" + rest
    ensures ReadItems(s) == Ok([item], rest)
  {
    hide ReadValue, SkipSpace;
    assert ("]" + rest)[1..] == rest;
  }

  lemma MoreItems(s: string, item: Json, more: string, items: seq<Json>, rest: string)
    requires ReadValue(s) == Ok(item, "," + more) && ReadItems(more) == Ok(items, rest)
    ensures ReadItems(s) == Ok([item] + items, rest)
  {
    SkipNothing(",", more);
    hide ReadValue, SkipSpace;
    assert ("," + more)[1..] == more;
    assert !("]" <= "," + more) by { assert ("," + more)[0] == ','; }
  }

  lemma {:induction false} ArrayBack(v: Json, pretty: bool, depth: nat, rest: string)
    requires v.Array? && Encodable(v)
    ensures ReadToken(Text(v, pretty, depth) + rest) == Ok(v, rest)
    decreases v, 2, 0
  {
    var t := Text(v, pretty, depth) + rest;
    if v.items == [] {
      EmptyArrayBack(pretty, depth, rest);
    } else {
      var body := ItemsBody(v, 0, pretty, depth, rest);
      ArrayText(v, pretty, depth, rest);
      ItemsBack(v, 0, pretty, depth, rest);
      ItemRead(v, 0, pretty, depth, rest);
      hide Text, ItemsBody, ReadItems, SkipSpace, ReadToken, Encodable;
      assert ("[" + body)[1..] == body;
      TokenRule("[" + body);
      assert v.items[0..] == v.items;
    }
  }

  lemma EmptyArrayBack(pretty: bool, depth: nat, rest: string)
    ensures Encodable(Array([])) && ReadToken(Text(Array([]), pretty, depth) + rest) == Ok(Array([]), rest)
  {
    var s := Text(Array([]), pretty, depth);
    assert s == "[" + "" + "" + "]" == "[]";
    var t := "[" + ("]" + rest);
    Assoc("[", "]", rest);
    assert "[" + "]" == "[]";
    assert t[1..] == "]" + rest && ("]" + rest)[1..] == rest;
    SkipNothing("]", rest);
    TokenRule(t);
    hide ReadToken, Text;
    assert s + rest == t;
  }

  lemma ArrayText(v: Json, pretty: bool, depth: nat, rest: string)
    requires v.Array? && Encodable(v) && v.items != []
    ensures Text(v, pretty, depth) + rest == "[" + ItemsBody(v, 0, pretty, depth, rest)
  {
    var items, sep := ItemsText(v, 0, pretty, depth + 1), ElementSep(pretty, depth);
    ItemsFrom(v, 0, pretty, depth, rest);
    assert Text(v, pretty, depth) == "[" + items + sep + "]";
    assert Close(pretty, depth, ']', rest) == sep + "]" + rest;
    assert Comma(0) + ItemsBody(v, 0, pretty, depth, rest) == ItemsBody(v, 0, pretty, depth, rest);
    hide *;
    RegroupBrackets("[", items, sep, "]", rest);
  }

  /** Grouping the pieces of a bracketed text from the right. */
  lemma RegroupBrackets(open: string, s: string, sep: string, close: string, rest: string)
    ensures (open + s + sep + close) + rest == open + (s + (sep + close + rest))
  {
    Assoc(open + s + sep, close, rest);
    Assoc(sep, close, rest);
    Assoc(open + s, sep, close + rest);
    Assoc(open, s, sep + (close + rest));
  }

  // ---- Objects ------------------------------------------------------------

  /** What follows the key of member `k`. */
  ghost function ValueBody(v: Json, k: nat, pretty: bool, depth: nat, rest: string): string
    requires v.Object? && Encodable(v) && k < |v.members|
  {
    KeySep(pretty) + (Text(v.members[k].value, pretty, depth + 1) + MembersTail(v, k, pretty, depth, rest))
  }

  /** What follows the opening bracket, or the comma in front of member `k`. */
  ghost function MembersBody(v: Json, k: nat, pretty: bool, depth: nat, rest: string): string
    requires v.Object? && Encodable(v) && k < |v.members|
  {
    ElementSep(pretty, depth + 1) + (StringText(v.members[k].key) + (":" + ValueBody(v, k, pretty, depth, rest)))
  }

  ghost function MembersTail(v: Json, k: nat, pretty: bool, depth: nat, rest: string): string
    requires v.Object? && Encodable(v) && k < |v.members|
  {
    MembersText(v, k + 1, pretty, depth + 1) + Close(pretty, depth, '}', rest)
  }

  /** Grouping the pieces of a member from the right. */
  lemma RegroupMember(comma: string, e: string, key: string, sep: string, s: string, more: string, close: string)
    ensures (comma + e + key + ":" + sep + s + more) + close ==
              comma + (e + (key + (":" + (sep + (s + (more + close))))))
  {
    Assoc(comma + e + key + ":" + sep + s, more, close);
    Assoc(comma + e + key + ":" + sep, s, more + close);
    Assoc(comma + e + key + ":", sep, s + (more + close));
    Assoc(comma + e + key, ":", sep + (s + (more + close)));
    Assoc(comma + e, key, ":" + (sep + (s + (more + close))));
    Assoc(comma, e, key + (":" + (sep + (s + (more + close)))));
  }

  lemma MembersFrom(v: Json, k: nat, pretty: bool, depth: nat, rest: string)
    requires v.Object? && Encodable(v) && k < |v.members|
    ensures MembersText(v, k, pretty, depth + 1) + Close(pretty, depth, '}', rest)
         == Comma(k) + MembersBody(v, k, pretty, depth, rest)
  {
    var e, key, sep := ElementSep(pretty, depth + 1), StringText(v.members[k].key), KeySep(pretty);
    var s, more := Text(v.members[k].value, pretty, depth + 1), MembersText(v, k + 1, pretty, depth + 1);
    var close := Close(pretty, depth, '}', rest);
    assert MembersText(v, k, pretty, depth + 1) == Comma(k) + e + key + ":" + sep + s + more;
    assert MembersBody(v, k, pretty, depth, rest) == e + (key + (":" + (sep + (s + (more + close)))));
    hide *;
    RegroupMember(Comma(k), e, key, sep, s, more, close);
  }

  lemma MembersTailIs(v: Json, k: nat, pretty: bool, depth: nat, rest: string)
    requires v.Object? && Encodable(v) && k < |v.members|
    ensures MembersTail(v, k, pretty, depth, rest) ==
              if k + 1 == |v.members| then Close(pretty, depth, '}', rest)
              else "," + MembersBody(v, k + 1, pretty, depth, rest)
    ensures Delimited(MembersTail(v, k, pretty, depth, rest))
  {
    CloseSkips(pretty, depth, '}', rest);
    if k + 1 == |v.members| {
      assert "" + Close(pretty, depth, '}', rest) == Close(pretty, depth, '}', rest);
    } else {
      MembersFrom(v, k + 1, pretty, depth, rest);
      hide MembersText, Close, MembersBody;
    }
  }

  lemma KeySepSkips(pretty: bool, s: string)
    ensures ReadValue(KeySep(pretty) + s) == ReadValue(s)
  {
    hide ReadToken;
    SkipSpaces(KeySep(pretty), s);
  }

  lemma KeySkips(v: Json, k: nat, pretty: bool, depth: nat, rest: string)
    requires v.Object? && Encodable(v) && k < |v.members|
    ensures SkipSpace(MembersBody(v, k, pretty, depth, rest))
         == StringText(v.members[k].key) + (":" + ValueBody(v, k, pretty, depth, rest))
  {
    var sep := ElementSep(pretty, depth + 1);
    var s := StringText(v.members[k].key) + (":" + ValueBody(v, k, pretty, depth, rest));
    SepsAreSpace(pretty, depth + 1);
    assert s[0] == '"';
    hide ElementSep, ValueBody, StringText;
    SkipSpaces(sep, s);
    SkipNothing(s, "");
    assert s + "" == s;
  }

  /** A member whose key and value have been read. */
  lemma MemberRead(s: string, key: string, after: string, value: Json, tail: string)
    requires SkipSpace(s) == StringText(key) + (":" + after) && ReadValue(after) == Ok(value, tail)
    ensures Continues(s, Member(key, value), tail)
  {
    var c := ":" + after;
    var t := "\"" + (Escaped(key) + ("\"" + c));
    ReadStringBack(key, c);
    SkipNothing(":", after);
    Assoc("\"" + Escaped(key), "\"", c);
    Assoc("\"", Escaped(key), "\"" + c);
    assert SkipSpace(s) == t;
    hide ReadString, Escaped, ReadValue, SkipSpace;
    assert t[1..] == Escaped(key) + ("\"" + c);
    assert c[1..] == after;
  }

  lemma MemberHead(v: Json, k: nat, pretty: bool, depth: nat, rest: string)
    requires v.Object? && Encodable(v) && k < |v.members|
    requires var tail := MembersTail(v, k, pretty, depth, rest);
             ReadValue(Text(v.members[k].value, pretty, depth + 1) + tail) == Ok(v.members[k].value, tail)
    ensures Continues(MembersBody(v, k, pretty, depth, rest), v.members[k], MembersTail(v, k, pretty, depth, rest))
  {
    hide ReadValue, SkipSpace, StringText, MembersBody, MembersTail, Text, KeySep, Continues;
    var m, tail := v.members[k], MembersTail(v, k, pretty, depth, rest);
    KeySkips(v, k, pretty, depth, rest);
    KeySepSkips(pretty, Text(m.value, pretty, depth + 1) + tail);
    MemberRead(MembersBody(v, k, pretty, depth, rest), m.key, ValueBody(v, k, pretty, depth, rest), m.value, tail);
  }

  lemma BraceSkips(pretty: bool, depth: nat, rest: string)
    ensures SkipSpace(Close(pretty, depth, '}', rest)) == "}" + rest
  {
    CloseSkips(pretty, depth, '}', rest);
  }

  lemma MemberEncodable(v: Json, k: nat)
    requires v.Object? && Encodable(v) && k < |v.members|
    ensures Encodable(v.members[k].value)
  {
  }

  lemma {:induction false} MembersBack(v: Json, k: nat, pretty: bool, depth: nat, rest: string)
    requires v.Object? && Encodable(v) && k < |v.members|
    ensures ReadMembers(MembersBody(v, k, pretty, depth, rest)) == Ok(v.members[k..], rest)
    decreases v, 1, |v.members| - k
  {
    hide *;
    var m, tail := v.members[k], MembersTail(v, k, pretty, depth, rest);
    var body := MembersBody(v, k, pretty, depth, rest);
    MembersTailIs(v, k, pretty, depth, rest);
    MemberEncodable(v, k);
    ReadBack(m.value, pretty, depth + 1, tail);
    MemberHead(v, k, pretty, depth, rest);
    if k + 1 == |v.members| {
      BraceSkips(pretty, depth, rest);
      assert v.members[k..] == [m];
      LastMember(body, m, tail, rest);
    } else {
      MembersBack(v, k + 1, pretty, depth, rest);
      assert v.members[k..] == [m] + v.members[k + 1..];
      MoreMembers(body, m, tail, MembersBody(v, k + 1, pretty, depth, rest), v.members[k + 1..], rest);
    }
  }

  ghost predicate Continues(s: string, m: Member, tail: string) {
    ReadMembers(s) ==
      var u := SkipSpace(tail);
      if StartsWith(u, "}") then Ok([m], u[1..])
      else if StartsWith(u, ",") then
        var r := ReadMembers(u[1..]);
        if r.Ok? then Ok([m] + r.value, r.rest) else Fail
      else Fail
  }

  lemma LastMember(s: string, m: Member, tail: string, rest: string)
    requires Continues(s, m, tail) && SkipSpace(tail) == "}" + rest
    ensures ReadMembers(s) == Ok([m], rest)
  {
    hide ReadMembers, SkipSpace;
    assert ("}" + rest)[1..] == rest;
  }

  lemma MoreMembers(s: string, m: Member, tail: string, more: string, ms: seq<Member>, rest: string)
    requires Continues(s, m, tail) && tail == "," + more && ReadMembers(more) == Ok(ms, rest)
    ensures ReadMembers(s) == Ok([m] + ms, rest)
  {
    SkipNothing(",", more);
    hide ReadMembers, SkipSpace;
    assert ("," + more)[1..] == more;
    assert !("}" <= "," + more) by { assert ("," + more)[0] == ','; }
  }

  lemma ObjectText(v: Json, pretty: bool, depth: nat, rest: string)
    requires v.Object? && Encodable(v) && v.members != []
    ensures Text(v, pretty, depth) + rest == "{" + MembersBody(v, 0, pretty, depth, rest)
  {
    var ms, sep := MembersText(v, 0, pretty, depth + 1), ElementSep(pretty, depth);
    MembersFrom(v, 0, pretty, depth, rest);
    assert Text(v, pretty, depth) == "{" + ms + sep + "}";
    assert Close(pretty, depth, '}', rest) == sep + "}" + rest;
    assert Comma(0) + MembersBody(v, 0, pretty, depth, rest) == MembersBody(v, 0, pretty, depth, rest);
    hide *;
    RegroupBrackets("{", ms, sep, "}", rest);
  }

  lemma {:induction false} ObjectBack(v: Json, pretty: bool, depth: nat, rest: string)
    requires v.Object? && Encodable(v)
    ensures ReadToken(Text(v, pretty, depth) + rest) == Ok(v, rest)
    decreases v, 2, 0
  {
    if v.members == [] {
      EmptyObjectBack(pretty, depth, rest);
    } else {
      var body := MembersBody(v, 0, pretty, depth, rest);
      ObjectText(v, pretty, depth, rest);
      MembersBack(v, 0, pretty, depth, rest);
      KeySkips(v, 0, pretty, depth, rest);
      assert StringText(v.members[0].key)[0] == '"';
      hide Text, MembersBody, ValueBody, ReadMembers, SkipSpace, ReadToken, Encodable, StringText;
      assert ("{" + body)[1..] == body;
      TokenRule("{" + body);
      assert v.members[0..] == v.members;
    }
  }

  lemma EmptyObjectBack(pretty: bool, depth: nat, rest: string)
    ensures Encodable(Object([])) && ReadToken(Text(Object([]), pretty, depth) + rest) == Ok(Object([]), rest)
  {
    var s := Text(Object([]), pretty, depth);
    assert s == "{" + "" + "" + "}" == "{}";
    var t := "{" + ("}" + rest);
    Assoc("{", "}", rest);
    assert "{" + "}" == "{}";
    assert t[1..] == "}" + rest && ("}" + rest)[1..] == rest;
    SkipNothing("}", rest);
    TokenRule(t);
    hide ReadToken, Text;
    assert s + rest == t;
  }

  /** A whole document. */
  lemma ReadWhole(v: Json, pretty: bool)
    requires Encodable(v)
    ensures ReadValue(Text(v, pretty, 0)) == Ok(v, "")
  {
    ReadBack(v, pretty, 0, "");
    assert Text(v, pretty, 0) + "" == Text(v, pretty, 0);
  }

  // ---- White space outside strings ----------------------------------------

  datatype Place = Outside | InString | AfterBackslash

  function Next(p: Place, c: char): Place {
    match p
    case Outside => if c == '"' then InString else Outside
    case InString => if c == '"' then Outside else if c == '\\' then AfterBackslash else InString
    case AfterBackslash => InString
  }

  function End(p: Place, s: string): Place
    decreases |s|
  {
    if s == [] then p else End(Next(p, s[0]), s[1..])
  }

  /** The text without the white space outside its strings. */
  function Squeeze(p: Place, s: string): string
    decreases |s|
  {
    if s == [] then ""
    else (if p.Outside? && IsSpace(s[0]) then "" else [s[0]]) + Squeeze(Next(p, s[0]), s[1..])
  }

  lemma {:induction false} SqueezeConcat(p: Place, s: string, t: string)
    ensures End(p, s + t) == End(End(p, s), t)
    ensures Squeeze(p, s + t) == Squeeze(p, s) + Squeeze(End(p, s), t)
    decreases |s|
  {
    if s == [] {
      assert s + t == t;
    } else {
      assert (s + t)[1..] == s[1..] + t && (s + t)[0] == s[0];
      SqueezeConcat(Next(p, s[0]), s[1..], t);
    }
  }

  /** The text is left as `to`, and a text that follows it starts outside of strings again. */
  ghost predicate Squeezes(s: string, to: string) {
    Squeeze(Outside, s) == to && End(Outside, s) == Outside
  }

  lemma SqueezesBoth(s: string, to: string, s': string, to': string)
    requires Squeezes(s, to) && Squeezes(s', to')
    ensures Squeezes(s + s', to + to')
  {
    SqueezeConcat(Outside, s, s');
  }

  lemma {:induction false} SpaceSqueezes(s: string)
    requires forall i :: 0 <= i < |s| ==> IsSpace(s[i])
    ensures Squeezes(s, "")
  {
    if s != [] { SpaceSqueezes(s[1..]); }
  }

  lemma {:induction false} PlainSqueezes(s: string)
    requires forall i :: 0 <= i < |s| ==> !IsSpace(s[i]) && s[i] != '"'
    ensures Squeezes(s, s)
  {
    if s != [] {
      PlainSqueezes(s[1..]);
      assert s == [s[0]] + s[1..];
    }
  }

  lemma EscapeInString(c: char)
    ensures Squeeze(InString, EscapeChar(c)) == EscapeChar(c) && End(InString, EscapeChar(c)) == InString
  {
    var e := EscapeChar(c);
    if |e| == 2 {
      assert e == [e[0]] + [e[1]] && e[1..] == [e[1]] && e[0] == '\\';
      assert Squeeze(AfterBackslash, [e[1]]) == [e[1]] + Squeeze(InString, []);
      assert End(AfterBackslash, [e[1]]) == End(InString, []);
    } else {
      assert e == [c] && c != '"' && c != '\\';
      assert Squeeze(InString, [c]) == [c] + Squeeze(InString, []);
    }
  }

  lemma {:induction false} EscapedInString(s: string)
    ensures Squeeze(InString, Escaped(s)) == Escaped(s) && End(InString, Escaped(s)) == InString
  {
    if s != [] {
      EscapedInString(s[1..]);
      EscapeInString(s[0]);
      SqueezeConcat(InString, EscapeChar(s[0]), Escaped(s[1..]));
    }
  }

  lemma StringSqueezes(s: string)
    ensures Squeezes(StringText(s), StringText(s))
  {
    EscapedInString(s);
    SqueezeConcat(InString, Escaped(s), "\"");
    SqueezeConcat(Outside, "\"", Escaped(s) + "\"");
    Assoc("\"", Escaped(s), "\"");
    assert Squeeze(InString, "\"") == "\"" && End(InString, "\"") == Outside;
    assert Squeeze(Outside, "\"") == "\"" && End(Outside, "\"") == InString;
  }

  lemma ConstantSqueezes(v: Json, pretty: bool, d: nat, e: nat)
    requires Encodable(v) && (v.Null? || v.Bool? || v.Int?)
    ensures Squeezes(Text(v, pretty, d), Text(v, false, e))
  {
    if v.Int? {
      var s := NatText(if v.i < 0 then -v.i else v.i);
      assert forall i :: 0 <= i < |s| ==> IsDigit(s[i]);
    }
    PlainSqueezes(Text(v, pretty, d));
  }

  lemma CommaSqueezes(k: nat)
    ensures Squeezes(Comma(k), Comma(k))
  {
    PlainSqueezes(Comma(k));
  }

  lemma SepSqueezes(pretty: bool, d: nat, e: nat)
    ensures Squeezes(ElementSep(pretty, d), ElementSep(false, e))
  {
    SepsAreSpace(pretty, d);
    SpaceSqueezes(ElementSep(pretty, d));
  }

  lemma KeySepSqueezes(pretty: bool)
    ensures Squeezes(KeySep(pretty), KeySep(false))
  {
    SpaceSqueezes(KeySep(pretty));
  }

  lemma BracketsSqueeze(open: char, s: string, to: string, sep: string, sep': string, close: char)
    requires !IsSpace(open) && open != '"' && !IsSpace(close) && close != '"'
    requires Squeezes(s, to) && Squeezes(sep, sep')
    ensures Squeezes([open] + s + sep + [close], [open] + to + sep' + [close])
  {
    PlainSqueezes([open]);
    PlainSqueezes([close]);
    hide Squeezes;
    SqueezesBoth([open], [open], s, to);
    SqueezesBoth([open] + s, [open] + to, sep, sep');
    SqueezesBoth([open] + s + sep, [open] + to + sep', [close], [close]);
  }

  /** Without the white space outside strings every text is the compact text. */
  lemma {:induction false} PrettySqueezes(v: Json, pretty: bool, d: nat, e: nat)
    requires Encodable(v)
    ensures Squeezes(Text(v, pretty, d), Text(v, false, e))
    decreases v, 1
  {
    match v
    case String(s) => StringSqueezes(s);
    case Array(items) =>
      ItemsSqueeze(v, 0, pretty, d + 1, e + 1);
      SepSqueezes(pretty, d, e);
      assert Squeezes("", "");
      hide Squeezes, ItemsText, ElementSep;
      var sep := if items == [] then "" else ElementSep(pretty, d);
      var sep' := if items == [] then "" else ElementSep(false, e);
      BracketsSqueeze('[', ItemsText(v, 0, pretty, d + 1), ItemsText(v, 0, false, e + 1), sep, sep', ']');
    case Object(ms) =>
      MembersSqueeze(v, 0, pretty, d + 1, e + 1);
      SepSqueezes(pretty, d, e);
      assert Squeezes("", "");
      hide Squeezes, MembersText, ElementSep;
      var sep, sep' := if ms == [] then "" else ElementSep(pretty, d), if ms == [] then "" else ElementSep(false, e);
      BracketsSqueeze('{', MembersText(v, 0, pretty, d + 1), MembersText(v, 0, false, e + 1), sep, sep', '}');
    case _ => ConstantSqueezes(v, pretty, d, e);
  }

  lemma {:induction false} ItemsSqueeze(v: Json, k: nat, pretty: bool, d: nat, e: nat)
    requires v.Array? && Encodable(v) && k <= |v.items|
    ensures Squeezes(ItemsText(v, k, pretty, d), ItemsText(v, k, false, e))
    decreases v, 0, |v.items| - k
  {
    if k < |v.items| {
      PrettySqueezes(v.items[k], pretty, d, e);
      ItemsSqueeze(v, k + 1, pretty, d, e);
      CommaSqueezes(k);
      SepSqueezes(pretty, d, e);
      var c, s, t, more := Comma(k), ElementSep(pretty, d), Text(v.items[k], pretty, d), ItemsText(v, k + 1, pretty, d);
      var s', t', more' := ElementSep(false, e), Text(v.items[k], false, e), ItemsText(v, k + 1, false, e);
      assert ItemsText(v, k, pretty, d) == c + s + t + more && ItemsText(v, k, false, e) == c + s' + t' + more';
      hide *;
      SqueezesBoth(c, c, s, s');
      SqueezesBoth(c + s, c + s', t, t');
      SqueezesBoth(c + s + t, c + s' + t', more, more');
    }
  }

  lemma {:induction false} MembersSqueeze(v: Json, k: nat, pretty: bool, d: nat, e: nat)
    requires v.Object? && Encodable(v) && k <= |v.members|
    ensures Squeezes(MembersText(v, k, pretty, d), MembersText(v, k, false, e))
    decreases v, 0, |v.members| - k
  {
    if k < |v.members| {
      var m := v.members[k];
      PrettySqueezes(m.value, pretty, d, e);
      MembersSqueeze(v, k + 1, pretty, d, e);
      CommaSqueezes(k);
      SepSqueezes(pretty, d, e);
      StringSqueezes(m.key);
      KeySepSqueezes(pretty);
      PlainSqueezes(":");
      var c, key, s, ks, t := Comma(k), StringText(m.key), ElementSep(pretty, d), KeySep(pretty),
        Text(m.value, pretty, d);
      var s', ks', t' := ElementSep(false, e), KeySep(false), Text(m.value, false, e);
      var more, more' := MembersText(v, k + 1, pretty, d), MembersText(v, k + 1, false, e);
      assert MembersText(v, k, pretty, d) == c + s + key + ":" + ks + t + more;
      assert MembersText(v, k, false, e) == c + s' + key + ":" + ks' + t' + more';
      hide *;
      SqueezesBoth(c, c, s, s');
      SqueezesBoth(c + s, c + s', key, key);
      SqueezesBoth(c + s + key, c + s' + key, ":", ":");
      SqueezesBoth(c + s + key + ":", c + s' + key + ":", ks, ks');
      SqueezesBoth(c + s + key + ":" + ks, c + s' + key + ":" + ks', t, t');
      SqueezesBoth(c + s + key + ":" + ks + t, c + s' + key + ":" + ks' + t', more, more');
    }
  }
}
