/** How the encoder's text looks, told apart from the functions that write it: its escapes
    by replacement (RFC 8259, section 7), and pretty output as compact output with line
    breaks, four blanks for every open bracket, and a blank behind every colon
    (`src/jso_encoder.h`, lines 33-53). */
module TextLayouts {
  import opened Options
  import opened JsonValues
  import opened NumberTexts
  import opened JsonTexts
  import opened Replacements
  import StrictTexts

  // ---- Escapes ------------------------------------------------------------

  /** The backslash first, and then the others that have an escape. */
  function EscapesOf(s: string): string {
    var s1 := ReplaceAll(s, '\\', "\\\\");
    var s2 := ReplaceAll(s1, '"', "\\\"");
    var s3 := ReplaceAll(s2, '/', "\\/");
    var s4 := ReplaceAll(s3, '\U{0008}', "\\b");
    var s5 := ReplaceAll(s4, '\U{000C}', "\\f");
    var s6 := ReplaceAll(s5, '\n', "\\n");
    var s7 := ReplaceAll(s6, '\r', "\\r");
    ReplaceAll(s7, '\t', "\\t")
  }

  lemma EscapesNext(s: string, t: string)
    ensures EscapesOf(s + t) == EscapesOf(s) + EscapesOf(t)
  {
    hide ReplaceAll;
    var s1, t1 := ReplaceAll(s, '\\', "\\\\"), ReplaceAll(t, '\\', "\\\\");
    var s2, t2 := ReplaceAll(s1, '"', "\\\""), ReplaceAll(t1, '"', "\\\"");
    var s3, t3 := ReplaceAll(s2, '/', "\\/"), ReplaceAll(t2, '/', "\\/");
    var s4, t4 := ReplaceAll(s3, '\U{0008}', "\\b"), ReplaceAll(t3, '\U{0008}', "\\b");
    var s5, t5 := ReplaceAll(s4, '\U{000C}', "\\f"), ReplaceAll(t4, '\U{000C}', "\\f");
    var s6, t6 := ReplaceAll(s5, '\n', "\\n"), ReplaceAll(t5, '\n', "\\n");
    var s7, t7 := ReplaceAll(s6, '\r', "\\r"), ReplaceAll(t6, '\r', "\\r");
    ReplaceNext(s, t, '\\', "\\\\");
    ReplaceNext(s1, t1, '"', "\\\"");
    ReplaceNext(s2, t2, '/', "\\/");
    ReplaceNext(s3, t3, '\U{0008}', "\\b");
    ReplaceNext(s4, t4, '\U{000C}', "\\f");
    ReplaceNext(s5, t5, '\n', "\\n");
    ReplaceNext(s6, t6, '\r', "\\r");
    ReplaceNext(s7, t7, '\t', "\\t");
  }

  lemma ReplacedIn(s: string, c: char, with: string)
    requires |s| <= 2
    ensures s == [c] ==> ReplaceAll(s, c, with) == with
    ensures c !in s ==> ReplaceAll(s, c, with) == s
  {
    if s == [c] { ReplaceOne(c, with); }
    if c !in s { ReplaceNone(s, c, with); }
  }

  lemma OneEscaped(c: char)
    ensures EscapesOf([c]) == EscapeChar(c)
  {
    hide ReplaceAll;
    var s := [c];
    var s1 := ReplaceAll(s, '\\', "\\\\");
    ReplacedIn(s, '\\', "\\\\");
    var s2 := ReplaceAll(s1, '"', "\\\"");
    ReplacedIn(s1, '"', "\\\"");
    var s3 := ReplaceAll(s2, '/', "\\/");
    ReplacedIn(s2, '/', "\\/");
    var s4 := ReplaceAll(s3, '\U{0008}', "\\b");
    ReplacedIn(s3, '\U{0008}', "\\b");
    var s5 := ReplaceAll(s4, '\U{000C}', "\\f");
    ReplacedIn(s4, '\U{000C}', "\\f");
    var s6 := ReplaceAll(s5, '\n', "\\n");
    ReplacedIn(s5, '\n', "\\n");
    var s7 := ReplaceAll(s6, '\r', "\\r");
    ReplacedIn(s6, '\r', "\\r");
    ReplacedIn(s7, '\t', "\\t");
  }

  /** A string is written between quotation marks with its escapes. */
  lemma {:induction false} StringMeans(s: string)
    ensures StringText(s) == "\"" + EscapesOf(s) + "\""
  {
    EscapedMeans(s);
  }

  lemma {:induction false} EscapedMeans(s: string)
    ensures Escaped(s) == EscapesOf(s)
  {
    if s != [] {
      EscapedMeans(s[1..]);
      OneEscaped(s[0]);
      EscapesNext([s[0]], s[1..]);
      assert s == [s[0]] + s[1..];
      hide EscapesOf, EscapeChar;
    }
  }

  // ---- Layout -------------------------------------------------------------

  /** Where in a text: how many brackets are open, and whether the next element is due on
      a new line. */
  datatype Spot = Spot(place: Place, open: int, due: bool)

  function NewLine(open: int): string {
    "\n" + seq(if open < 0 then 0 else 4 * open, _ => ' ')
  }

  /** What stands for one character of the compact text. */
  function Laid(at: Spot, c: char): string {
    if !at.place.Outside? then [c]
    else if c == ']' || c == '}' then (if at.due then "" else NewLine(at.open - 1)) + [c]
    else (if at.due then NewLine(at.open) else "") + [c] + (if c == ':' then " " else "")
  }

  function Passed(at: Spot, c: char): Spot {
    var open := if !at.place.Outside? then at.open
                else if c == '[' || c == '{' then at.open + 1
                else if c == ']' || c == '}' then at.open - 1
                else at.open;
    Spot(Next(at.place, c), open, at.place.Outside? && (c == '[' || c == '{' || c == ','))
  }

  /** The compact text laid out on lines. */
  function LayOut(at: Spot, s: string): string
    decreases |s|
  {
    if s == [] then "" else Laid(at, s[0]) + LayOut(Passed(at, s[0]), s[1..])
  }

  function Arrives(at: Spot, s: string): Spot
    decreases |s|
  {
    if s == [] then at else Arrives(Passed(at, s[0]), s[1..])
  }

  lemma {:induction false} LayOutConcat(at: Spot, s: string, t: string)
    ensures Arrives(at, s + t) == Arrives(Arrives(at, s), t)
    ensures LayOut(at, s + t) == LayOut(at, s) + LayOut(Arrives(at, s), t)
    decreases |s|
  {
    if s == [] {
      assert s + t == t;
    } else {
      assert (s + t)[1..] == s[1..] + t && (s + t)[0] == s[0];
      LayOutConcat(Passed(at, s[0]), s[1..], t);
      hide Laid, Passed;
    }
  }

  /** From one spot to another the text is laid out as told. */
  ghost predicate Lays(at: Spot, s: string, to: string, end: Spot) {
    LayOut(at, s) == to && Arrives(at, s) == end
  }

  lemma LaysBoth(at: Spot, s: string, to: string, mid: Spot, s': string, to': string, end: Spot)
    requires Lays(at, s, to, mid) && Lays(mid, s', to', end)
    ensures Lays(at, s + s', to + to', end)
  {
    LayOutConcat(at, s, s');
  }

  lemma LaysOne(at: Spot, c: char)
    ensures Lays(at, [c], Laid(at, c), Passed(at, c))
  {
    hide Laid, Passed;
    assert [c][1..] == [];
    var next := Passed(at, c);
    assert LayOut(next, []) == "" && Arrives(next, []) == next;
    assert Laid(at, c) + "" == Laid(at, c);
  }

  function Out(open: int, due: bool): Spot { Spot(Outside, open, due) }

  function Lead(open: int, due: bool): string { if due then NewLine(open) else "" }

  predicate Plain(c: char) { c !in "[]{},:\"" }

  lemma {:induction false} PlainLays(open: int, s: string)
    requires forall i :: 0 <= i < |s| ==> Plain(s[i])
    ensures Lays(Out(open, false), s, s, Out(open, false))
  {
    if s != [] {
      PlainLays(open, s[1..]);
      assert s == [s[0]] + s[1..] && Plain(s[0]);
    }
  }

  /** In front of a constant the line begins that is due. */
  lemma WordLays(open: int, due: bool, s: string)
    requires s != [] && forall i :: 0 <= i < |s| ==> Plain(s[i])
    ensures Lays(Out(open, due), s, Lead(open, due) + s, Out(open, false))
  {
    PlainLays(open, s[1..]);
    assert Plain(s[0]);
    LaysOne(Out(open, due), s[0]);
    LaysBoth(Out(open, due), [s[0]], Lead(open, due) + [s[0]], Out(open, false), s[1..], s[1..], Out(open, false));
    assert s == [s[0]] + s[1..];
    assert Lead(open, due) + [s[0]] + s[1..] == Lead(open, due) + s;
  }

  lemma EscapeLays(open: int, c: char)
    ensures Lays(Spot(InString, open, false), EscapeChar(c), EscapeChar(c), Spot(InString, open, false))
  {
    var e := EscapeChar(c);
    LaysOne(Spot(InString, open, false), e[0]);
    if |e| == 2 {
      assert e == [e[0]] + [e[1]] && e[0] == '\\';
      LaysOne(Spot(AfterBackslash, open, false), e[1]);
      LaysBoth(Spot(InString, open, false), [e[0]], [e[0]], Spot(AfterBackslash, open, false),
        [e[1]], [e[1]], Spot(InString, open, false));
    } else {
      assert e == [c] && c != '"' && c != '\\';
    }
  }

  lemma {:induction false} EscapedLays(open: int, s: string)
    ensures Lays(Spot(InString, open, false), Escaped(s), Escaped(s), Spot(InString, open, false))
  {
    if s != [] {
      EscapedLays(open, s[1..]);
      EscapeLays(open, s[0]);
      hide Lays, EscapeChar;
      LaysBoth(Spot(InString, open, false), EscapeChar(s[0]), EscapeChar(s[0]), Spot(InString, open, false),
        Escaped(s[1..]), Escaped(s[1..]), Spot(InString, open, false));
    }
  }

  lemma StringLays(open: int, due: bool, s: string)
    ensures Lays(Out(open, due), StringText(s), Lead(open, due) + StringText(s), Out(open, false))
  {
    EscapedLays(open, s);
    LaysOne(Out(open, due), '"');
    LaysOne(Spot(InString, open, false), '"');
    var lead, e := Lead(open, due), Escaped(s);
    hide Lays;
    assert Laid(Out(open, due), '"') == lead + "\"";
    LaysBoth(Out(open, due), "\"", lead + "\"", Spot(InString, open, false), e, e, Spot(InString, open, false));
    LaysBoth(Out(open, due), "\"" + e, lead + "\"" + e, Spot(InString, open, false), "\"", "\"", Out(open, false));
    assert lead + "\"" + e + "\"" == lead + StringText(s);
  }

  lemma {:induction false} IndentIsBlanks(d: nat)
    ensures ElementSep(true, d) == NewLine(d)
  {
    if d > 0 {
      IndentIsBlanks(d - 1);
      assert Indent(d - 1) == ElementSep(true, d - 1)[1..];
      assert Indent(d) == NewLine(d)[1..];
    }
  }

  lemma ScalarLays(v: Json, d: nat, due: bool, e: nat)
    requires Encodable(v) && !v.Array? && !v.Object?
    ensures Lays(Out(d, due), Text(v, false, e), Lead(d, due) + Text(v, true, d), Out(d, false))
  {
    hide Lays;
    if v.String? {
      StringLays(d, due, v.s);
    } else {
      if v.Int? {
        var s := NatText(if v.i < 0 then -v.i else v.i);
        assert forall i :: 0 <= i < |s| ==> IsDigit(s[i]);
      }
      WordLays(d, due, Text(v, false, e));
    }
  }

  lemma Regroup(a: string, b: string, c: string, d: string, e: string)
    ensures a + b + c + (d + e) == a + (b + c + d + e)
  {
  }

  /** Brackets around what is laid out between them; a line is left due when that is nothing. */
  lemma BracketsLay(d: nat, due: bool, open: char, s: string, to: string, empty: bool, close: char)
    requires (open == '[' && close == ']') || (open == '{' && close == '}')
    requires Lays(Out(d + 1, true), s, to, Out(d + 1, empty))
    ensures Lays(Out(d, due), [open] + s + [close],
                 Lead(d, due) + ([open] + to + (if empty then "" else NewLine(d)) + [close]), Out(d, false))
  {
    LaysOne(Out(d, due), open);
    LaysOne(Out(d + 1, empty), close);
    var lead, last := Lead(d, due), (if empty then "" else NewLine(d)) + [close];
    assert Laid(Out(d, due), open) == lead + [open] && Laid(Out(d + 1, empty), close) == last;
    hide Lays, NewLine;
    LaysBoth(Out(d, due), [open], lead + [open], Out(d + 1, true), s, to, Out(d + 1, empty));
    LaysBoth(Out(d, due), [open] + s, lead + [open] + to, Out(d + 1, empty), [close], last, Out(d, false));
    Regroup(lead, [open], to, if empty then "" else NewLine(d), [close]);
  }

  lemma ArrayIsLaid(v: Json, d: nat, due: bool, e: nat)
    requires v.Array? && Encodable(v)
    requires Lays(Out(d + 1, true), ItemsText(v, 0, false, e + 1), ItemsText(v, 0, true, d + 1),
                  Out(d + 1, v.items == []))
    ensures Lays(Out(d, due), Text(v, false, e), Lead(d, due) + Text(v, true, d), Out(d, false))
  {
    IndentIsBlanks(d);
    hide Lays, ItemsText, Indent;
    BracketsLay(d, due, '[', ItemsText(v, 0, false, e + 1), ItemsText(v, 0, true, d + 1), v.items == [], ']');
    assert Text(v, false, e) == ['['] + ItemsText(v, 0, false, e + 1) + [']'];
  }

  lemma ObjectIsLaid(v: Json, d: nat, due: bool, e: nat)
    requires v.Object? && Encodable(v)
    requires Lays(Out(d + 1, true), MembersText(v, 0, false, e + 1), MembersText(v, 0, true, d + 1),
                  Out(d + 1, v.members == []))
    ensures Lays(Out(d, due), Text(v, false, e), Lead(d, due) + Text(v, true, d), Out(d, false))
  {
    IndentIsBlanks(d);
    hide Lays, MembersText, Indent;
    BracketsLay(d, due, '{', MembersText(v, 0, false, e + 1), MembersText(v, 0, true, d + 1), v.members == [], '}');
    assert Text(v, false, e) == ['{'] + MembersText(v, 0, false, e + 1) + ['}'];
  }

  /** The pretty text of a value is its compact text laid out. */
  lemma {:induction false} PrettyIsLaid(v: Json, d: nat, due: bool, e: nat)
    requires Encodable(v)
    ensures Lays(Out(d, due), Text(v, false, e), Lead(d, due) + Text(v, true, d), Out(d, false))
    decreases v, 1
  {
    hide *;
    if v.Array? {
      ItemsLay(v, 0, d + 1, e + 1);
      ArrayIsLaid(v, d, due, e);
    } else if v.Object? {
      MembersLay(v, 0, d + 1, e + 1);
      ObjectIsLaid(v, d, due, e);
    } else {
      ScalarLays(v, d, due, e);
    }
  }

  lemma CommaLays(k: nat, d: nat)
    ensures Lays(Out(d, k == 0), Comma(k), Comma(k), Out(d, true))
  {
    if k > 0 { LaysOne(Out(d, false), ','); }
  }

  /** An element behind its comma, and what follows it. */
  lemma ElementLays(k: nat, d: nat, s: string, to: string, more: string, moreTo: string, end: Spot)
    requires Lays(Out(d, true), s, NewLine(d) + to, Out(d, false))
    requires Lays(Out(d, false), more, moreTo, end)
    ensures Lays(Out(d, k == 0), Comma(k) + "" + s + more, Comma(k) + NewLine(d) + to + moreTo, end)
  {
    CommaLays(k, d);
    hide Lays, Comma, NewLine;
    var c := Comma(k);
    LaysBoth(Out(d, k == 0), c, c, Out(d, true), s, NewLine(d) + to, Out(d, false));
    LaysBoth(Out(d, k == 0), c + s, c + (NewLine(d) + to), Out(d, false), more, moreTo, end);
    assert c + "" + s + more == c + s + more;
    assert c + NewLine(d) + to + moreTo == c + (NewLine(d) + to) + moreTo;
  }

  lemma {:induction false} ItemsLay(v: Json, k: nat, d: nat, e: nat)
    requires v.Array? && Encodable(v) && k <= |v.items|
    ensures Lays(Out(d, k == 0), ItemsText(v, k, false, e), ItemsText(v, k, true, d), Out(d, v.items == []))
    decreases v, 0, |v.items| - k
  {
    if k < |v.items| {
      PrettyIsLaid(v.items[k], d, true, e);
      ItemsLay(v, k + 1, d, e);
      IndentIsBlanks(d);
      hide Lays, Text, Indent, Encodable;
      ElementLays(k, d, Text(v.items[k], false, e), Text(v.items[k], true, d), ItemsText(v, k + 1, false, e),
        ItemsText(v, k + 1, true, d), Out(d, false));
    }
  }

  /** A key, its colon and its value. */
  lemma MemberLays(d: nat, key: string, s: string, to: string)
    requires Lays(Out(d, false), s, to, Out(d, false))
    ensures Lays(Out(d, true), StringText(key) + ":" + s, NewLine(d) + (StringText(key) + ": " + to), Out(d, false))
  {
    StringLays(d, true, key);
    LaysOne(Out(d, false), ':');
    var k := StringText(key);
    hide Lays, NewLine, StringText;
    assert Laid(Out(d, false), ':') == ": ";
    LaysBoth(Out(d, true), k, NewLine(d) + k, Out(d, false), ":", ": ", Out(d, false));
    LaysBoth(Out(d, true), k + ":", NewLine(d) + k + ": ", Out(d, false), s, to, Out(d, false));
    assert NewLine(d) + k + ": " + to == NewLine(d) + (k + ": " + to);
  }

  lemma RegroupMember(c: string, e: string, key: string, ks: string, t: string, more: string)
    ensures c + e + key + ":" + ks + t + more == c + e + (key + (":" + ks) + t) + more
  {
    var u := key + (":" + ks) + t;
    assert c + e + key + ":" + ks + t == c + e + u;
  }

  /** The text from member `k` on, with the key and the value put together. */
  lemma MembersRegrouped(v: Json, k: nat, pretty: bool, d: nat)
    requires v.Object? && Encodable(v) && k < |v.members| && Encodable(v.members[k].value)
    ensures MembersText(v, k, pretty, d) ==
              Comma(k) + (if pretty then NewLine(d) else "")
              + (StringText(v.members[k].key) + (if pretty then ": " else ":") + Text(v.members[k].value, pretty, d))
              + MembersText(v, k + 1, pretty, d)
  {
    hide MembersText, Comma, Indent, StringText, Text, Encodable, NewLine;
    StrictTexts.MembersUnfold(v, k, pretty, d);
    assert ":" + KeySep(pretty) == if pretty then ": " else ":";
    hide ElementSep, KeySep;
    RegroupMember(Comma(k), ElementSep(pretty, d), StringText(v.members[k].key), KeySep(pretty),
      Text(v.members[k].value, pretty, d), MembersText(v, k + 1, pretty, d));
    SeparatorIs(pretty, d);
  }

  lemma SeparatorIs(pretty: bool, d: nat)
    ensures ElementSep(pretty, d) == if pretty then NewLine(d) else ""
  {
    IndentIsBlanks(d);
  }

  lemma NotDue(d: nat, to: string)
    ensures Lead(d, false) + to == to
  {
  }

  lemma {:induction false} MembersLay(v: Json, k: nat, d: nat, e: nat)
    requires v.Object? && Encodable(v) && k <= |v.members|
    ensures Lays(Out(d, k == 0), MembersText(v, k, false, e), MembersText(v, k, true, d), Out(d, v.members == []))
    decreases v, 0, |v.members| - k
  {
    if k < |v.members| {
      hide *;
      var m := v.members[k];
      MemberEncodable(v, k);
      PrettyIsLaid(m.value, d, false, e);
      MembersLay(v, k + 1, d, e);
      MembersRegrouped(v, k, false, e);
      MembersRegrouped(v, k, true, d);
      NotDue(d, Text(m.value, true, d));
      var s, to := Text(m.value, false, e), Text(m.value, true, d);
      MemberLays(d, m.key, s, to);
      ElementLays(k, d, StringText(m.key) + ":" + s, StringText(m.key) + ": " + to,
        MembersText(v, k + 1, false, e), MembersText(v, k + 1, true, d), Out(d, v.members == []));
    }
  }

  /** Pretty output is compact output with a new line for every element and four blanks for
      every open bracket in front of it. */
  lemma PrettyMeans(v: Json)
    requires Encodable(v)
    ensures Text(v, true, 0) == LayOut(Spot(Outside, 0, false), Text(v, false, 0))
  {
    PrettyIsLaid(v, 0, false, 0);
    assert "" + Text(v, true, 0) == Text(v, true, 0);
  }

  // ---- Compact text -------------------------------------------------------

  /** The parts with commas between them. */
  function Joined(parts: seq<string>): string {
    if parts == [] then ""
    else if |parts| == 1 then parts[0]
    else parts[0] + "," + Joined(parts[1..])
  }

  /** The text from one part on, when the comma in front of the following part is written with it. */
  predicate JoinedFrom(k: nat, text: string, parts: seq<string>) {
    text == (if parts == [] then "" else Comma(k)) + Joined(parts)
  }

  lemma JoinedNext(k: nat, part: string, text: string, parts: seq<string>)
    requires JoinedFrom(k + 1, text, parts)
    ensures JoinedFrom(k, Comma(k) + "" + part + text, [part] + parts)
  {
    assert ([part] + parts)[1..] == parts;
    var c := Comma(k);
    assert c + "" == c;
    if parts == [] {
      assert c + part + text == c + part;
    } else {
      assert c + part + ("," + Joined(parts)) == c + (part + "," + Joined(parts));
    }
  }

  ghost function ItemTexts(v: Json, k: nat, d: nat): seq<string>
    requires v.Array? && Encodable(v) && k <= |v.items|
    decreases |v.items| - k
  {
    if k == |v.items| then [] else [Text(v.items[k], false, d)] + ItemTexts(v, k + 1, d)
  }

  ghost function MemberTexts(v: Json, k: nat, d: nat): seq<string>
    requires v.Object? && Encodable(v) && k <= |v.members|
    decreases |v.members| - k
  {
    if k == |v.members| then []
    else
      ["\"" + EscapesOf(v.members[k].key) + "\":" + Text(v.members[k].value, false, d)] + MemberTexts(v, k + 1, d)
  }

  lemma {:induction false} ItemsJoined(v: Json, k: nat, d: nat)
    requires v.Array? && Encodable(v) && k <= |v.items|
    ensures JoinedFrom(k, ItemsText(v, k, false, d), ItemTexts(v, k, d))
    decreases |v.items| - k
  {
    if k < |v.items| {
      ItemEncodable(v, k);
      ItemsJoined(v, k + 1, d);
      StrictTexts.ItemsUnfold(v, k, false, d);
      JoinedNext(k, Text(v.items[k], false, d), ItemsText(v, k + 1, false, d), ItemTexts(v, k + 1, d));
      hide ItemsText, Text, JoinedFrom;
    }
  }

  lemma {:induction false} MembersJoined(v: Json, k: nat, d: nat)
    requires v.Object? && Encodable(v) && k <= |v.members|
    ensures JoinedFrom(k, MembersText(v, k, false, d), MemberTexts(v, k, d))
    decreases |v.members| - k
  {
    if k < |v.members| {
      var m := v.members[k];
      MemberEncodable(v, k);
      MembersJoined(v, k + 1, d);
      StrictTexts.MembersUnfold(v, k, false, d);
      StringMeans(m.key);
      var key, t, more := StringText(m.key), Text(m.value, false, d), MembersText(v, k + 1, false, d);
      hide MembersText, Text, JoinedFrom, StringText, EscapesOf, Comma;
      RegroupMember(Comma(k), "", key, "", t, more);
      KeyText(EscapesOf(m.key), t);
      JoinedNext(k, key + (":" + "") + t, more, MemberTexts(v, k + 1, d));
    }
  }

  lemma KeyText(e: string, t: string)
    ensures "\"" + e + "\"" + (":" + "") + t == "\"" + e + "\":" + t
  {
    assert "\"" + e + "\"" + ":" == "\"" + e + "\":";
  }

  lemma ContainerText(v: Json, d: nat)
    requires Encodable(v)
    ensures v.Array? ==> Text(v, false, d) == "[" + ItemsText(v, 0, false, d + 1) + "]"
    ensures v.Object? ==> Text(v, false, d) == "{" + MembersText(v, 0, false, d + 1) + "}"
  {
    hide ItemsText, MembersText;
  }

  lemma NothingAhead(text: string, parts: seq<string>)
    requires JoinedFrom(0, text, parts)
    ensures text == Joined(parts)
  {
    assert "" + Joined(parts) == Joined(parts);
  }

  /** The compact text of every value. */
  lemma CompactMeans(v: Json, d: nat)
    requires Encodable(v)
    ensures v.Null? ==> Text(v, false, d) == "null"
    ensures v.Bool? ==> Text(v, false, d) == if v.b then "true" else "false"
    ensures v.Int? ==> Text(v, false, d) == if v.i < 0 then "-" + NatText(-v.i) else NatText(v.i)
    ensures v.String? ==> Text(v, false, d) == "\"" + EscapesOf(v.s) + "\""
    ensures v.Array? ==> Text(v, false, d) == "[" + Joined(ItemTexts(v, 0, d + 1)) + "]"
    ensures v.Object? ==> Text(v, false, d) == "{" + Joined(MemberTexts(v, 0, d + 1)) + "}"
  {
    hide EscapesOf, NatText;
    if v.Array? || v.Object? {
      ContainerText(v, d);
      hide *;
      if v.Array? {
        ItemsJoined(v, 0, d + 1);
        NothingAhead(ItemsText(v, 0, false, d + 1), ItemTexts(v, 0, d + 1));
      } else {
        MembersJoined(v, 0, d + 1);
        NothingAhead(MembersText(v, 0, false, d + 1), MemberTexts(v, 0, d + 1));
      }
    } else if v.String? {
      StringMeans(v.s);
    }
  }
}
