/** The encoder's output before a reader that keeps to RFC 8259, section 7, where control
    characters stand in strings only as escapes.  The encoder escapes five of them and
    copies the others (`src/jso_encoder.c`, lines 151-186). */
module StrictTexts {
  import opened Options
  import opened JsonValues
  import opened NumberTexts
  import opened JsonTexts

  predicate Control(c: char) { c < ' ' }

  /** A control character stands as it is inside a string of the text. */
  predicate RawControl(p: Place, s: string)
    decreases |s|
  {
    s != [] && ((!p.Outside? && Control(s[0])) || RawControl(Next(p, s[0]), s[1..]))
  }

  /** A strict reader of whole documents. */
  function ReadStrict(s: string): Read<Json> {
    if RawControl(Outside, s) then Fail else ReadValue(s)
  }

  predicate HasEscape(c: char) { c == BACKSPACE || c == FORM_FEED || c == '\n' || c == '\r' || c == '\t' }

  /** The string holds no control character but those that the encoder escapes. */
  predicate Clean(s: string) {
    forall i :: 0 <= i < |s| && Control(s[i]) ==> HasEscape(s[i])
  }

  /** So do all strings and keys of the value. */
  predicate CleanValue(v: Json) {
    match v
    case String(s) => Clean(s)
    case Array(items) => forall i :: 0 <= i < |items| ==> CleanValue(items[i])
    case Object(ms) => forall i :: 0 <= i < |ms| ==> Clean(ms[i].key) && CleanValue(ms[i].value)
    case _ => true
  }

  // ---- Raw control characters of a text -----------------------------------

  lemma {:induction false} RawConcat(p: Place, s: string, t: string)
    ensures RawControl(p, s + t) <==> RawControl(p, s) || RawControl(End(p, s), t)
    ensures End(p, s + t) == End(End(p, s), t)
    decreases |s|
  {
    if s == [] {
      assert s + t == t;
    } else {
      assert (s + t)[1..] == s[1..] + t && (s + t)[0] == s[0];
      RawConcat(Next(p, s[0]), s[1..], t);
    }
  }

  /** The text has raw control characters in strings as told, and ends outside of strings. */
  ghost predicate Shows(s: string, clean: bool) {
    (RawControl(Outside, s) <==> !clean) && End(Outside, s) == Outside
  }

  lemma ShowsBoth(s: string, a: bool, t: string, b: bool)
    requires Shows(s, a) && Shows(t, b)
    ensures Shows(s + t, a && b)
  {
    RawConcat(Outside, s, t);
  }

  lemma {:induction false} NoQuotes(s: string)
    requires forall i :: 0 <= i < |s| ==> s[i] != '"'
    ensures Shows(s, true)
  {
    if s != [] { NoQuotes(s[1..]); }
  }

  lemma EscapeShows(c: char)
    ensures RawControl(InString, EscapeChar(c)) <==> Control(c) && !HasEscape(c)
    ensures End(InString, EscapeChar(c)) == InString
  {
    var e := EscapeChar(c);
    EscapeInString(c);
    if |e| == 2 {
      assert e[0] == '\\' && e[1..] == [e[1]] && !Control(e[1]);
      assert !RawControl(AfterBackslash, [e[1]]);
    } else {
      assert e == [c] && c != '"' && c != '\\' && !HasEscape(c);
      assert e[1..] == [] && (RawControl(InString, e) <==> Control(c));
    }
  }

  lemma {:induction false} EscapedShows(s: string)
    ensures RawControl(InString, Escaped(s)) <==> !Clean(s)
    ensures End(InString, Escaped(s)) == InString
  {
    if s != [] {
      EscapedShows(s[1..]);
      EscapeShows(s[0]);
      RawConcat(InString, EscapeChar(s[0]), Escaped(s[1..]));
      assert forall i :: 0 < i < |s| ==> s[i] == s[1..][i - 1];
      assert forall i :: 0 <= i < |s| - 1 ==> s[1..][i] == s[i + 1];
      hide EscapeChar, RawControl, HasEscape, End;
    }
  }

  lemma StringShows(s: string)
    ensures Shows(StringText(s), Clean(s))
  {
    EscapedShows(s);
    RawConcat(InString, Escaped(s), "\"");
    RawConcat(Outside, "\"", Escaped(s) + "\"");
    assert "\"" + (Escaped(s) + "\"") == StringText(s);
    assert !RawControl(Outside, "\"") && End(Outside, "\"") == InString;
    assert !RawControl(InString, "\"") && End(InString, "\"") == Outside;
    hide Clean, Escaped;
  }

  lemma SeparatorShows(pretty: bool, d: nat)
    ensures Shows(ElementSep(pretty, d), true) && Shows(KeySep(pretty), true)
  {
    SepsAreSpace(pretty, d);
    NoQuotes(ElementSep(pretty, d));
    NoQuotes(KeySep(pretty));
  }

  lemma BracketsShow(open: char, s: string, clean: bool, sep: string, close: char)
    requires open != '"' && close != '"' && Shows(s, clean) && Shows(sep, true)
    ensures Shows([open] + s + sep + [close], clean)
  {
    NoQuotes([open]);
    NoQuotes([close]);
    hide Shows;
    ShowsBoth([open], true, s, clean);
    ShowsBoth([open] + s, clean, sep, true);
    ShowsBoth([open] + s + sep, clean, [close], true);
  }

  lemma ConstantShows(v: Json, pretty: bool, d: nat)
    requires Encodable(v) && (v.Null? || v.Bool? || v.Int?)
    ensures Shows(Text(v, pretty, d), true)
  {
    if v.Int? {
      var s := NatText(if v.i < 0 then -v.i else v.i);
      assert forall i :: 0 <= i < |s| ==> IsDigit(s[i]);
    }
    NoQuotes(Text(v, pretty, d));
  }

  /** The text of a value shows whether its strings are clean. */
  lemma {:induction false} TextShows(v: Json, pretty: bool, d: nat)
    requires Encodable(v)
    ensures Shows(Text(v, pretty, d), CleanValue(v))
    decreases v, 1
  {
    match v
    case String(s) => StringShows(s);
    case Array(items) =>
      ItemsShow(v, 0, pretty, d + 1);
      SeparatorShows(pretty, d);
      assert Shows("", true);
      hide Shows, ItemsText, ElementSep;
      BracketsShow('[', ItemsText(v, 0, pretty, d + 1), CleanValue(v),
        if items == [] then "" else ElementSep(pretty, d), ']');
    case Object(ms) =>
      MembersShow(v, 0, pretty, d + 1);
      SeparatorShows(pretty, d);
      assert Shows("", true);
      hide Shows, MembersText, ElementSep;
      BracketsShow('{', MembersText(v, 0, pretty, d + 1), CleanValue(v),
        if ms == [] then "" else ElementSep(pretty, d), '}');
    case _ => ConstantShows(v, pretty, d);
  }

  predicate CleanItems(items: seq<Json>, k: nat) { forall i :: k <= i < |items| ==> CleanValue(items[i]) }

  predicate CleanMembers(ms: seq<Member>, k: nat) {
    forall i :: k <= i < |ms| ==> Clean(ms[i].key) && CleanValue(ms[i].value)
  }

  lemma ItemShows(c: string, s: string, t: string, a: bool, more: string, b: bool)
    requires Shows(c, true) && Shows(s, true) && Shows(t, a) && Shows(more, b)
    ensures Shows(c + s + t + more, a && b)
  {
    hide *;
    ShowsBoth(c, true, s, true);
    ShowsBoth(c + s, true, t, a);
    ShowsBoth(c + s + t, a, more, b);
  }

  lemma CleanItem(v: Json, k: nat)
    requires v.Array? && k < |v.items|
    ensures CleanItems(v.items, k) <==> CleanValue(v.items[k]) && CleanItems(v.items, k + 1)
  {
    hide CleanValue;
  }

  lemma ItemsUnfold(v: Json, k: nat, pretty: bool, d: nat)
    requires v.Array? && Encodable(v) && k < |v.items| && Encodable(v.items[k])
    ensures ItemsText(v, k, pretty, d) ==
              Comma(k) + ElementSep(pretty, d) + Text(v.items[k], pretty, d) + ItemsText(v, k + 1, pretty, d)
  {
    hide Comma, ElementSep, Text, Encodable;
  }

  lemma NothingShows(v: Json, pretty: bool, d: nat)
    requires (v.Array? || v.Object?) && Encodable(v)
    ensures v.Array? ==> Shows(ItemsText(v, |v.items|, pretty, d), CleanItems(v.items, |v.items|))
    ensures v.Object? ==> Shows(MembersText(v, |v.members|, pretty, d), CleanMembers(v.members, |v.members|))
  {
  }

  lemma CommaShows(k: nat)
    ensures Shows(Comma(k), true) && Shows(":", true)
  {
    NoQuotes(Comma(k));
    NoQuotes(":");
  }

  lemma {:induction false} ItemsShow(v: Json, k: nat, pretty: bool, d: nat)
    requires v.Array? && Encodable(v) && k <= |v.items|
    ensures Shows(ItemsText(v, k, pretty, d), CleanItems(v.items, k))
    decreases v, 0, |v.items| - k
  {
    hide *;
    if k < |v.items| {
      ItemEncodable(v, k);
      CleanItem(v, k);
      TextShows(v.items[k], pretty, d);
      ItemsShow(v, k + 1, pretty, d);
      CommaShows(k);
      SeparatorShows(pretty, d);
      ItemsUnfold(v, k, pretty, d);
      ItemShows(Comma(k), ElementSep(pretty, d), Text(v.items[k], pretty, d), CleanValue(v.items[k]),
        ItemsText(v, k + 1, pretty, d), CleanItems(v.items, k + 1));
    } else {
      NothingShows(v, pretty, d);
    }
  }

  lemma MemberShows(c: string, s: string, key: string, a: bool, colon: string, ks: string, t: string, b: bool,
                    more: string, e: bool)
    requires Shows(c, true) && Shows(s, true) && Shows(key, a) && Shows(colon, true) && Shows(ks, true)
    requires Shows(t, b) && Shows(more, e)
    ensures Shows(c + s + key + colon + ks + t + more, a && b && e)
  {
    hide *;
    ShowsBoth(c, true, s, true);
    ShowsBoth(c + s, true, key, a);
    ShowsBoth(c + s + key, a, colon, true);
    ShowsBoth(c + s + key + colon, a, ks, true);
    ShowsBoth(c + s + key + colon + ks, a, t, b);
    ShowsBoth(c + s + key + colon + ks + t, a && b, more, e);
  }

  lemma MembersUnfold(v: Json, k: nat, pretty: bool, d: nat)
    requires v.Object? && Encodable(v) && k < |v.members| && Encodable(v.members[k].value)
    ensures MembersText(v, k, pretty, d) ==
              Comma(k) + ElementSep(pretty, d) + StringText(v.members[k].key) + ":" + KeySep(pretty)
              + Text(v.members[k].value, pretty, d) + MembersText(v, k + 1, pretty, d)
  {
    hide Comma, ElementSep, StringText, KeySep, Text, Encodable;
  }

  lemma CleanMember(v: Json, k: nat)
    requires v.Object? && k < |v.members|
    ensures var ms := v.members;
            CleanMembers(ms, k) <==> Clean(ms[k].key) && CleanValue(ms[k].value) && CleanMembers(ms, k + 1)
  {
    hide Clean, CleanValue;
  }

  lemma {:induction false} MembersShow(v: Json, k: nat, pretty: bool, d: nat)
    requires v.Object? && Encodable(v) && k <= |v.members|
    ensures Shows(MembersText(v, k, pretty, d), CleanMembers(v.members, k))
    decreases v, 0, |v.members| - k
  {
    hide *;
    if k < |v.members| {
      var m := v.members[k];
      MemberEncodable(v, k);
      CleanMember(v, k);
      TextShows(m.value, pretty, d);
      MembersShow(v, k + 1, pretty, d);
      CommaShows(k);
      SeparatorShows(pretty, d);
      StringShows(m.key);
      MembersUnfold(v, k, pretty, d);
      MemberShows(Comma(k), ElementSep(pretty, d), StringText(m.key), Clean(m.key), ":", KeySep(pretty),
        Text(m.value, pretty, d), CleanValue(m.value), MembersText(v, k + 1, pretty, d),
        CleanMembers(v.members, k + 1));
    } else {
      NothingShows(v, pretty, d);
    }
  }

  /** A strict reader recovers a value from the encoder's output exactly when none of its
      strings and keys holds a control character other than those with an escape. */
  lemma StrictReadBack(v: Json, pretty: bool)
    requires Encodable(v)
    ensures ReadStrict(Text(v, pretty, 0)) == if CleanValue(v) then Ok(v, "") else Fail
  {
    TextShows(v, pretty, 0);
    ReadWhole(v, pretty);
    hide Text, ReadValue, CleanValue, RawControl;
  }
}
