/** What JSON Pointers mean, told apart from the functions that compile and resolve them:
    escapes by replacement as in RFC 6901, section 4, tokens that denote an array index
    by their form (`strtol`), and resolution by paths. */
module PointerMeanings {
  import opened Options
  import opened JsonValues
  import opened NumberTexts
  import opened JsonPointers
  import opened Replacements

  // ---- Escapes ------------------------------------------------------------

  /** Decoding replaces `~1` by a slash, and then `~0` by a tilde. */
  lemma {:induction false} DecodeMeans(t: string)
    requires Decode(t).Some?
    ensures Decode(t).value == ReplacePairs(ReplacePairs(t, '~', '1', '/'), '~', '0', '~')
  {
    if t != [] {
      if t[0] != '~' {
        DecodeMeans(t[1..]);
      } else {
        DecodeMeans(t[2..]);
        var u := ReplacePairs(t[2..], '~', '1', '/');
        if t[1] == '0' {
          assert t[1..][1..] == t[2..];
          assert ReplacePairs(t, '~', '1', '/') == "~0" + u;
          assert ("~0" + u)[2..] == u;
        } else {
          assert ReplacePairs(t, '~', '1', '/') == "/" + u;
          assert ("/" + u)[1..] == u;
        }
      }
    }
  }

  /** Escaping replaces the tilde by `~0`, and then the slash by `~1`. */
  lemma {:induction false} EscapeMeans(t: string)
    ensures Escape(t) == ReplaceAll(ReplaceAll(t, '~', "~0"), '/', "~1")
  {
    if t != [] {
      EscapeMeans(t[1..]);
      var first := if t[0] == '~' then "~0" else [t[0]];
      ReplaceNext(first, ReplaceAll(t[1..], '~', "~0"), '/', "~1");
      assert "~0"[1..] == "0" && "0"[1..] == "" && [t[0]][1..] == [];
      assert ReplaceAll(first, '/', "~1") == EscapeOf(t[0]);
    }
  }

  /** Printed tokens stand one after the other, each behind a slash. */
  lemma {:induction false} PrintMeans(ts: seq<string>, us: seq<string>, t: string)
    ensures Print(ts + us) == Print(ts) + Print(us)
    ensures Print([t]) == "/" + ReplaceAll(ReplaceAll(t, '~', "~0"), '/', "~1")
  {
    EscapeMeans(t);
    assert [t][1..] == [];
    if ts == [] {
      assert ts + us == us;
    } else {
      PrintMeans(ts[1..], us, t);
      assert (ts + us)[1..] == ts[1..] + us;
    }
  }

  // ---- Numbers for an array -----------------------------------------------

  predicate AllWhite(s: string) {
    forall i :: 0 <= i < |s| ==> s[i] in " \t\n\U{000B}\U{000C}\r"
  }

  /** White space, a sign that may be missing, and digits. */
  predicate NumberForm(t: string, white: string, sign: string, digits: string) {
    && t == white + sign + digits && AllWhite(white)
    && (sign == "" || sign == "+" || sign == "-")
    && digits != [] && AllDigits(digits)
  }

  /** The number that a token in this form denotes. */
  function Signed(sign: string, digits: string): int
    requires AllDigits(digits)
  {
    if sign == "-" then -(TextValue(digits) as int) else TextValue(digits)
  }

  /** The nearest number that a `long` of 64 bits holds. */
  function InLong(n: int): int {
    if n < -9223372036854775808 then -9223372036854775808
    else if 9223372036854775807 < n then 9223372036854775807
    else n
  }

  lemma {:induction false} WhiteSkipped(white: string, t: string)
    requires AllWhite(white) && (t != [] ==> t[0] !in " \t\n\U{000B}\U{000C}\r")
    ensures SkipBlanks(white + t) == t
  {
    if white != [] {
      WhiteSkipped(white[1..], t);
      assert (white + t)[1..] == white[1..] + t;
    } else {
      assert white + t == t;
    }
  }

  lemma {:induction false} SkippedIsWhite(t: string) returns (white: string)
    ensures t == white + SkipBlanks(t) && AllWhite(white)
  {
    if t != [] && IsBlank(t[0]) {
      white := SkippedIsWhite(t[1..]);
      white := [t[0]] + white;
    } else {
      white := [];
    }
  }

  lemma SignAndDigits(sign: string, digits: string)
    requires sign == "" || sign == "+" || sign == "-"
    requires digits != [] && AllDigits(digits)
    ensures var u := sign + digits;
            && u != [] && u[0] !in " \t\n\U{000B}\U{000C}\r" && (u[0] == '-' <==> sign == "-")
            && digits == if u[0] == '-' || u[0] == '+' then u[1..] else u
  {
    var u := sign + digits;
    assert IsDigit(digits[0]);
    assert u[0] == if sign == "" then digits[0] else sign[0];
    if sign != "" { assert u[1..] == digits; } else { assert u == digits; }
  }

  lemma ReadBehindWhite(t: string, u: string, sign: string, digits: string)
    requires t != [] && SkipBlanks(t) == u && u != [] && (u[0] == '-' <==> sign == "-")
    requires digits == if u[0] == '-' || u[0] == '+' then u[1..] else u
    requires digits != [] && AllDigits(digits)
    ensures StringToInt(t) == Some(InLong(Signed(sign, digits)))
  {
    hide TextValue, SkipBlanks, AllDigits;
  }

  lemma Reassociate(a: string, b: string, c: string)
    ensures a + b + c == a + (b + c)
  {
  }

  /** A token in this form is read as the number that it denotes. */
  lemma FormIsRead(t: string, white: string, sign: string, digits: string)
    requires NumberForm(t, white, sign, digits)
    ensures StringToInt(t) == Some(InLong(Signed(sign, digits)))
  {
    hide TextValue, SkipBlanks, AllDigits, AllWhite, StringToInt, InLong, Signed;
    SignAndDigits(sign, digits);
    Reassociate(white, sign, digits);
    WhiteSkipped(white, sign + digits);
    assert |t| == |white| + |sign| + |digits|;
    ReadBehindWhite(t, sign + digits, sign, digits);
  }

  /** Nothing else is read, but for the empty token, which is zero. */
  lemma ReadHasForm(t: string)
    ensures StringToInt("") == Some(0)
    ensures t != [] && StringToInt(t).Some? ==> exists white, sign, digits :: NumberForm(t, white, sign, digits)
  {
    if t != [] && StringToInt(t).Some? {
      var white := SkippedIsWhite(t);
      var u := SkipBlanks(t);
      if u[0] == '-' || u[0] == '+' {
        assert u == [u[0]] + u[1..];
        assert NumberForm(t, white, [u[0]], u[1..]);
      } else {
        assert t == white + "" + u;
        assert NumberForm(t, white, "", u);
      }
    }
  }

  ghost predicate HasNumberForm(t: string) {
    exists white, sign, digits :: NumberForm(t, white, sign, digits)
  }

  /** The token selects the step: a member by its name, an item by its number. */
  ghost predicate Selects(t: string, step: Step) {
    match step
    case Key(k) => k == t
    case Item(i) =>
      || (t == "" && i == 0)
      || exists white, sign, digits :: NumberForm(t, white, sign, digits) && i == InLong(Signed(sign, digits))
  }

  lemma ItemSelected(t: string, i: nat)
    ensures Selects(t, Item(i)) <==> StringToInt(t) == Some(i)
  {
    hide StringToInt, Signed, InLong, AllWhite, IsDigit;
    ReadHasForm(t);
    forall white, sign, digits | NumberForm(t, white, sign, digits)
      ensures StringToInt(t) == Some(InLong(Signed(sign, digits)))
    {
      FormIsRead(t, white, sign, digits);
    }
  }

  // ---- Searching ----------------------------------------------------------

  /** The tokens select the steps of the path, one by one. */
  ghost predicate Follows(ts: seq<string>, path: seq<Step>) {
    |ts| == |path| && forall j :: 0 <= j < |ts| ==> Selects(ts[j], path[j])
  }

  /** The path leads from the document to the value, and the tokens select it. */
  ghost predicate Leads(ts: seq<string>, doc: Json, path: seq<Step>, v: Json) {
    Follows(ts, path) && Subtree(doc, path) == Some(v)
  }

  /** The path leads to an array, and the token behind it has no number for that. */
  ghost predicate Misses(ts: seq<string>, doc: Json, path: seq<Step>) {
    && |path| < |ts| && Follows(ts[..|path|], path)
    && Subtree(doc, path).Some? && Subtree(doc, path).value.Array?
    && ts[|path|] != "" && !HasNumberForm(ts[|path|])
  }

  /** The value that one step leads to. */
  function Child(doc: Json, step: Step): Option<Json> {
    match (doc, step)
    case (Object(members), Key(k)) =>
      var i := Find(members, k);
      if i.None? then None else Some(members[i.value].value)
    case (Array(items), Item(i)) => if i < |items| then Some(items[i]) else None
    case _ => None
  }

  /** What a single step leads to: the first member of the name, the item in place. */
  lemma StepMeans(ms: seq<Member>, items: seq<Json>, i: nat)
    ensures i < |ms| && (forall j :: 0 <= j < i ==> ms[j].key != ms[i].key) ==>
              Subtree(Object(ms), [Key(ms[i].key)]) == Some(ms[i].value)
    ensures Subtree(Array(items), [Item(i)]) == if i < |items| then Some(items[i]) else None
  {
    assert [Item(i)][1..] == [];
    if i < |ms| { assert [Key(ms[i].key)][1..] == []; }
  }

  lemma SubtreeNext(doc: Json, path: seq<Step>)
    requires path != []
    ensures Subtree(doc, path) == if Child(doc, path[0]).None? then None
                                  else Subtree(Child(doc, path[0]).value, path[1..])
  {
  }

  lemma FollowsNext(ts: seq<string>, path: seq<Step>)
    requires ts != [] && path != []
    ensures Follows(ts, path) <==> Selects(ts[0], path[0]) && Follows(ts[1..], path[1..])
  {
    hide Selects;
    if Follows(ts, path) {
      assert Selects(ts[0], path[0]);
    }
    if Selects(ts[0], path[0]) && Follows(ts[1..], path[1..]) {
      forall j | 0 <= j < |ts|
        ensures Selects(ts[j], path[j])
      {
        if j > 0 { assert ts[j] == ts[1..][j - 1] && path[j] == path[1..][j - 1]; }
      }
    }
  }

  lemma LeadsNext(ts: seq<string>, doc: Json, path: seq<Step>, v: Json)
    requires ts != [] && path != [] && Child(doc, path[0]).Some?
    ensures Leads(ts, doc, path, v) <==>
              Selects(ts[0], path[0]) && Leads(ts[1..], Child(doc, path[0]).value, path[1..], v)
  {
    hide Selects, Follows, Child, Subtree;
    FollowsNext(ts, path);
    SubtreeNext(doc, path);
  }

  lemma MissesNext(ts: seq<string>, doc: Json, path: seq<Step>)
    requires ts != [] && path != [] && Child(doc, path[0]).Some?
    ensures Misses(ts, doc, path) <==>
              Selects(ts[0], path[0]) && Misses(ts[1..], Child(doc, path[0]).value, path[1..])
  {
    hide Selects, Follows, Child, Subtree, HasNumberForm;
    if |path| <= |ts| {
      var front := ts[..|path|];
      assert front[1..] == ts[1..][..|path| - 1] && front[0] == ts[0];
      FollowsNext(front, path);
    }
    SubtreeNext(doc, path);
  }

  /** A step that the token selects and that exists is taken. */
  lemma SearchNext(ts: seq<string>, doc: Json, step: Step)
    requires ts != [] && Selects(ts[0], step) && Child(doc, step).Some?
    ensures Search(ts, doc) == Search(ts[1..], Child(doc, step).value)
  {
    if step.Item? { ItemSelected(ts[0], step.index); }
    hide StringToInt, NumberForm, Selects;
  }

  /** A token that is no number is one that has no form of a number. */
  lemma NumberRead(t: string)
    ensures StringToInt(t).Some? <==> t == "" || HasNumberForm(t)
  {
    hide StringToInt, NumberForm;
    ReadHasForm(t);
    if white, sign, digits :| NumberForm(t, white, sign, digits) {
      FormIsRead(t, white, sign, digits);
    }
  }

  /** No step of an array is selected by a token whose number is not below its length. */
  lemma NoneSelected(t: string, items: seq<Json>)
    requires var i := StringToInt(t); i.None? || i.value < 0 || |items| <= i.value
    ensures forall step :: Selects(t, step) ==> Child(Array(items), step).None?
  {
    hide StringToInt, Selects;
    forall step | Selects(t, step)
      ensures Child(Array(items), step).None?
    {
      if step.Item? { ItemSelected(t, step.index); }
    }
  }

  /** There is such a step, or the search ends here; the error tells why. */
  lemma SearchHere(ts: seq<string>, doc: Json) returns (step: Option<Step>)
    requires ts != []
    ensures step.Some? ==> Selects(ts[0], step.value) && Child(doc, step.value).Some?
    ensures step.None? ==>
              && Search(ts, doc).Failed?
              && forall other :: Selects(ts[0], other) ==> Child(doc, other).None?
    ensures step.None? && Search(ts, doc).error == InvalidArrayIndex ==> Misses(ts, doc, [])
    ensures Misses(ts, doc, []) ==> Search(ts, doc) == Failed(InvalidArrayIndex)
  {
    hide StringToInt, NumberForm, HasNumberForm;
    NumberRead(ts[0]);
    step := None;
    match doc {
      case Object(members) =>
        if Find(members, ts[0]).Some? { step := Some(Key(ts[0])); }
      case Array(items) =>
        var i := StringToInt(ts[0]);
        if i.Some? && 0 <= i.value < |items| {
          ItemSelected(ts[0], i.value);
          step := Some(Item(i.value));
        } else {
          NoneSelected(ts[0], items);
        }
      case _ =>
    }
  }

  /** A search finds a value exactly when there is a path to it that the tokens select. */
  lemma {:induction false} SearchFinds(ts: seq<string>, doc: Json, v: Json)
    ensures Search(ts, doc) == Found(v) <==> exists path :: Leads(ts, doc, path, v)
    decreases |ts|
  {
    hide Selects, Child;
    if ts == [] {
      assert Leads([], doc, [], v) <==> doc == v;
    } else {
      var step := SearchHere(ts, doc);
      if step.Some? {
        var child := Child(doc, step.value).value;
        SearchNext(ts, doc, step.value);
        SearchFinds(ts[1..], child, v);
        hide Search, Leads;
        if path :| Leads(ts[1..], child, path, v) {
          assert ([step.value] + path)[1..] == path;
          LeadsNext(ts, doc, [step.value] + path, v);
        }
      }
      if path :| Leads(ts, doc, path, v) {
        LeadsThrough(ts, doc, path, v);
        SearchNext(ts, doc, path[0]);
        SearchFinds(ts[1..], Child(doc, path[0]).value, v);
      }
    }
  }

  lemma LeadsThrough(ts: seq<string>, doc: Json, path: seq<Step>, v: Json)
    requires Leads(ts, doc, path, v) && ts != []
    ensures path != [] && Selects(ts[0], path[0]) && Child(doc, path[0]).Some?
    ensures Leads(ts[1..], Child(doc, path[0]).value, path[1..], v)
  {
    hide Selects, Child;
    SubtreeNext(doc, path);
    LeadsNext(ts, doc, path, v);
  }

  /** It fails with an invalid index exactly when the tokens lead to an array and the next one
      has no form of a number; any other failure is a value that is not found. */
  lemma {:induction false} SearchMisses(ts: seq<string>, doc: Json)
    ensures Search(ts, doc) == Failed(InvalidArrayIndex) <==> exists path :: Misses(ts, doc, path)
    decreases |ts|
  {
    hide Selects, Child;
    if ts != [] {
      var step := SearchHere(ts, doc);
      hide Search, Misses;
      if step.Some? {
        var child := Child(doc, step.value).value;
        SearchNext(ts, doc, step.value);
        SearchMisses(ts[1..], child);
        if path :| Misses(ts[1..], child, path) {
          assert ([step.value] + path)[1..] == path;
          MissesNext(ts, doc, [step.value] + path);
        }
      }
      if path :| Misses(ts, doc, path) && path != [] {
        MissesThrough(ts, doc, path);
        SearchNext(ts, doc, path[0]);
        SearchMisses(ts[1..], Child(doc, path[0]).value);
      }
    }
  }

  lemma MissesThrough(ts: seq<string>, doc: Json, path: seq<Step>)
    requires Misses(ts, doc, path) && ts != [] && path != []
    ensures Selects(ts[0], path[0]) && Child(doc, path[0]).Some?
    ensures Misses(ts[1..], Child(doc, path[0]).value, path[1..])
  {
    hide Selects, Child;
    SubtreeNext(doc, path);
    MissesNext(ts, doc, path);
  }
}
