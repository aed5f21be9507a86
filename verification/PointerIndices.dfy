/** Which JSON Pointers the library resolves as RFC 6901, section 4, says.

    An array index of the RFC is a natural number in decimal without a leading zero.  The
    library reads the token with `strtol` (`src/jso_string.h`, lines 230-239), which also
    takes the empty token, leading white space, a sign and leading zeros, and which clamps
    what does not fit a `long`. */
module PointerIndices {
  import opened Options
  import opened JsonValues
  import opened NumberTexts
  import opened JsonPointers
  import opened PointerMeanings

  /** The array indices of RFC 6901, section 4. */
  predicate RfcIndex(t: string) {
    t != [] && AllDigits(t) && (t[0] == '0' ==> |t| == 1)
  }

  lemma {:induction false} IndexIsItsText(t: string)
    requires RfcIndex(t)
    ensures NatText(TextValue(t)) == t
    ensures t[0] != '0' ==> TextValue(t) > 0
  {
    var n := |t| - 1;
    if n > 0 {
      IndexIsItsText(t[..n]);
      assert t == t[..n] + [t[n]];
    } else {
      assert t == [t[0]] && t[..0] == [];
    }
  }

  /** They are exactly the decimal texts of the natural numbers. */
  lemma RfcIndexMeans(t: string)
    ensures RfcIndex(t) <==> exists n: nat :: t == NatText(n)
  {
    if RfcIndex(t) { IndexIsItsText(t); }
    if n: nat :| t == NatText(n) { NatTextValue(n); }
  }

  /** The item that the RFC selects for the token in an array of this length. */
  function RfcItem(t: string, length: nat): (i: Option<nat>)
    ensures i.Some? ==> i.value < length
  {
    if RfcIndex(t) && TextValue(t) < length then Some(TextValue(t)) else None
  }

  /** Where the library takes what the RFC takes: on array indices that `strtol` does not
      clamp, and on tokens for which it takes no item. */
  predicate Clear(t: string, length: nat) {
    || (RfcIndex(t) && TextValue(t) <= INT_MAX)
    || (var i := StringToInt(t); i.None? || i.value < 0 || i.value >= length)
  }

  lemma IndexToInt(t: string)
    requires RfcIndex(t)
    ensures StringToInt(t) == Some(Clamp(TextValue(t)))
  {
    assert IsDigit(t[0]);
  }

  /** One token against one array. */
  lemma StepAgrees(t: string, length: nat)
    ensures TakenIndex(t, length) == RfcItem(t, length) <==> Clear(t, length)
    ensures length <= INT_MAX && RfcIndex(t) ==> Clear(t, length)
  {
    if RfcIndex(t) { IndexToInt(t); }
    hide StringToInt, TextValue, RfcIndex;
  }

  /** The tokens that the library takes for an item although they are no array index. */
  predicate Deviates(t: string) {
    !RfcIndex(t) && StringToInt(t).Some? && StringToInt(t).value >= 0
  }

  /** A form that is no index of the RFC, and a number that is not negative. */
  predicate DeviatingForm(t: string, white: string, sign: string, digits: string) {
    && NumberForm(t, white, sign, digits)
    && (white != "" || sign != "" || (digits[0] == '0' && |digits| > 1))
    && (sign == "-" ==> TextValue(digits) == 0)
  }

  /** All of them: the empty token, and numbers behind white space, a sign or a zero. */
  lemma DeviatingTokens(t: string)
    ensures Deviates(t) <==> t == "" || exists white, sign, digits :: DeviatingForm(t, white, sign, digits)
  {
    hide StringToInt, TextValue;
    ReadHasForm(t);
    if white, sign, digits :| NumberForm(t, white, sign, digits) {
      FormIsRead(t, white, sign, digits);
      if Deviates(t) {
        assert white == "" && sign == "" ==> t == digits;
        assert DeviatingForm(t, white, sign, digits);
      }
    }
    if white, sign, digits :| DeviatingForm(t, white, sign, digits) {
      FormIsRead(t, white, sign, digits);
      assert t[0] == (white + sign + digits)[0];
    }
  }

  /** A token is not clear when it selects an item without being an index that fits. */
  lemma ClearMeans(t: string, length: nat)
    ensures Clear(t, length) <==>
              || (RfcIndex(t) && TextValue(t) <= INT_MAX)
              || forall i | 0 <= i < length :: !Selects(t, Item(i))
  {
    hide StringToInt, TextValue, RfcIndex, Selects;
    forall i | 0 <= i < length
      ensures Selects(t, Item(i)) <==> StringToInt(t) == Some(i)
    {
      ItemSelected(t, i);
    }
  }

  /** The path that the RFC selects: object members by name, array items by index. */
  function RfcPath(ts: seq<string>, doc: Json): Option<seq<Step>>
    decreases |ts|
  {
    if ts == [] then Some([])
    else
      match doc
      case Object(members) =>
        var i := Find(members, ts[0]);
        if i.None? then None else ConsStep(Key(ts[0]), RfcPath(ts[1..], members[i.value].value))
      case Array(items) =>
        var i := RfcItem(ts[0], |items|);
        if i.None? then None else ConsStep(Item(i.value), RfcPath(ts[1..], items[i.value]))
      case _ => None
  }

  /** The RFC selects every path that exists by the tokens printed for it. */
  lemma {:induction false} PrintedPathSelected(doc: Json, path: seq<Step>)
    requires Subtree(doc, path).Some?
    ensures RfcPath(PathTokens(path), doc) == Some(path)
    decreases |path|
  {
    if path != [] {
      var ts := PathTokens(path);
      assert ts[0] == StepToken(path[0]) && ts[1..] == PathTokens(path[1..]);
      assert path == [path[0]] + path[1..];
      hide NatText, TextValue, PathTokens, RfcIndex;
      match (doc, path[0])
      case (Object(members), Key(k)) =>
        PrintedPathSelected(members[Find(members, k).value].value, path[1..]);
      case (Array(items), Item(i)) =>
        RfcIndexMeans(ts[0]);
        NatTextValue(i);
        PrintedPathSelected(items[i], path[1..]);
    }
  }

  /** Every token is clear for the array that the search meets it at. */
  predicate ClearAlong(ts: seq<string>, doc: Json)
    decreases |ts|
  {
    ts == [] ||
    match doc
    case Object(members) =>
      var i := Find(members, ts[0]);
      i.Some? ==> ClearAlong(ts[1..], members[i.value].value)
    case Array(items) =>
      var i := TakenIndex(ts[0], |items|);
      Clear(ts[0], |items|) && (i.Some? ==> ClearAlong(ts[1..], items[i.value]))
    case _ => true
  }

  /** No array has more items than a `long` can count. */
  predicate Countable(doc: Json) {
    match doc
    case Array(items) => |items| <= INT_MAX && forall i :: 0 <= i < |items| ==> Countable(items[i])
    case Object(ms) => forall i :: 0 <= i < |ms| ==> Countable(ms[i].value)
    case _ => true
  }

  /** Tokens that are clear all along lead the library where they lead the RFC.  Others
      never lead it to what the RFC selects, which in a countable document is nothing. */
  lemma {:induction false} PathsAgree(ts: seq<string>, doc: Json)
    ensures ClearAlong(ts, doc) ==> TakenPath(ts, doc) == RfcPath(ts, doc)
    ensures !ClearAlong(ts, doc) && TakenPath(ts, doc).Some? ==> TakenPath(ts, doc) != RfcPath(ts, doc)
    ensures !ClearAlong(ts, doc) && Countable(doc) ==> RfcPath(ts, doc).None?
    decreases |ts|
  {
    hide TakenIndex, RfcItem, Clear;
    if ts != [] {
      match doc {
        case Object(members) =>
          var i := Find(members, ts[0]);
          if i.Some? {
            var child := members[i.value].value;
            PathsAgree(ts[1..], child);
            OneStep(Key(ts[0]), TakenPath(ts[1..], child), Key(ts[0]), RfcPath(ts[1..], child));
          }
        case Array(items) =>
          StepAgrees(ts[0], |items|);
          var i := TakenIndex(ts[0], |items|);
          var j := RfcItem(ts[0], |items|);
          if i.Some? {
            PathsAgree(ts[1..], items[i.value]);
            if j.Some? {
              OneStep(Item(i.value), TakenPath(ts[1..], items[i.value]), Item(j.value),
                RfcPath(ts[1..], items[j.value]));
            }
          }
          if |items| <= INT_MAX && !Clear(ts[0], |items|) { NotClear(ts[0], |items|); }
        case _ =>
      }
    }
  }

  lemma OneStep(a: Step, p: Option<seq<Step>>, b: Step, q: Option<seq<Step>>)
    ensures ConsStep(a, p).Some? && ConsStep(a, p) == ConsStep(b, q) ==> a == b && p == q
  {
    if p.Some? && q.Some? {
      assert ([a] + p.value)[0] == a && ([b] + q.value)[0] == b;
      assert ([a] + p.value)[1..] == p.value && ([b] + q.value)[1..] == q.value;
    }
  }

  lemma NotClear(t: string, length: nat)
    requires !Clear(t, length) && length <= INT_MAX
    ensures RfcItem(t, length).None?
  {
    if RfcIndex(t) { IndexToInt(t); }
  }

  function Resolved(r: Resolution): Option<Json> {
    if r.Found? then Some(r.value) else None
  }

  /** What the RFC resolves the tokens to. */
  function RfcResolve(ts: seq<string>, doc: Json): Option<Json> {
    var path := RfcPath(ts, doc);
    if path.None? then None else Subtree(doc, path.value)
  }

  /** The library resolves a pointer as the RFC does exactly when all tokens are clear for the
      arrays that they meet, or both take no path.  Arrays in memory are countable. */
  lemma ResolvesAsRfc(ts: seq<string>, doc: Json)
    requires Countable(doc)
    ensures Resolved(Search(ts, doc)) == RfcResolve(ts, doc) <==>
              ClearAlong(ts, doc) || (TakenPath(ts, doc).None? && RfcPath(ts, doc).None?)
  {
    PathsAgree(ts, doc);
    FoundSomewhere(ts, doc);
    hide Search, TakenPath, RfcPath, ClearAlong, Countable;
  }

  /** A single token that is no array index: the library finds an item, the RFC does not. */
  lemma DeviatingPointer(t: string, items: seq<Json>)
    requires Deviates(t) && StringToInt(t).value < |items|
    ensures Tokens(Print([t])) == Some([t])
    ensures Search([t], Array(items)) == Found(items[StringToInt(t).value])
    ensures RfcResolve([t], Array(items)).None?
  {
    PrintThenCompile([t]);
    hide StringToInt, RfcIndex;
    var ts: seq<string> := [t];
    assert ts[1..] == [];
  }

  lemma DeviatingExample(t: string, white: string, sign: string, digits: string)
    requires DeviatingForm(t, white, sign, digits)
    ensures Deviates(t) && StringToInt(t) == Some(InLong(Signed(sign, digits)))
  {
    FormIsRead(t, white, sign, digits);
    DeviatingTokens(t);
    hide *;
  }

  lemma SmallTexts()
    ensures TextValue("0") == 0 && TextValue("1") == 1 && TextValue("01") == 1
  {
    hide TextValue;
    TextValueMeans("", "0");
    TextValueMeans("0", "1");
    assert "01" == "0" + "1" && Power(1) == 10 * Power(0);
  }

  lemma SmallForms()
    ensures DeviatingForm("01", "", "", "01") && DeviatingForm("+1", "", "+", "1")
    ensures DeviatingForm(" 1", " ", "", "1") && DeviatingForm("-0", "", "-", "0")
  {
    SmallTexts();
    hide TextValue;
  }

  /** One token of each kind. */
  lemma DeviatingExamples()
    ensures Deviates("") && StringToInt("") == Some(0)
    ensures Deviates("01") && StringToInt("01") == Some(1)
    ensures Deviates("+1") && StringToInt("+1") == Some(1)
    ensures Deviates(" 1") && StringToInt(" 1") == Some(1)
    ensures Deviates("-0") && StringToInt("-0") == Some(0)
  {
    SmallTexts();
    SmallForms();
    DeviatingTokens("");
    ReadHasForm("");
    hide TextValue, StringToInt, Deviates, RfcIndex, DeviatingForm, NumberForm;
    DeviatingExample("01", "", "", "01");
    DeviatingExample("+1", "", "+", "1");
    DeviatingExample(" 1", " ", "", "1");
    DeviatingExample("-0", "", "-", "0");
  }
}
