/** What the judgement at the start of an array does to `$ref`, `not`, `anyOf` and `oneOf`
    (`src/schema/jso_schema_validation_stream.c`, lines 157-161).

    The flags that it sets are kept, so a subschema that does not fail before the first
    item counts as accepting the array.  Each lemma says what the validator answers and
    exactly when that is the meaning of the schema. */
module ArrayStarts {
  import opened Options
  import opened JsonValues
  import opened Schemas
  import opened Verdicts
  import opened Judgements
  import opened Meaning

  /** What an array schema accepts, it does not rule out at its start. */
  lemma AcceptedEarly(c: Schema, v: Json)
    requires v.Array? && Compiled(c) && Supported(c, v) && Accepts(c, v)
    ensures Early(c)
  {
    VerdictIsMeaning(c, v);
    if !Early(c) { NotEarlyRejects(c, v); }
  }

  ghost function AcceptedCount(cs: seq<Schema>, v: Json, m: nat): nat
    requires m <= |cs|
    decreases |cs| - m
  {
    if m == |cs| then 0 else AcceptedCount(cs, v, m + 1) + (if Accepts(cs[m], v) then 1 else 0)
  }

  lemma {:induction false} CountedEarly(cs: seq<Schema>, v: Json, m: nat)
    requires v.Array? && m <= |cs|
    requires forall k :: 0 <= k < |cs| ==> Accepts(cs[k], v) ==> Early(cs[k])
    ensures AcceptedCount(cs, v, m) <= EarlyCount(cs, m)
    decreases |cs| - m
  {
    hide Early, Accepts;
    if m < |cs| { CountedEarly(cs, v, m + 1); }
  }

  ghost predicate NoneFrom(cs: seq<Schema>, v: Json, m: nat) {
    forall k :: m <= k < |cs| ==> !Accepts(cs[k], v)
  }

  ghost predicate OnlyFrom(cs: seq<Schema>, v: Json, m: nat, k: nat) {
    m <= k < |cs| && Accepts(cs[k], v) && forall j :: m <= j < |cs| && j != k ==> !Accepts(cs[j], v)
  }

  /** The counts say how many alternatives accept. */
  lemma {:induction false} CountMeans(cs: seq<Schema>, v: Json, m: nat)
    requires m <= |cs|
    ensures AcceptedCount(cs, v, m) == 0 <==> NoneFrom(cs, v, m)
    ensures AcceptedCount(cs, v, m) == 1 <==> exists k: nat :: OnlyFrom(cs, v, m, k)
    decreases |cs| - m
  {
    hide Accepts;
    if m < |cs| {
      CountMeans(cs, v, m + 1);
      if Accepts(cs[m], v) {
        if NoneFrom(cs, v, m + 1) { assert OnlyFrom(cs, v, m, m); }
      } else {
        var n := m + 1;
        if k: nat :| OnlyFrom(cs, v, n, k) { assert OnlyFrom(cs, v, m, k); }
        if k: nat :| OnlyFrom(cs, v, m, k) { assert OnlyFrom(cs, v, n, k); }
      }
    }
  }

  lemma OneOfCount(s: Schema, v: Json)
    requires s.Value?
    ensures ExactlyOneOf(s, v) <==> AcceptedCount(s.oneOf, v, 0) == 1
  {
    CountMeans(s.oneOf, v, 0);
    hide Accepts, ExactlyOneOf, AcceptedCount;
    if ExactlyOneOf(s, v) {
      var k := OnlyEntry(s, v);
      assert OnlyFrom(s.oneOf, v, 0, k);
    }
    if k: nat :| OnlyFrom(s.oneOf, v, 0, k) {
      OnlyEntrySuffices(s, v, k);
    }
  }

  // ---- Any schema over supported parts ------------------------------------

  /** Everything that the schema is applied through is supported, whatever it says itself. */
  ghost predicate PartsSupported(s: Schema, v: Json) {
    match s
    case RefOnly(t) => Supported(t, v)
    case Value(data, _, _, _, _, _, _, _) =>
      HasType(data, v) ==>
        && (forall k :: 0 <= k < |Children(s)| ==> Supported(Children(s)[k].schema, v))
        && (data.ArrayData? ==>
              forall i :: 0 <= i < |v.items| && ItemSchema(data, i).Some? ==>
                Supported(ItemSchema(data, i).value, v.items[i]))
  }

  /** All keywords but `$ref`, `not`, `anyOf` and `oneOf`. */
  ghost predicate OthersMet(s: Schema, v: Json) {
    s.Value? ==>
      && HasType(s.data, v)
      && Enumerated(s.enumeration, v)
      && LeafOk(s.data, v)
      && ElementsAccepted(s.data, v)
      && DemandsMet(s.(not := None), v)
      && SomeListed(s, v)
  }

  /** What the four keywords mean, by counts of accepting alternatives. */
  ghost predicate FourMet(s: Schema, v: Json) {
    match s
    case RefOnly(t) => Accepts(t, v)
    case Value(_, _, _, _, _, anyOf, oneOf, not) =>
      && (not.Some? ==> !Accepts(not.value, v))
      && (anyOf != [] ==> AcceptedCount(anyOf, v, 0) > 0)
      && (oneOf != [] ==> AcceptedCount(oneOf, v, 0) == 1)
  }

  /** The meaning of any schema, with the four keywords apart. */
  lemma AcceptsByParts(s: Schema, v: Json)
    ensures Accepts(s, v) <==> OthersMet(s, v) && FourMet(s, v)
  {
    if s.Value? {
      DemandsSplit(s, v);
      OneOfCount(s, v);
      CountMeans(s.anyOf, v, 0);
      ValueAccepts(s, v);
      hide Accepts, HasType, Enumerated, LeafOk, ElementsAccepted, DemandsMet, ExactlyOneOf, AcceptedCount, TypeApplies;
    }
  }

  lemma PartsMean(s: Schema, v: Json)
    requires v.Array? && s.Value? && HasType(s.data, v) && Compiled(s) && PartsSupported(s, v)
    ensures FieldsAgree(s, v) && ElementsAgree(s, v)
  {
    forall c | c in Children(s)
      ensures Verdict(c.schema, v) <==> Accepts(c.schema, v)
    {
      hide Verdict, Accepts;
      VerdictIsMeaning(c.schema, v);
    }
    FieldsOf(s, v);
    hide Children, FieldsAgree;
    if s.data.ArrayData? {
      forall i | 0 <= i < |v.items| && ItemSchema(s.data, i).Some?
        ensures Verdict(ItemSchema(s.data, i).value, v.items[i]) <==> Accepts(ItemSchema(s.data, i).value, v.items[i])
      {
        VerdictIsMeaning(ItemSchema(s.data, i).value, v.items[i]);
      }
    }
  }

  /** What the validator answers for any schema over supported parts on an array. */
  lemma JudgedOnArray(s: Schema, v: Json)
    requires v.Array? && Compiled(s) && PartsSupported(s, v)
    ensures Verdict(s, v) <==> OthersMet(s, v) && FourJudged(s, v)
  {
    hide Verdict, Accepts, Compiled, FourJudged;
    VerdictByParts(s, v);
    if s.Value? && HasType(s.data, v) {
      PartsMean(s, v);
      OthersBoth(s, v);
      hide HasType, Enumerated, LeafOk, ElementsAccepted, ElementsJudged, DemandsMet, DemandsJudged, SomeListed,
        FieldsAgree, ElementsAgree, PartsSupported, OthersJudged;
    }
  }

  /** On an array the validator answers rightly exactly when another keyword fails anyway,
      or the judgement at the start and the meaning of the four keywords come out the same. */
  lemma RightOnArray(s: Schema, v: Json)
    requires v.Array? && Compiled(s) && PartsSupported(s, v)
    ensures (Verdict(s, v) <==> Accepts(s, v)) <==> (OthersMet(s, v) ==> (FourJudged(s, v) <==> FourMet(s, v)))
  {
    JudgedOnArray(s, v);
    AcceptsByParts(s, v);
    hide Verdict, Accepts, OthersMet, FourJudged, FourMet;
  }

  // ---- Schemas that consist of one keyword --------------------------------

  function Untyped(anyOf: seq<Schema>, oneOf: seq<Schema>, not: Option<Schema>): (s: Schema)
    ensures s.Value?
  {
    Value(MixedData, None, [], Unlisted, [], anyOf, oneOf, not)
  }

  ghost predicate AllSupported(cs: seq<Schema>, v: Json) {
    forall k :: 0 <= k < |cs| ==> Compiled(cs[k]) && Supported(cs[k], v)
  }

  lemma UntypedOthers(s: Schema, v: Json)
    requires s.Value? && s == Untyped(s.anyOf, s.oneOf, s.not)
    ensures OthersMet(s, v)
  {
    hide Accepts;
  }

  lemma UntypedChild(s: Schema, v: Json, k: nat)
    requires s.Value? && s == Untyped(s.anyOf, s.oneOf, s.not) && k < |Children(s)|
    requires AllSupported(s.anyOf, v) && AllSupported(s.oneOf, v) && AllSupported(OptionalSchema(s.not), v)
    ensures var c := Children(s)[k]; Compiled(c.schema) && Supported(c.schema, v) && c.composition in {Any, One, Not}
  {
    hide Compiled, Supported, Children, Offset;
    EntryOfChild(s, k);
  }

  lemma UntypedParts(s: Schema, v: Json)
    requires s.Value? && s == Untyped(s.anyOf, s.oneOf, s.not)
    requires AllSupported(s.anyOf, v) && AllSupported(s.oneOf, v) && AllSupported(OptionalSchema(s.not), v)
    ensures Compiled(s) && PartsSupported(s, v) && OthersMet(s, v)
  {
    UntypedOthers(s, v);
    forall k | 0 <= k < |Children(s)|
      ensures var c := Children(s)[k]; Compiled(c.schema) && Supported(c.schema, v) && c.composition in {Any, One, Not}
    {
      UntypedChild(s, v, k);
    }
    hide Supported, Children, OthersMet, AllSupported, Plain;
  }

  lemma RefOnArray(target: Schema, v: Json)
    requires v.Array? && Compiled(target) && Supported(target, v)
    ensures Verdict(RefOnly(target), v) <==> Early(target)
    ensures (Verdict(RefOnly(target), v) <==> Accepts(RefOnly(target), v)) <==> (Early(target) ==> Accepts(target, v))
  {
    var s := RefOnly(target);
    assert Children(s) == [Child(Ref, target)];
    if Accepts(target, v) { AcceptedEarly(target, v); }
    hide Verdict, Accepts, Early, Children;
    RightOnArray(s, v);
    JudgedOnArray(s, v);
  }

  lemma NotOnArray(n: Schema, v: Json)
    requires v.Array? && Compiled(n) && Supported(n, v)
    ensures var s := Untyped([], [], Some(n));
            && (Verdict(s, v) <==> !Early(n))
            && ((Verdict(s, v) <==> Accepts(s, v)) <==> (Early(n) ==> Accepts(n, v)))
  {
    var s := Untyped([], [], Some(n));
    if Accepts(n, v) { AcceptedEarly(n, v); }
    hide Verdict, Accepts, Early, Compiled, Supported, Children, OthersMet, PartsSupported;
    UntypedParts(s, v);
    JudgedOnArray(s, v);
    RightOnArray(s, v);
  }

  /** An array is accepted under `anyOf` as soon as one alternative does not fail at once. */
  lemma AnyOfOnArray(cs: seq<Schema>, v: Json)
    requires v.Array? && cs != [] && AllSupported(cs, v)
    ensures var s := Untyped(cs, [], None);
            && (Verdict(s, v) <==> EarlyCount(cs, 0) > 0)
            && ((Verdict(s, v) <==> Accepts(s, v)) <==> (EarlyCount(cs, 0) > 0 ==> AcceptedCount(cs, v, 0) > 0))
  {
    var s := Untyped(cs, [], None);
    hide Verdict, Accepts, Early, Compiled, Supported, Children, OthersMet, PartsSupported, EarlyCount, AcceptedCount;
    UntypedParts(s, v);
    UntypedCounts(s, v);
    JudgedOnArray(s, v);
    RightOnArray(s, v);
  }

  /** Under `oneOf` an array is accepted exactly when one alternative does not fail at once
      and none accepts in the end, which is never right. */
  lemma OneOfOnArray(cs: seq<Schema>, v: Json)
    requires v.Array? && cs != [] && AllSupported(cs, v)
    ensures var s := Untyped([], cs, None);
            && (Verdict(s, v) <==> EarlyCount(cs, 0) == 1 && AcceptedCount(cs, v, 0) == 0)
            && (Accepts(s, v) <==> AcceptedCount(cs, v, 0) == 1)
            && ((Verdict(s, v) <==> Accepts(s, v)) <==>
                  EarlyCount(cs, 0) != 1 && AcceptedCount(cs, v, 0) != 1)
  {
    var s := Untyped([], cs, None);
    hide Verdict, Accepts, Early, Compiled, Supported, Children, OthersMet, PartsSupported, EarlyCount, AcceptedCount;
    UntypedParts(s, v);
    UntypedCounts(s, v);
    JudgedOnArray(s, v);
    AcceptsByParts(s, v);
  }

  lemma UntypedCounts(s: Schema, v: Json)
    requires v.Array? && s.Value? && AllSupported(s.anyOf, v) && AllSupported(s.oneOf, v)
    ensures AcceptedCount(s.anyOf, v, 0) <= EarlyCount(s.anyOf, 0)
    ensures AcceptedCount(s.oneOf, v, 0) <= EarlyCount(s.oneOf, 0)
    ensures (forall i :: 0 <= i < |s.oneOf| ==> !Verdict(s.oneOf[i], v)) <==> AcceptedCount(s.oneOf, v, 0) == 0
  {
    hide Verdict, Accepts, Early, Compiled, Supported, EarlyCount, AcceptedCount;
    CountMeans(s.oneOf, v, 0);
    forall k | 0 <= k < |s.oneOf| ensures Verdict(s.oneOf[k], v) <==> Accepts(s.oneOf[k], v) {
      VerdictIsMeaning(s.oneOf[k], v);
    }
    forall k | 0 <= k < |s.anyOf| ensures Accepts(s.anyOf[k], v) ==> Early(s.anyOf[k]) {
      if Accepts(s.anyOf[k], v) { AcceptedEarly(s.anyOf[k], v); }
    }
    forall k | 0 <= k < |s.oneOf| ensures Accepts(s.oneOf[k], v) ==> Early(s.oneOf[k]) {
      if Accepts(s.oneOf[k], v) { AcceptedEarly(s.oneOf[k], v); }
    }
    CountedEarly(s.anyOf, v, 0);
    CountedEarly(s.oneOf, v, 0);
  }

  /** An array of strings, as a schema. */
  const STRINGS: Schema :=
    Value(ArrayData(OneSchema(Value(StringData(None, None, None), None, [], Unlisted, [], [], [], None)),
                    Unset, false, None, None),
          None, [], Unlisted, [], [], [], None)

  lemma StringsFacts(v: Json)
    requires v == Array([Int(0)])
    ensures Compiled(STRINGS) && Supported(STRINGS, v) && Early(STRINGS) && !Accepts(STRINGS, v)
  {
    var item := STRINGS.data.items.schema;
    assert Children(STRINGS) == [] && Children(item) == [];
    assert Compiled(item) && !Accepts(item, v.items[0]);
    assert ItemSchema(STRINGS.data, 0) == Some(item);
    assert forall i: nat :: ItemSchema(STRINGS.data, i) == Some(item);
  }

  /** The array [0] against the schema of string arrays under each of the four keywords. */
  lemma WrongOnArrays(v: Json)
    requires v == Array([Int(0)])
    ensures Verdict(RefOnly(STRINGS), v) && !Accepts(RefOnly(STRINGS), v)
    ensures !Verdict(Untyped([], [], Some(STRINGS)), v) && Accepts(Untyped([], [], Some(STRINGS)), v)
    ensures Verdict(Untyped([STRINGS], [], None), v) && !Accepts(Untyped([STRINGS], [], None), v)
    ensures Verdict(Untyped([], [STRINGS], None), v) && !Accepts(Untyped([], [STRINGS], None), v)
  {
    StringsFacts(v);
    var one := [STRINGS];
    assert EarlyCount(one, 1) == 0 && AcceptedCount(one, v, 1) == 0;
    hide Verdict, Accepts, Compiled, Supported, Early, STRINGS;
    RefOnArray(STRINGS, v);
    NotOnArray(STRINGS, v);
    AnyOfOnArray(one, v);
    OneOfOnArray(one, v);
  }
}
