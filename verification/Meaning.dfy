/** When the validator computes the meaning of the schema, and where it does not. */
module Meaning {
  import opened Options
  import opened JsonValues
  import opened Schemas
  import opened Verdicts
  import opened Judgements

  /** The judgement at the start of an array is harmless: no position that is applied to an
      array carries `anyOf`, `oneOf`, `not` or `$ref`. */
  ghost predicate Supported(s: Schema, v: Json)
    decreases s
  {
    match s
    case RefOnly(t) => !v.Array? && Supported(t, v)
    case Value(data, _, _, _, _, anyOf, oneOf, not) =>
      HasType(data, v) ==>
        && (v.Array? ==> anyOf == [] && oneOf == [] && not.None?)
        && (forall k :: 0 <= k < |Children(s)| ==> Supported(Children(s)[k].schema, v))
        && (data.ArrayData? ==>
              forall i :: 0 <= i < |v.items| && ItemSchema(data, i).Some? ==>
                Supported(ItemSchema(data, i).value, v.items[i]))
        && (data.ObjectData? ==>
              forall i, c :: 0 <= i < |v.members| && Governs(data, v.members[i].key, c) ==>
                Supported(c, v.members[i].value))
  }

  // ---- Judged parts and accepted parts ------------------------------------

  ghost predicate OnlyOneOf(s: Schema, v: Json, i: int)
    requires s.Value?
  {
    0 <= i < |s.oneOf| && Accepts(s.oneOf[i], v) && forall j :: 0 <= j < |s.oneOf| && j != i ==> !Accepts(s.oneOf[j], v)
  }

  lemma OnlyEntry(s: Schema, v: Json) returns (i: nat)
    requires s.Value? && ExactlyOneOf(s, v)
    ensures OnlyOneOf(s, v, i)
  {
    i :| 0 <= i < |s.oneOf| && Accepts(s.oneOf[i], v)
      && forall j :: 0 <= j < |s.oneOf| && j != i ==> !Accepts(s.oneOf[j], v);
  }

  lemma OnlyEntrySuffices(s: Schema, v: Json, i: nat)
    requires s.Value? && OnlyOneOf(s, v, i)
    ensures ExactlyOneOf(s, v)
  {
  }

  /** Every schema that `s` applies to the instance itself is judged as it means. */
  ghost predicate FieldsAgree(s: Schema, v: Json)
    requires s.Value?
  {
    forall t, c :: c in Field(s, t) ==> (Verdict(c, v) <==> Accepts(c, v))
  }

  lemma FieldsOf(s: Schema, v: Json)
    requires s.Value? && forall c :: c in Children(s) ==> (Verdict(c.schema, v) <==> Accepts(c.schema, v))
    ensures FieldsAgree(s, v)
  {
    hide Children, Verdict, Accepts;
    forall t, c | c in Field(s, t)
      ensures Verdict(c, v) <==> Accepts(c, v)
    {
      ChildIn(s, t, c);
      assert Child(t, c).schema == c;
    }
  }

  lemma EntriesAgree(s: Schema, v: Json)
    requires s.Value? && FieldsAgree(s, v)
    ensures forall i :: 0 <= i < |s.typeAny| ==> (Verdict(s.typeAny[i], v) <==> Accepts(s.typeAny[i], v))
    ensures forall i :: 0 <= i < |ListedTypes(s.typeList)| ==>
              (Verdict(ListedTypes(s.typeList)[i], v) <==> Accepts(ListedTypes(s.typeList)[i], v))
    ensures forall i :: 0 <= i < |s.allOf| ==> (Verdict(s.allOf[i], v) <==> Accepts(s.allOf[i], v))
    ensures forall i :: 0 <= i < |s.anyOf| ==> (Verdict(s.anyOf[i], v) <==> Accepts(s.anyOf[i], v))
    ensures forall i :: 0 <= i < |s.oneOf| ==> (Verdict(s.oneOf[i], v) <==> Accepts(s.oneOf[i], v))
    ensures s.not.Some? ==> (Verdict(s.not.value, v) <==> Accepts(s.not.value, v))
  {
    hide Verdict, Accepts;
    assert forall i :: 0 <= i < |s.typeAny| ==> s.typeAny[i] in Field(s, TypeAny);
    assert forall i :: 0 <= i < |ListedTypes(s.typeList)| ==> ListedTypes(s.typeList)[i] in Field(s, TypeList);
    assert forall i :: 0 <= i < |s.allOf| ==> s.allOf[i] in Field(s, All);
    assert forall i :: 0 <= i < |s.anyOf| ==> s.anyOf[i] in Field(s, Any);
    assert forall i :: 0 <= i < |s.oneOf| ==> s.oneOf[i] in Field(s, One);
    assert s.not.Some? ==> s.not.value in Field(s, Not);
  }

  ghost predicate ElementsAgree(s: Schema, v: Json)
    requires s.Value? && HasType(s.data, v)
  {
    && (s.data.ArrayData? ==>
          forall i :: 0 <= i < |v.items| ==>
            var c := ItemSchema(s.data, i); c.Some? ==>
              (Verdict(c.value, v.items[i]) <==> Accepts(c.value, v.items[i])))
    && (s.data.ObjectData? ==>
          forall i, c :: 0 <= i < |v.members| && Governs(s.data, v.members[i].key, c) ==>
            (Verdict(c, v.members[i].value) <==> Accepts(c, v.members[i].value)))
  }

  lemma ElementsBoth(data: Data, s: Schema, v: Json)
    requires s.Value? && data == s.data && HasType(data, v) && ElementsAgree(s, v)
    ensures ElementsJudged(data, v) <==> ElementsAccepted(data, v)
  {
    hide Verdict, Accepts, Governs, ItemSchema;
  }

  /** `not` apart from the other demands. */
  lemma DemandsSplit(s: Schema, v: Json)
    requires s.Value?
    ensures DemandsMet(s, v) <==> DemandsMet(s.(not := None), v) && (s.not.Some? ==> !Accepts(s.not.value, v))
  {
    hide Accepts, TypeApplies;
  }

  lemma DemandsBoth(s: Schema, v: Json)
    requires s.Value? && FieldsAgree(s, v)
    ensures DemandsJudged(s, v) <==> DemandsMet(s.(not := None), v)
  {
    EntriesAgree(s, v);
    hide Verdict, Accepts, TypeApplies;
  }

  lemma OneBoth(s: Schema, v: Json)
    requires s.Value? && FieldsAgree(s, v)
    ensures (exists i :: OnlyJudged(s.oneOf, v, i)) <==> ExactlyOneOf(s, v)
  {
    EntriesAgree(s, v);
    hide Verdict, Accepts, ExactlyOneOf;
    if i :| OnlyJudged(s.oneOf, v, i) {
      assert OnlyOneOf(s, v, i);
      OnlyEntrySuffices(s, v, i);
    }
    if ExactlyOneOf(s, v) {
      var i := OnlyEntry(s, v);
      assert OnlyJudged(s.oneOf, v, i);
    }
  }

  lemma ValueAccepts(s: Schema, v: Json)
    requires s.Value?
    ensures Accepts(s, v) <==>
              && HasType(s.data, v) && Enumerated(s.enumeration, v) && LeafOk(s.data, v)
              && ElementsAccepted(s.data, v) && DemandsMet(s, v) && ChoicesMet(s, v)
  {
    hide HasType, Enumerated, LeafOk, ElementsAccepted, DemandsMet, ChoicesMet;
  }

  /** All keywords but the four are judged as they mean when the parts are. */
  lemma OthersBoth(s: Schema, v: Json)
    requires s.Value? && HasType(s.data, v) && FieldsAgree(s, v) && ElementsAgree(s, v)
    ensures OthersJudged(s, v) <==>
              && Enumerated(s.enumeration, v) && LeafOk(s.data, v) && ElementsAccepted(s.data, v)
              && DemandsMet(s.(not := None), v) && SomeListed(s, v)
  {
    ElementsBoth(s.data, s, v);
    DemandsBoth(s, v);
    hide Enumerated, LeafOk, ElementsAccepted, ElementsJudged, DemandsMet, DemandsJudged, SomeListed, HasType,
      FieldsAgree, ElementsAgree;
  }

  /** So is everything, where the start of an array judges nothing. */
  lemma JudgedAsMeant(s: Schema, v: Json)
    requires s.Value? && HasType(s.data, v) && FieldsAgree(s, v) && ElementsAgree(s, v)
    requires v.Array? ==> s.anyOf == [] && s.oneOf == [] && s.not.None?
    ensures OthersJudged(s, v) && FourJudged(s, v) <==> Accepts(s, v)
  {
    OthersBoth(s, v);
    DemandsSplit(s, v);
    OneBoth(s, v);
    ValueAccepts(s, v);
    EntriesAgree(s, v);
    hide Enumerated, LeafOk, ElementsAccepted, DemandsMet, HasType, FieldsAgree, ElementsAgree, Verdict, Accepts, Early,
      EarlyCount, OthersJudged, OnlyJudged, ExactlyOneOf, TypeApplies;
  }

  // ---- The theorem --------------------------------------------------------

  /** On every supported instance the validator ends with the meaning of the schema. */
  lemma {:induction false} VerdictIsMeaning(s: Schema, v: Json)
    requires Compiled(s) && Supported(s, v)
    ensures Verdict(s, v) <==> Accepts(s, v)
    decreases s
  {
    if s.RefOnly? {
      assert Children(s)[0] == Child(Ref, s.target);
      VerdictIsMeaning(s.target, v);
    } else if HasType(s.data, v) {
      forall c | c in Children(s)
        ensures Verdict(c.schema, v) <==> Accepts(c.schema, v)
      {
        VerdictIsMeaning(c.schema, v);
      }
      ElementsMean(s, v);
      hide Children, Verdict, Accepts, Compiled, FieldsAgree, ElementsAgree, HasType;
      FieldsOf(s, v);
      VerdictByParts(s, v);
      JudgedAsMeant(s, v);
    }
  }

  lemma {:induction false} ElementsMean(s: Schema, v: Json)
    requires s.Value? && HasType(s.data, v) && Compiled(s) && Supported(s, v)
    ensures ElementsAgree(s, v)
    decreases s, 0
  {
    hide Children;
    if s.data.ArrayData? {
      forall i | 0 <= i < |v.items| && ItemSchema(s.data, i).Some?
        ensures Verdict(ItemSchema(s.data, i).value, v.items[i]) <==> Accepts(ItemSchema(s.data, i).value, v.items[i])
      {
        VerdictIsMeaning(ItemSchema(s.data, i).value, v.items[i]);
      }
    } else if s.data.ObjectData? {
      forall i, c | 0 <= i < |v.members| && Governs(s.data, v.members[i].key, c)
        ensures Verdict(c, v.members[i].value) <==> Accepts(c, v.members[i].value)
      {
        VerdictIsMeaning(c, v.members[i].value);
      }
    }
  }

  // ---- Which schemas and instances are supported --------------------------

  predicate ArrayFree(v: Json) {
    && !v.Array?
    && (v.Object? ==> forall i :: 0 <= i < |v.members| ==> ArrayFree(v.members[i].value))
  }

  /** Without arrays every schema is supported. */
  lemma {:induction false} ArrayFreeIsSupported(s: Schema, v: Json)
    requires ArrayFree(v)
    ensures Supported(s, v)
    decreases s
  {
    if s.RefOnly? {
      ArrayFreeIsSupported(s.target, v);
    } else {
      forall k | 0 <= k < |Children(s)|
        ensures Supported(Children(s)[k].schema, v)
      {
        ArrayFreeIsSupported(Children(s)[k].schema, v);
      }
      hide Children;
      if s.data.ObjectData? && v.Object? {
        forall i, c | 0 <= i < |v.members| && Governs(s.data, v.members[i].key, c)
          ensures Supported(c, v.members[i].value)
        {
          ArrayFreeIsSupported(c, v.members[i].value);
        }
      }
    }
  }

  /** The schema uses `anyOf`, `oneOf`, `not` and `$ref` nowhere. */
  ghost predicate Straight(s: Schema)
    decreases s, 1
  {
    && s.Value? && s.anyOf == [] && s.oneOf == [] && s.not.None?
    && (forall k :: 0 <= k < |Children(s)| ==> Straight(Children(s)[k].schema))
    && DataStraight(s.data)
  }

  ghost predicate DataStraight(data: Data)
    decreases data, 0
  {
    && (data.ArrayData? ==>
          forall i :: 0 <= i && ItemSchema(data, i).Some? ==> Straight(ItemSchema(data, i).value))
    && (data.ObjectData? ==> forall key, c :: Governs(data, key, c) ==> Straight(c))
  }

  /** Such schemas are supported on every instance. */
  lemma {:induction false} StraightIsSupported(s: Schema, v: Json)
    requires Straight(s)
    ensures Supported(s, v)
    decreases s
  {
    forall k | 0 <= k < |Children(s)|
      ensures Supported(Children(s)[k].schema, v)
    {
      StraightIsSupported(Children(s)[k].schema, v);
    }
    hide Children;
    if s.data.ArrayData? && v.Array? {
      forall i | 0 <= i < |v.items| && ItemSchema(s.data, i).Some?
        ensures Supported(ItemSchema(s.data, i).value, v.items[i])
      {
        StraightIsSupported(ItemSchema(s.data, i).value, v.items[i]);
      }
    } else if s.data.ObjectData? && v.Object? {
      forall i, c | 0 <= i < |v.members| && Governs(s.data, v.members[i].key, c)
        ensures Supported(c, v.members[i].value)
      {
        StraightIsSupported(c, v.members[i].value);
      }
    }
  }
}
