/** When an instance meets a document as Draft 4 reads values exactly when it does as the
    library reads them. */
module StandardMeanings {
  import opened Options
  import opened JsonValues
  import opened Schemas
  import opened Readings
  import opened SchemaParsers

  // ---- The type keyword ---------------------------------------------------

  predicate Names(types: RawType, t: TypeName) {
    match types
    case NoType => false
    case SingleType(name) => TypeOfName(name) == Some(t)
    case TypeNames(names) => exists i :: 0 <= i < |names| && TypeOfName(names[i]) == Some(t)
  }

  /** A double without a fraction meets no `type` that asks for integers and not for numbers. */
  predicate TypeClear(types: RawType, v: Json) {
    v.Double? && Integral(v.d) && Names(types, IntegerType) ==> Names(types, NumberType)
  }

  lemma TypeAgrees(types: RawType, v: Json)
    ensures (TypeMet(types, v, Library) <==> TypeMet(types, v, Draft4)) <==> TypeClear(types, v)
  {
    if types.TypeNames? {
      var names := types.names;
      TypeMetByNames(types, v, Library);
      TypeMetByNames(types, v, Draft4);
      hide TypeOfName, TypeMet, Names;
      if v.Double? && Integral(v.d) {
        assert forall t :: IsOfType(t, v, Library) <==> t == IntegerType || t == NumberType;
        assert forall t :: IsOfType(t, v, Draft4) <==> t == NumberType;
        assert IsOfType(IntegerType, v, Library) && IsOfType(NumberType, v, Draft4) && IsOfType(NumberType, v, Library);
      } else {
        assert forall t :: IsOfType(t, v, Library) <==> IsOfType(t, v, Draft4);
      }
    } else {
      hide TypeOfName;
    }
  }

  lemma TypeMetByNames(types: RawType, v: Json, reading: Reading)
    requires types.TypeNames?
    ensures TypeMet(types, v, reading) <==> exists t :: Names(types, t) && IsOfType(t, v, reading)
  {
    hide TypeOfName, IsOfType;
    if TypeMet(types, v, reading) {
      var i :| 0 <= i < |types.names| && TypeOfName(types.names[i]).Some?
            && IsOfType(TypeOfName(types.names[i]).value, v, reading);
      assert Names(types, TypeOfName(types.names[i]).value);
    }
  }

  // ---- Whole documents ----------------------------------------------------

  /** At no place where the document is applied to the instance or to a part of it does a
      keyword read a value otherwise than Draft 4 does. */
  ghost predicate Unmistaken(r: Raw, v: Json)
    decreases r, 2
  {
    match r
    case RawRef(t) => Unmistaken(t, v)
    case _ =>
      && TypeClear(r.types, v)
      && EnumClear(r.enumeration, v)
      && OwnUnmistaken(r, v)
      && (forall i :: 0 <= i < |List(r.allOf)| ==> Unmistaken(List(r.allOf)[i], v))
      && (forall i :: 0 <= i < |List(r.anyOf)| ==> Unmistaken(List(r.anyOf)[i], v))
      && (forall i :: 0 <= i < |List(r.oneOf)| ==> Unmistaken(List(r.oneOf)[i], v))
      && (r.not.SomeRaw? ==> Unmistaken(r.not.schema, v))
  }

  ghost predicate OwnUnmistaken(r: Raw, v: Json)
    requires r.Raw?
    decreases r, 1
  {
    match v
    case String(text) => LengthClear(text, r.minLength, r.maxLength)
    case Array(items) =>
      && (r.uniqueItems == Some(true) ==> UniqueClear(items))
      && (forall i :: 0 <= i < |items| ==> ItemUnmistaken(r, i, items[i]))
    case Object(members) => forall i :: 0 <= i < |members| ==> MemberUnmistaken(r, members[i].key, members[i].value)
    case _ => true
  }

  ghost predicate ItemUnmistaken(r: Raw, i: nat, item: Json)
    requires r.Raw?
    decreases r, 0
  {
    match r.items
    case NoRawItems => true
    case RawOne(c) => Unmistaken(c, item)
    case RawTuple(cs) =>
      if i < |cs| then Unmistaken(cs[i], item)
      else r.additionalItems.RawGoverned? ==> Unmistaken(r.additionalItems.schema, item)
  }

  ghost predicate MemberUnmistaken(r: Raw, key: string, value: Json)
    requires r.Raw?
    decreases r, 0
  {
    && (forall j :: 0 <= j < |Properties(r)| && Properties(r)[j].name == key ==>
          Unmistaken(Properties(r)[j].schema, value))
    && (forall j :: 0 <= j < |Patterns(r)| && Patterns(r)[j].matches(key) ==> Unmistaken(Patterns(r)[j].schema, value))
    && (r.additionalProperties.RawGoverned? ==> Unmistaken(r.additionalProperties.schema, value))
  }

  /** The meaning of the document is then that of Draft 4. */
  lemma {:induction false} MeetsAsDraft4(r: Raw, v: Json)
    requires Unmistaken(r, v)
    ensures Meets(r, v, Library) <==> Meets(r, v, Draft4)
    decreases r, 2
  {
    if r.RawRef? {
      MeetsAsDraft4(r.target, v);
    } else {
      TypeAgrees(r.types, v);
      EnumAgrees(r.enumeration, v);
      OwnAsDraft4(r, v);
      ListAsDraft4(r, r.allOf, v);
      ListAsDraft4(r, r.anyOf, v);
      OneAsDraft4(r, v);
      if r.not.SomeRaw? { MeetsAsDraft4(r.not.schema, v); }
      assert TypeClear(r.types, v) && EnumClear(r.enumeration, v);
      hide *;
      MeetsByParts(r, v, Library);
      MeetsByParts(r, v, Draft4);
    }
  }

  lemma MeetsByParts(r: Raw, v: Json, reading: Reading)
    requires r.Raw? && !reading.Streamed?
    ensures Meets(r, v, reading) <==>
              && TypeMet(r.types, v, reading) && EnumeratedBy(r.enumeration, v, reading)
              && OwnKeywordsMet(r, v, reading)
              && (forall i :: 0 <= i < |List(r.allOf)| ==> Meets(List(r.allOf)[i], v, reading))
              && (r.anyOf.RawList? ==> exists i :: 0 <= i < |List(r.anyOf)| && Meets(List(r.anyOf)[i], v, reading))
              && (r.oneOf.RawList? ==> OneMet(r, v, reading))
              && (r.not.SomeRaw? ==> !Meets(r.not.schema, v, reading))
  {
    hide TypeMet, EnumeratedBy, OwnKeywordsMet, OneMet, List;
  }

  lemma {:induction false} ListAsDraft4(r: Raw, l: RawList, v: Json)
    requires l < r && forall i :: 0 <= i < |List(l)| ==> Unmistaken(List(l)[i], v)
    ensures forall i :: 0 <= i < |List(l)| ==> (Meets(List(l)[i], v, Library) <==> Meets(List(l)[i], v, Draft4))
    decreases r, 0
  {
    forall i | 0 <= i < |List(l)|
      ensures Meets(List(l)[i], v, Library) <==> Meets(List(l)[i], v, Draft4)
    {
      MeetsAsDraft4(List(l)[i], v);
    }
  }

  lemma {:induction false} OneAsDraft4(r: Raw, v: Json)
    requires r.Raw? && forall i :: 0 <= i < |List(r.oneOf)| ==> Unmistaken(List(r.oneOf)[i], v)
    ensures OneMet(r, v, Library) <==> OneMet(r, v, Draft4)
    decreases r, 1
  {
    ListAsDraft4(r, r.oneOf, v);
    hide Meets, List, Unmistaken;
  }

  lemma {:induction false} OwnAsDraft4(r: Raw, v: Json)
    requires r.Raw? && OwnUnmistaken(r, v)
    ensures OwnKeywordsMet(r, v, Library) <==> OwnKeywordsMet(r, v, Draft4)
    decreases r, 1
  {
    match v
    case String(text) => LengthAgrees(text, r.minLength, r.maxLength);
    case Array(items) =>
      UniqueAgrees(items);
      hide UniqueClear, UniqueBy, Meets;
      forall i | 0 <= i < |items|
        ensures ItemMet(r, i, items[i], Library) <==> ItemMet(r, i, items[i], Draft4)
      {
        ItemAsDraft4(r, i, items[i]);
      }
      hide ItemMet;
    case Object(members) =>
      hide Meets;
      forall i | 0 <= i < |members|
        ensures MemberMet(r, members[i].key, members[i].value, Library) <==>
                  MemberMet(r, members[i].key, members[i].value, Draft4)
      {
        MemberAsDraft4(r, members[i].key, members[i].value);
      }
      hide MemberMet;
    case _ =>
  }

  lemma {:induction false} ItemAsDraft4(r: Raw, i: nat, item: Json)
    requires r.Raw? && ItemUnmistaken(r, i, item)
    ensures ItemMet(r, i, item, Library) <==> ItemMet(r, i, item, Draft4)
    decreases r, 0
  {
    match r.items
    case NoRawItems =>
    case RawOne(c) => MeetsAsDraft4(c, item);
    case RawTuple(cs) =>
      if i < |cs| {
        MeetsAsDraft4(cs[i], item);
      } else if r.additionalItems.RawGoverned? {
        MeetsAsDraft4(r.additionalItems.schema, item);
      }
  }

  lemma {:induction false} MemberAsDraft4(r: Raw, key: string, value: Json)
    requires r.Raw? && MemberUnmistaken(r, key, value)
    ensures MemberMet(r, key, value, Library) <==> MemberMet(r, key, value, Draft4)
    decreases r, 0
  {
    forall j | 0 <= j < |Properties(r)| && Properties(r)[j].name == key
      ensures Meets(Properties(r)[j].schema, value, Library) <==> Meets(Properties(r)[j].schema, value, Draft4)
    {
      MeetsAsDraft4(Properties(r)[j].schema, value);
    }
    forall j | 0 <= j < |Patterns(r)| && Patterns(r)[j].matches(key)
      ensures Meets(Patterns(r)[j].schema, value, Library) <==> Meets(Patterns(r)[j].schema, value, Draft4)
    {
      MeetsAsDraft4(Patterns(r)[j].schema, value);
    }
    if r.additionalProperties.RawGoverned? {
      MeetsAsDraft4(r.additionalProperties.schema, value);
    }
    hide Meets, Properties, Patterns, Unmistaken;
  }

  // ---- Where the readings differ ------------------------------------------

  /** A document without any keyword. */
  const BLANK: Raw :=
    Raw(NoType, None, NoList, NoList, NoList, NoRaw, None, None, None, None, None, None, None, None, NoRawItems,
        RawUnset, None, None, None, None, None, RawUnset, NoProperties, NoPatterns, None)

  /** A document with no keywords but these. */
  ghost predicate FewKeywords(r: Raw) {
    && r.Raw?
    && r == BLANK.(types := r.types, enumeration := r.enumeration, maxLength := r.maxLength,
                  uniqueItems := r.uniqueItems)
  }

  lemma FewOwn(r: Raw, v: Json, reading: Reading)
    requires FewKeywords(r)
    ensures OwnKeywordsMet(r, v, reading) <==>
              && (v.String? ==> LengthWithin(v.s, None, r.maxLength, reading))
              && (v.Array? && r.uniqueItems == Some(true) ==> UniqueBy(v.items, reading))
  {
    hide LengthWithin, UniqueBy, Meets;
    match v
    case Array(items) =>
      assert forall i :: 0 <= i < |items| ==> ItemMet(r, i, items[i], reading);
    case Object(members) =>
      assert Properties(r) == [] && Patterns(r) == [];
      assert forall i :: 0 <= i < |members| ==> MemberMet(r, members[i].key, members[i].value, reading);
    case _ =>
  }

  lemma FewMeets(r: Raw, v: Json, reading: Reading)
    requires FewKeywords(r) && !reading.Streamed?
    ensures Meets(r, v, reading) <==>
              && TypeMet(r.types, v, reading) && EnumeratedBy(r.enumeration, v, reading)
              && (v.String? ==> LengthWithin(v.s, None, r.maxLength, reading))
              && (v.Array? && r.uniqueItems == Some(true) ==> UniqueBy(v.items, reading))
  {
    FewOwn(r, v, reading);
    MeetsByParts(r, v, reading);
    assert List(r.allOf) == [] && r.anyOf.NoList? && r.oneOf.NoList? && r.not.NoRaw?;
    hide *;
  }

  lemma FewParse(r: Raw)
    requires FewKeywords(r) && !r.types.TypeNames? && (r.types.SingleType? ==> TypeOfName(r.types.name).Some?)
    requires r.enumeration.Some? ==> Unique(r.enumeration.value)
    ensures Parses(r)
  {
    assert Properties(r) == [] && Patterns(r) == [];
    hide TypeOfName, Unique;
    assert forall t: TypeName :: TypeParses(r, t);
    assert CommonParses(r) && TypesParse(r);
  }

  /** The listed 1 is the number 1.0 for Draft 4 only. */
  lemma EnumDeparts(r: Raw, v: Json)
    requires r == BLANK.(enumeration := Some([Int(1)])) && v == Double(1.0)
    ensures Parses(r) && !Meets(r, v, Library) && Meets(r, v, Draft4)
  {
    FewParse(r);
    FewMeets(r, v, Library);
    FewMeets(r, v, Draft4);
    assert SameValue(v, r.enumeration.value[0]);
    hide Meets, Parses;
  }

  /** The number 1.0 is an integer for the library only. */
  lemma IntegerDeparts(r: Raw, v: Json)
    requires r == BLANK.(types := SingleType("integer")) && v == Double(1.0)
    ensures Parses(r) && Meets(r, v, Library) && !Meets(r, v, Draft4)
  {
    FewParse(r);
    FewMeets(r, v, Library);
    FewMeets(r, v, Draft4);
    hide Meets, Parses;
  }

  /** The items 1 and 1.0 are different for the library only. */
  lemma UniqueDeparts(r: Raw, v: Json)
    requires r == BLANK.(uniqueItems := Some(true)) && v == Array([Int(1), Double(1.0)])
    ensures Parses(r) && Meets(r, v, Library) && !Meets(r, v, Draft4)
  {
    FewParse(r);
    FewMeets(r, v, Library);
    FewMeets(r, v, Draft4);
    assert SameValue(v.items[0], v.items[1]);
    hide Meets, Parses;
  }

  /** The two bytes of one character are too long for the library only. */
  lemma LengthDeparts(r: Raw, v: Json)
    requires r == BLANK.(maxLength := Some(1)) && v == String("\U{00C3}\U{00A9}")
    ensures Parses(r) && !Meets(r, v, Library) && Meets(r, v, Draft4)
  {
    FewParse(r);
    FewMeets(r, v, Library);
    FewMeets(r, v, Draft4);
    assert v.s[1..] == "\U{00A9}" && v.s[1..][1..] == "";
    assert LengthBy("\U{00A9}", Draft4) == 0;
    hide Meets, Parses;
  }
}
