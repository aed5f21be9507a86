/** The `type` keyword, and lists of distinct names, in their own words
    (JSON Schema Validation draft-04, sections 5.5.2 and 5.4.3). */
module TypeKeywords {
  import opened Options
  import opened JsonValues
  import opened Schemas
  import opened Multiples
  import opened Readings
  import opened SchemaParsers
  import opened StandardMeanings
  import opened StandardDocuments

  /** The seven names and the values that they ask for, as the library reads numbers. */
  ghost predicate Fits(name: string, v: Json) {
    || (name == "null" && v.Null?)
    || (name == "boolean" && v.Bool?)
    || (name == "integer" && (v.Int? || (v.Double? && exists k :: IsWhole(v.d, k))))
    || (name == "number" && (v.Int? || v.Double?))
    || (name == "string" && v.String?)
    || (name == "array" && v.Array?)
    || (name == "object" && v.Object?)
  }

  predicate Known(name: string) {
    name in {"null", "boolean", "integer", "number", "string", "array", "object"}
  }

  // ---- What the keyword accepts -------------------------------------------

  lemma NameFits(name: string, v: Json)
    ensures TypeOfName(name).Some? <==> Known(name)
    ensures TypeOfName(name).Some? && IsOfType(TypeOfName(name).value, v) <==> Fits(name, v)
  {
    if v.Double? { IntegralMeans(v.d); }
    hide Integral;
  }

  /** A single name asks for the values that fit it. */
  lemma SingleTypeMeans(name: string, v: Json)
    ensures TypeMet(SingleType(name), v) <==> Fits(name, v)
  {
    NameFits(name, v);
    hide TypeOfName, IsOfType, Fits;
  }

  /** A list asks for values that fit one of its names. */
  lemma TypeListMeans(names: seq<string>, v: Json)
    ensures TypeMet(TypeNames(names), v) <==> exists i :: 0 <= i < |names| && Fits(names[i], v)
  {
    forall i | 0 <= i < |names|
      ensures TypeOfName(names[i]).Some? && IsOfType(TypeOfName(names[i]).value, v) <==> Fits(names[i], v)
    {
      NameFits(names[i], v);
    }
    hide TypeOfName, IsOfType, Fits;
  }

  /** The single name that an array does not rule out at its start. */
  lemma ArrayName(name: string)
    ensures ArrayPossible(SingleType(name)) <==> name == "array"
  {
  }

  // ---- Which lists parse --------------------------------------------------

  ghost predicate AtMostOnce(xs: seq<string>) {
    forall x :: multiset(xs)[x] <= 1
  }

  lemma OnceMore(front: seq<string>, last: string)
    ensures AtMostOnce(front + [last]) <==> AtMostOnce(front) && last !in front
  {
    var xs := front + [last];
    assert forall x :: multiset(xs)[x] == multiset(front)[x] + (if x == last then 1 else 0);
    assert last in front <==> last in multiset(front);
  }

  lemma DistinctMore(front: seq<string>, last: string)
    ensures Distinct(front + [last]) <==> Distinct(front) && last !in front
  {
    var xs := front + [last];
    assert forall i :: 0 <= i < |front| ==> xs[i] == front[i];
    assert xs[|front|] == last;
    if Distinct(xs) {
      forall i | 0 <= i < |front| ensures front[i] != last {
        assert xs[i] != xs[|front|];
      }
      forall i, j | 0 <= i < j < |front| ensures front[i] != front[j] {
        assert xs[i] != xs[j];
      }
    }
  }

  /** Nothing is listed twice. */
  lemma {:induction false} DistinctMeans(xs: seq<string>)
    ensures Distinct(xs) <==> AtMostOnce(xs)
  {
    if xs != [] {
      var n := |xs| - 1;
      DistinctMeans(xs[..n]);
      assert xs == xs[..n] + [xs[n]];
      OnceMore(xs[..n], xs[n]);
      DistinctMore(xs[..n], xs[n]);
      hide Distinct, AtMostOnce;
    }
  }

  /** A single name parses when it is one of the seven. */
  lemma SingleTypeParses(name: string)
    ensures Parses(BLANK.(types := SingleType(name))) <==> Known(name)
  {
    var r := BLANK.(types := SingleType(name));
    FlatDocuments(r);
    NameFits(name, Null);
    hide Parses, TypeOfName, Known, Draft4Document;
  }

  /** A list parses when its names are among the seven and none is there twice. */
  lemma TypeListParses(names: seq<string>)
    ensures Parses(BLANK.(types := TypeNames(names))) <==>
              (forall i :: 0 <= i < |names| ==> Known(names[i])) && AtMostOnce(names)
  {
    var r := BLANK.(types := TypeNames(names));
    FlatDocuments(r);
    DistinctMeans(names);
    forall i | 0 <= i < |names| ensures TypeOfName(names[i]).Some? <==> Known(names[i]) {
      NameFits(names[i], Null);
    }
    hide Parses, TypeOfName, Known, Draft4Document, Distinct;
  }

  /** `required` parses when it is not empty and no name is there twice. */
  lemma RequiredParses(names: seq<string>)
    ensures Parses(BLANK.(required := Some(names))) <==> names != [] && AtMostOnce(names)
  {
    var r := BLANK.(required := Some(names));
    FlatDocuments(r);
    DistinctMeans(names);
    assert LooksAt(r.types, ObjectType);
    hide Parses, Draft4Document, Distinct;
  }

  lemma RequiredOnly(r: Raw, members: seq<Member>)
    requires r.Raw? && r == BLANK.(required := r.required) && r.required.Some?
    ensures OwnKeywordsMet(r, Object(members), Library) <==>
              forall i :: 0 <= i < |r.required.value| ==> SomeMember(members, r.required.value[i])
  {
    assert Properties(r) == [] && Patterns(r) == [];
    hide Meets;
    assert forall i :: 0 <= i < |members| ==> MemberMet(r, members[i].key, members[i].value, Library);
    hide MemberMet, SomeMember;
  }

  /** `required` asks for a member under each of its names. */
  lemma RequiredMeans(names: seq<string>, members: seq<Member>)
    ensures Meets(BLANK.(required := Some(names)), Object(members), Library) <==>
              forall i :: 0 <= i < |names| ==> SomeMember(members, names[i])
  {
    var r, v := BLANK.(required := Some(names)), Object(members);
    MeetsByParts(r, v, Library);
    RequiredOnly(r, members);
    assert r.anyOf.NoList? && r.oneOf.NoList? && r.not.NoRaw?;
    assert List(r.allOf) == [] && TypeMet(r.types, v, Library) && EnumeratedBy(r.enumeration, v, Library);
    hide Meets, OwnKeywordsMet, TypeMet, EnumeratedBy, SomeMember;
  }
}
