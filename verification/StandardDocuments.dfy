/** Which Draft 4 documents the parser accepts, and which others.

    The parser takes only integers for `multipleOf`, and for the bounds whenever it parses
    the keywords of integers.  It does not look at the keywords of types that a document does
    not ask for, and it takes any `enum` that the library finds unique, even an empty one. */
module StandardDocuments {
  import opened Options
  import opened JsonValues
  import opened Schemas
  import opened Readings
  import opened SchemaParsers
  import opened StandardMeanings

  // ---- The documents inside a document ------------------------------------

  function One(o: RawOption): (ds: seq<Raw>)
    ensures forall i :: 0 <= i < |ds| ==> ds[i] < o
  {
    if o.SomeRaw? then [o.schema] else []
  }

  function Additional(a: RawAdditional): (ds: seq<Raw>)
    ensures forall i :: 0 <= i < |ds| ==> ds[i] < a
  {
    if a.RawGoverned? then [a.schema] else []
  }

  function Items(items: RawItems): (ds: seq<Raw>)
    ensures forall i :: 0 <= i < |ds| ==> ds[i] < items
  {
    match items
    case NoRawItems => []
    case RawOne(c) => [c]
    case RawTuple(cs) => cs
  }

  /** Those in the keywords of every type. */
  function CommonDocs(r: Raw): (ds: seq<Raw>)
    requires r.Raw?
    ensures forall i :: 0 <= i < |ds| ==> ds[i] < r
  {
    List(r.allOf) + List(r.anyOf) + List(r.oneOf) + One(r.not)
  }

  /** Those in the keywords of one type. */
  function TypeDocs(r: Raw, t: TypeName): (ds: seq<Raw>)
    requires r.Raw?
    ensures forall i :: 0 <= i < |ds| ==> ds[i] < r
  {
    match t
    case ArrayType => Items(r.items) + Additional(r.additionalItems)
    case ObjectType =>
      seq(|Properties(r)|, i requires 0 <= i < |Properties(r)| => Properties(r)[i].schema)
      + seq(|Patterns(r)|, i requires 0 <= i < |Patterns(r)| => Patterns(r)[i].schema)
      + Additional(r.additionalProperties)
    case _ => []
  }

  // ---- Draft 4 documents --------------------------------------------------

  predicate TypesInOrder(types: RawType) {
    match types
    case NoType => true
    case SingleType(name) => TypeOfName(name).Some?
    case TypeNames(names) => Distinct(names) && forall i :: 0 <= i < |names| ==> TypeOfName(names[i]).Some?
  }

  /** The demands of section 5 on the keywords of one type, leaving documents inside aside. */
  predicate TypeInOrder(r: Raw, t: TypeName)
    requires r.Raw?
  {
    match t
    case IntegerType => BoundsInOrder(r)
    case NumberType => BoundsInOrder(r)
    case ObjectType => r.required.Some? ==> r.required.value != [] && Distinct(r.required.value)
    case _ => true
  }

  predicate BoundsInOrder(r: Raw)
    requires r.Raw?
  {
    && (r.multipleOf.Some? ==> r.multipleOf.value > 0.0)
    && (r.exclusiveMinimum.Some? ==> r.minimum.Some?)
    && (r.exclusiveMaximum.Some? ==> r.maximum.Some?)
  }

  /** Lists of schemas are not empty. */
  predicate ListsInOrder(r: Raw)
    requires r.Raw?
  {
    (r.allOf.RawList? ==> List(r.allOf) != []) && (r.anyOf.RawList? ==> List(r.anyOf) != [])
    && (r.oneOf.RawList? ==> List(r.oneOf) != [])
  }

  /** The document is one of JSON Schema Validation draft-04, section 5. */
  ghost predicate Draft4Document(r: Raw)
    decreases r
  {
    match r
    case RawRef(t) => Draft4Document(t)
    case _ =>
      && TypesInOrder(r.types) && ListsInOrder(r)
      && (r.enumeration.Some? ==> r.enumeration.value != [] && UniqueBy(r.enumeration.value, Draft4))
      && (forall i :: 0 <= i < |CommonDocs(r)| ==> Draft4Document(CommonDocs(r)[i]))
      && (forall t: TypeName :: TypeInOrder(r, t))
      && (forall t: TypeName, i :: 0 <= i < |TypeDocs(r, t)| ==> Draft4Document(TypeDocs(r, t)[i]))
  }

  // ---- What the parser asks for beyond ------------------------------------

  /** The parser parses the keywords of this type. */
  predicate LooksAt(types: RawType, t: TypeName) { types.NoType? || Names(types, t) }

  predicate WholeBounds(r: Raw, t: TypeName)
    requires r.Raw?
  {
    && (t in {IntegerType, NumberType} && r.multipleOf.Some? ==> Integral(r.multipleOf.value))
    && (t == IntegerType && r.minimum.Some? ==> Integral(r.minimum.value))
    && (t == IntegerType && r.maximum.Some? ==> Integral(r.maximum.value))
  }

  /** No `multipleOf` that is parsed has a fraction, and no bound that is parsed for integers. */
  ghost predicate WholeNumbers(r: Raw)
    decreases r
  {
    match r
    case RawRef(t) => WholeNumbers(t)
    case _ =>
      && (forall i :: 0 <= i < |CommonDocs(r)| ==> WholeNumbers(CommonDocs(r)[i]))
      && (forall t: TypeName :: LooksAt(r.types, t) ==> WholeBounds(r, t))
      && (forall t: TypeName, i :: LooksAt(r.types, t) && 0 <= i < |TypeDocs(r, t)| ==> WholeNumbers(TypeDocs(r, t)[i]))
  }

  // ---- What the parser does not ask for -----------------------------------

  /** An `enum` is not empty and lists no number twice; keywords that the parser does not look
      at are in order. */
  ghost predicate UnseenInOrder(r: Raw)
    decreases r
  {
    match r
    case RawRef(t) => UnseenInOrder(t)
    case _ =>
      && (r.enumeration.Some? ==>
            && r.enumeration.value != []
            && forall i, j :: 0 <= i < j < |r.enumeration.value| ==>
                 !Mistaken(r.enumeration.value[i], r.enumeration.value[j]))
      && (forall i :: 0 <= i < |CommonDocs(r)| ==> UnseenInOrder(CommonDocs(r)[i]))
      && (forall t: TypeName :: !LooksAt(r.types, t) ==> TypeInOrder(r, t))
      && (forall t: TypeName, i :: 0 <= i < |TypeDocs(r, t)| ==>
            if LooksAt(r.types, t) then UnseenInOrder(TypeDocs(r, t)[i]) else Draft4Document(TypeDocs(r, t)[i]))
  }

  // ---- Parsing by parts ---------------------------------------------------

  ghost predicate DocsParse(ds: seq<Raw>) { forall i :: 0 <= i < |ds| ==> Parses(ds[i]) }

  lemma DocsJoin(a: seq<Raw>, b: seq<Raw>)
    ensures DocsParse(a + b) <==> DocsParse(a) && DocsParse(b)
  {
    hide Parses;
    if DocsParse(a + b) {
      assert forall i :: 0 <= i < |a| ==> a[i] == (a + b)[i];
      assert forall i :: 0 <= i < |b| ==> b[i] == (a + b)[|a| + i];
    }
  }

  lemma SingleDoc(r: Raw)
    ensures DocsParse([r]) <==> Parses(r)
  {
    hide Parses;
    assert [r][0] == r;
  }

  lemma AdditionalDoc(a: RawAdditional)
    ensures DocsParse(Additional(a)) <==> AdditionalParses(a)
  {
    if a.RawGoverned? { SingleDoc(a.schema); }
  }

  lemma CommonByParts(r: Raw)
    requires r.Raw?
    ensures CommonParses(r) <==>
              && ListsInOrder(r) && DocsParse(CommonDocs(r))
              && (r.enumeration.Some? ==> Unique(r.enumeration.value))
  {
    var a, b, c, d := List(r.allOf), List(r.anyOf), List(r.oneOf), One(r.not);
    DocsJoin(a + b + c, d);
    DocsJoin(a + b, c);
    DocsJoin(a, b);
    ListParses(r.allOf);
    ListParses(r.anyOf);
    ListParses(r.oneOf);
    if r.not.SomeRaw? { SingleDoc(r.not.schema); }
    hide Parses, AllParse, Unique, List, One, DocsParse;
  }

  lemma ListParses(l: RawList)
    ensures DocsParse(List(l)) <==> (l.RawList? ==> AllParse(List(l)))
  {
    hide Parses;
  }

  lemma ArrayByParts(r: Raw)
    requires r.Raw?
    ensures TypeParses(r, ArrayType) <==> DocsParse(TypeDocs(r, ArrayType))
  {
    DocsJoin(Items(r.items), Additional(r.additionalItems));
    AdditionalDoc(r.additionalItems);
    if r.items.RawOne? { SingleDoc(r.items.schema); }
    hide Parses, AdditionalParses, Additional;
  }

  lemma ObjectByParts(r: Raw)
    requires r.Raw?
    ensures TypeParses(r, ObjectType) <==> TypeInOrder(r, ObjectType) && DocsParse(TypeDocs(r, ObjectType))
  {
    var ps := seq(|Properties(r)|, i requires 0 <= i < |Properties(r)| => Properties(r)[i].schema);
    var qs := seq(|Patterns(r)|, i requires 0 <= i < |Patterns(r)| => Patterns(r)[i].schema);
    DocsJoin(ps + qs, Additional(r.additionalProperties));
    DocsJoin(ps, qs);
    AdditionalDoc(r.additionalProperties);
    hide Parses, AdditionalParses, Additional, Properties, Patterns, Distinct;
    if DocsParse(ps) {
      assert forall i :: 0 <= i < |Properties(r)| ==> ps[i] == Properties(r)[i].schema;
    }
    if DocsParse(qs) {
      assert forall i :: 0 <= i < |Patterns(r)| ==> qs[i] == Patterns(r)[i].schema;
    }
  }

  lemma TypeByParts(r: Raw, t: TypeName)
    requires r.Raw?
    ensures TypeParses(r, t) <==> TypeInOrder(r, t) && WholeBounds(r, t) && DocsParse(TypeDocs(r, t))
  {
    if t == ArrayType {
      ArrayByParts(r);
    } else if t == ObjectType {
      ObjectByParts(r);
    } else {
      assert TypeDocs(r, t) == [];
    }
    hide Parses, DocsParse, Properties, Patterns, Distinct;
  }

  lemma TypesByParts(r: Raw)
    requires r.Raw?
    ensures TypesParse(r) <==> TypesInOrder(r.types) && forall t: TypeName :: LooksAt(r.types, t) ==> TypeParses(r, t)
  {
    hide TypeParses, TypeOfName, Distinct;
    match r.types
    case NoType =>
      if forall t: TypeName :: LooksAt(r.types, t) ==> TypeParses(r, t) {
        forall t: TypeName ensures TypeParses(r, t) { assert LooksAt(r.types, t); }
      }
    case SingleType(name) =>
      if TypeOfName(name).Some? { assert LooksAt(r.types, TypeOfName(name).value); }
    case TypeNames(names) =>
      if forall t: TypeName :: LooksAt(r.types, t) ==> TypeParses(r, t) {
        forall i | 0 <= i < |names| && TypeOfName(names[i]).Some?
          ensures TypeParses(r, TypeOfName(names[i]).value)
        {
          assert LooksAt(r.types, TypeOfName(names[i]).value);
        }
      }
  }

  /** What parses, keyword by keyword. */
  lemma ParsesByParts(r: Raw)
    requires r.Raw?
    ensures Parses(r) <==>
              && TypesInOrder(r.types) && ListsInOrder(r) && DocsParse(CommonDocs(r))
              && (r.enumeration.Some? ==> Unique(r.enumeration.value))
              && (forall t: TypeName :: LooksAt(r.types, t) ==>
                    TypeInOrder(r, t) && WholeBounds(r, t) && DocsParse(TypeDocs(r, t)))
  {
    CommonByParts(r);
    TypesByParts(r);
    forall t: TypeName
      ensures TypeParses(r, t) <==> TypeInOrder(r, t) && WholeBounds(r, t) && DocsParse(TypeDocs(r, t))
    {
      TypeByParts(r, t);
    }
    assert Parses(r) <==> CommonParses(r) && TypesParse(r);
    hide *;
  }

  // ---- The theorems -------------------------------------------------------

  lemma UniqueInDraft4(es: seq<Json>)
    ensures UniqueBy(es, Draft4) <==>
              Unique(es) && forall i, j :: 0 <= i < j < |es| ==> !Mistaken(es[i], es[j])
  {
    forall i, j | 0 <= i < j < |es|
      ensures Equals(es[i], es[j]) <==> SameValue(es[i], es[j]) && !Mixed(es[i], es[j])
    {
      EqualsIsSame(es[i], es[j]);
    }
    hide Equals, SameValue, Mixed;
  }

  /** A Draft 4 document parses exactly when the numbers that the parser wants whole are. */
  lemma {:induction false} DocumentsParse(r: Raw)
    requires Draft4Document(r)
    ensures Parses(r) <==> WholeNumbers(r)
    decreases r
  {
    if r.RawRef? {
      DocumentsParse(r.target);
    } else {
      ParsesByParts(r);
      if r.enumeration.Some? { UniqueInDraft4(r.enumeration.value); }
      forall i | 0 <= i < |CommonDocs(r)|
        ensures Parses(CommonDocs(r)[i]) <==> WholeNumbers(CommonDocs(r)[i])
      {
        DocumentsParse(CommonDocs(r)[i]);
      }
      forall t: TypeName, i | 0 <= i < |TypeDocs(r, t)|
        ensures Parses(TypeDocs(r, t)[i]) <==> WholeNumbers(TypeDocs(r, t)[i])
      {
        DocumentsParse(TypeDocs(r, t)[i]);
      }
      hide Parses, CommonDocs, TypeDocs, TypesInOrder, ListsInOrder, UniqueBy, Unique, TypeInOrder, WholeBounds,
        LooksAt;
    }
  }

  /** A document that parses is one of Draft 4 exactly when what the parser passes over is in
      order. */
  lemma {:induction false} ParsedAreDocuments(r: Raw)
    requires Parses(r)
    ensures Draft4Document(r) <==> UnseenInOrder(r)
    decreases r
  {
    if r.RawRef? {
      ParsedAreDocuments(r.target);
    } else {
      ParsesByParts(r);
      if r.enumeration.Some? { UniqueInDraft4(r.enumeration.value); }
      hide Parses, CommonDocs, TypeDocs, TypesInOrder, ListsInOrder, UniqueBy, Unique, TypeInOrder, WholeBounds,
        LooksAt, Mistaken;
      forall i | 0 <= i < |CommonDocs(r)|
        ensures Draft4Document(CommonDocs(r)[i]) <==> UnseenInOrder(CommonDocs(r)[i])
      {
        ParsedAreDocuments(CommonDocs(r)[i]);
      }
      forall t: TypeName, i | LooksAt(r.types, t) && 0 <= i < |TypeDocs(r, t)|
        ensures Draft4Document(TypeDocs(r, t)[i]) <==> UnseenInOrder(TypeDocs(r, t)[i])
      {
        ParsedAreDocuments(TypeDocs(r, t)[i]);
      }
    }
  }

  // ---- Documents on which both differ -------------------------------------

  /** A document whose keywords hold no documents. */
  predicate Flat(r: Raw) {
    && r.Raw? && r.allOf.NoList? && r.anyOf.NoList? && r.oneOf.NoList? && r.not.NoRaw? && r.items.NoRawItems?
    && r.additionalItems.RawUnset? && r.additionalProperties.RawUnset? && r.properties.NoProperties?
    && r.patternProperties.NoPatterns?
  }

  lemma FlatDocuments(r: Raw)
    requires Flat(r)
    ensures Draft4Document(r) <==>
              && TypesInOrder(r.types) && (forall t: TypeName :: TypeInOrder(r, t))
              && (r.enumeration.Some? ==> r.enumeration.value != [] && UniqueBy(r.enumeration.value, Draft4))
    ensures Parses(r) <==>
              && TypesInOrder(r.types) && (r.enumeration.Some? ==> Unique(r.enumeration.value))
              && (forall t: TypeName :: LooksAt(r.types, t) ==> TypeInOrder(r, t) && WholeBounds(r, t))
  {
    ParsesByParts(r);
    assert CommonDocs(r) == [] && forall t :: TypeDocs(r, t) == [];
    hide Parses, CommonDocs, TypeDocs, TypesInOrder, UniqueBy, Unique, TypeInOrder, WholeBounds, LooksAt;
  }

  /** `{"multipleOf": 0.5}` is refused. */
  lemma FractionRefused(r: Raw)
    requires r == BLANK.(multipleOf := Some(0.5))
    ensures Draft4Document(r) && !Parses(r)
  {
    FlatDocuments(r);
    assert LooksAt(r.types, NumberType) && !WholeBounds(r, NumberType);
    hide Parses, Draft4Document;
  }

  /** `{"minimum": 1.5}` is refused, although the same bound of the type number is not. */
  lemma UntypedBoundRefused(r: Raw, n: Raw)
    requires r == BLANK.(minimum := Some(1.5)) && n == r.(types := SingleType("number"))
    ensures Draft4Document(r) && !Parses(r) && Draft4Document(n) && Parses(n)
  {
    FlatDocuments(r);
    FlatDocuments(n);
    assert LooksAt(r.types, IntegerType) && !WholeBounds(r, IntegerType);
    hide Parses, Draft4Document;
  }

  /** `{"enum": []}` is taken. */
  lemma EmptyEnumTaken(r: Raw)
    requires r == BLANK.(enumeration := Some([]))
    ensures !Draft4Document(r) && Parses(r)
  {
    FlatDocuments(r);
    hide Parses, Draft4Document;
  }

  /** `{"enum": [1, 1.0]}` is taken. */
  lemma DoubledEnumTaken(r: Raw)
    requires r == BLANK.(enumeration := Some([Int(1), Double(1.0)]))
    ensures !Draft4Document(r) && Parses(r)
  {
    FlatDocuments(r);
    assert SameValue(r.enumeration.value[0], r.enumeration.value[1]);
    hide Parses, Draft4Document;
  }

  /** `{"type": "string", "multipleOf": 0}` is taken, because its bounds are not looked at. */
  lemma OtherTypeTaken(r: Raw)
    requires r == BLANK.(types := SingleType("string"), multipleOf := Some(0.0))
    ensures !Draft4Document(r) && Parses(r)
  {
    FlatDocuments(r);
    assert !TypeInOrder(r, NumberType);
    assert TypeOfName("string") == Some(StringType);
    hide Parses, Draft4Document;
  }
}
