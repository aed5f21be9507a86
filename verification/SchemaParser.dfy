/** From the keywords of a Draft 4 schema document to compiled schema values
    (`src/schema/jso_schema_value_parser.c`).

    The parser splits a schema without a single type into virtual typed subschemas, one
    for each type whose keywords are present, or one for each listed type. */
module SchemaParsers {
  import opened Options
  import opened JsonValues
  import opened Schemas
  import opened Verdicts
  import opened Multiples
  import opened Readings
  import opened Judgements
  import opened Meaning

  datatype TypeName = NullType | BooleanType | IntegerType | NumberType | StringType | ArrayType | ObjectType

  /** A schema document: the keywords of one object, each already of its JSON type.
      `RawRef` is an object whose only key is `$ref`, with its resolved target. */
  datatype Raw =
    | RawRef(target: Raw)
    | Raw(types: RawType, enumeration: Option<seq<Json>>,
          allOf: RawList, anyOf: RawList, oneOf: RawList, not: RawOption,
          multipleOf: Option<real>, minimum: Option<real>, maximum: Option<real>,
          exclusiveMinimum: Option<bool>, exclusiveMaximum: Option<bool>,
          maxLength: Option<nat>, minLength: Option<nat>, pattern: Option<Regex>,
          items: RawItems, additionalItems: RawAdditional, uniqueItems: Option<bool>,
          maxItems: Option<nat>, minItems: Option<nat>,
          minProperties: Option<nat>, maxProperties: Option<nat>, additionalProperties: RawAdditional,
          properties: RawProperties, patternProperties: RawPatterns, required: Option<seq<string>>)

  datatype RawType = NoType | SingleType(name: string) | TypeNames(names: seq<string>)

  datatype RawList = NoList | RawList(schemas: seq<Raw>)

  datatype RawOption = NoRaw | SomeRaw(schema: Raw)

  datatype RawItems = NoRawItems | RawOne(schema: Raw) | RawTuple(schemas: seq<Raw>)

  datatype RawAdditional = RawUnset | RawAllowed(allowed: bool) | RawGoverned(schema: Raw)

  datatype RawProperty = RawProperty(name: string, schema: Raw)

  datatype RawProperties = NoProperties | RawProperties(properties: seq<RawProperty>)

  datatype RawPattern = RawPattern(matches: Regex, schema: Raw)

  datatype RawPatterns = NoPatterns | RawPatterns(patterns: seq<RawPattern>)

  // ---- Each keyword applied to instances of its own type ------------------

  function TypeOfName(name: string): Option<TypeName> {
    if name == "string" then Some(StringType)
    else if name == "number" then Some(NumberType)
    else if name == "null" then Some(NullType)
    else if name == "integer" then Some(IntegerType)
    else if name == "boolean" then Some(BooleanType)
    else if name == "array" then Some(ArrayType)
    else if name == "object" then Some(ObjectType)
    else None
  }

  predicate IsOfType(t: TypeName, v: Json, reading: Reading := Library) {
    match t
    case NullType => v.Null?
    case BooleanType => v.Bool?
    case IntegerType => IsInteger(v, reading)
    case NumberType => v.Int? || v.Double?
    case StringType => v.String?
    case ArrayType => v.Array?
    case ObjectType => v.Object?
  }

  predicate TypeMet(types: RawType, v: Json, reading: Reading := Library) {
    match types
    case NoType => true
    case SingleType(name) => TypeOfName(name).Some? && IsOfType(TypeOfName(name).value, v, reading)
    case TypeNames(names) =>
      exists i :: 0 <= i < |names| && TypeOfName(names[i]).Some? && IsOfType(TypeOfName(names[i]).value, v, reading)
  }

  /** The bounds as they are compiled, with a whole `multipleOf`. */
  function RawBounds(r: Raw): Bounds
    requires r.Raw?
  {
    Bounds(if r.multipleOf.Some? && Integral(r.multipleOf.value) && r.multipleOf.value > 0.0 then
             Some(r.multipleOf.value.Floor)
           else None,
           r.minimum, r.maximum, r.exclusiveMinimum == Some(true), r.exclusiveMaximum == Some(true))
  }

  /** `minimum` and `maximum`, the number itself being excluded if so said, and a whole quotient
      by `multipleOf` (sections 5.1.1 to 5.1.3). */
  predicate BoundsMet(r: Raw, v: Json)
    requires r.Raw? && (v.Int? || v.Double?)
  {
    var x := if v.Int? then v.i as real else v.d;
    && (r.minimum.Some? ==> x >= r.minimum.value && (r.exclusiveMinimum == Some(true) ==> x > r.minimum.value))
    && (r.maximum.Some? ==> x <= r.maximum.value && (r.exclusiveMaximum == Some(true) ==> x < r.maximum.value))
    && (r.multipleOf.Some? ==> r.multipleOf.value != 0.0 && Integral(x / r.multipleOf.value))
  }

  function List(l: RawList): (r: seq<Raw>)
    ensures if l.RawList? then r == l.schemas else r == []
    ensures forall i :: 0 <= i < |r| ==> r[i] < l
  {
    if l.RawList? then l.schemas else []
  }

  function Properties(r: Raw): (ps: seq<RawProperty>)
    requires r.Raw?
    ensures if r.properties.RawProperties? then ps == r.properties.properties else ps == []
    ensures forall i :: 0 <= i < |ps| ==> ps[i].schema < r
  {
    if r.properties.RawProperties? then r.properties.properties else []
  }

  function Patterns(r: Raw): (ps: seq<RawPattern>)
    requires r.Raw?
    ensures if r.patternProperties.RawPatterns? then ps == r.patternProperties.patterns else ps == []
    ensures forall i :: 0 <= i < |ps| ==> ps[i].schema < r
  {
    if r.patternProperties.RawPatterns? then r.patternProperties.patterns else []
  }

  /** Index of the entry of `properties` with the name; a document has no name twice. */
  function FindRaw(ps: seq<RawProperty>, name: string): (r: Option<nat>)
    ensures r.Some? ==> r.value < |ps| && ps[r.value].name == name
    ensures r.Some? ==> forall i :: 0 <= i < r.value ==> ps[i].name != name
    ensures r.None? ==> forall i :: 0 <= i < |ps| ==> ps[i].name != name
  {
    if ps == [] then None
    else if ps[0].name == name then Some(0)
    else
      var rest := FindRaw(ps[1..], name);
      assert forall i :: 0 < i < |ps| ==> ps[i] == ps[1..][i - 1];
      if rest.None? then None else Some(rest.value + 1)
  }

  predicate Matched(ps: seq<RawPattern>, key: string) {
    exists i :: 0 <= i < |ps| && ps[i].matches(key)
  }

  /** The document is not ruled out at the start of an array
      (`src/schema/jso_schema_validation_stream.c`, lines 143-161). */
  ghost predicate OpenAtStart(r: Raw)
    decreases r, 1
  {
    match r
    case RawRef(t) => OpenAtStart(t)
    case _ =>
      && ArrayPossible(r.types)
      && (forall i :: 0 <= i < |List(r.allOf)| ==> OpenAtStart(List(r.allOf)[i]))
      && (r.not.SomeRaw? ==> !OpenAtStart(r.not.schema))
      && (r.oneOf.RawList? ==> OpenCount(List(r.oneOf)) <= 1)
  }

  ghost function OpenCount(rs: seq<Raw>): nat
    decreases rs, 0
  {
    if rs == [] then 0 else OpenCount(rs[1..]) + (if OpenAtStart(rs[0]) then 1 else 0)
  }

  predicate ArrayPossible(types: RawType) {
    types.SingleType? ==> TypeOfName(types.name) == Some(ArrayType)
  }

  /** The four keywords are judged at the start of the instance. */
  predicate AtStart(v: Json, reading: Reading) { reading.Streamed? && v.Array? }

  /** The instance meets the document (JSON Schema Validation draft-04, section 5).  Only the
      reading `Streamed` departs from the section, on arrays. */
  ghost predicate Meets(r: Raw, v: Json, reading: Reading := Library)
    decreases r, 2
  {
    match r
    case RawRef(t) => if AtStart(v, reading) then OpenAtStart(t) else Meets(t, v, reading)
    case _ =>
      && TypeMet(r.types, v, reading)
      && EnumeratedBy(r.enumeration, v, reading)
      && OwnKeywordsMet(r, v, reading)
      && (forall i :: 0 <= i < |List(r.allOf)| ==> Meets(List(r.allOf)[i], v, reading))
      && (r.anyOf.RawList? ==>
            exists i ::
              && 0 <= i < |List(r.anyOf)|
              && if AtStart(v, reading) then OpenAtStart(List(r.anyOf)[i]) else Meets(List(r.anyOf)[i], v, reading))
      && (r.oneOf.RawList? ==> OneMet(r, v, reading))
      && (r.not.SomeRaw? ==>
            if AtStart(v, reading) then !OpenAtStart(r.not.schema) else !Meets(r.not.schema, v, reading))
  }

  ghost predicate OneMet(r: Raw, v: Json, reading: Reading := Library)
    requires r.Raw?
    decreases r, 0
  {
    if AtStart(v, reading) then
      OpenCount(List(r.oneOf)) == 1 && forall j :: 0 <= j < |List(r.oneOf)| ==> !Meets(List(r.oneOf)[j], v, reading)
    else
      exists i ::
        && 0 <= i < |List(r.oneOf)| && Meets(List(r.oneOf)[i], v, reading)
        && forall j :: 0 <= j < |List(r.oneOf)| && j != i ==> !Meets(List(r.oneOf)[j], v, reading)
  }

  /** `items` and `additionalItems` for item number `i`. */
  ghost predicate ItemMet(r: Raw, i: nat, item: Json, reading: Reading := Library)
    requires r.Raw?
    decreases r, 0
  {
    match r.items
    case NoRawItems => true
    case RawOne(c) => Meets(c, item, reading)
    case RawTuple(cs) =>
      if i < |cs| then Meets(cs[i], item, reading)
      else
        && r.additionalItems != RawAllowed(false)
        && (r.additionalItems.RawGoverned? ==> Meets(r.additionalItems.schema, item, reading))
  }

  /** `properties`, `patternProperties` and `additionalProperties` for one member. */
  ghost predicate MemberMet(r: Raw, key: string, value: Json, reading: Reading := Library)
    requires r.Raw?
    decreases r, 0
  {
    var found := FindRaw(Properties(r), key);
    && (found.Some? ==> Meets(Properties(r)[found.value].schema, value, reading))
    && (forall j :: 0 <= j < |Patterns(r)| && Patterns(r)[j].matches(key) ==>
          Meets(Patterns(r)[j].schema, value, reading))
    && (found.None? && !Matched(Patterns(r), key) ==>
          && r.additionalProperties != RawAllowed(false)
          && (r.additionalProperties.RawGoverned? ==> Meets(r.additionalProperties.schema, value, reading)))
  }

  /** The object has a member with this key. */
  predicate SomeMember(members: seq<Member>, key: string) {
    exists k :: 0 <= k < |members| && members[k].key == key
  }

  lemma SomeMemberIs(members: seq<Member>, key: string)
    ensures SomeMember(members, key) <==> HasKey(members, key)
  {
  }

  /** The keywords for values of the instance's own type. */
  ghost predicate OwnKeywordsMet(r: Raw, v: Json, reading: Reading := Library)
    requires r.Raw?
    decreases r, 1
  {
    match v
    case Int(_) => BoundsMet(r, v)
    case Double(_) => BoundsMet(r, v)
    case String(text) =>
      && LengthWithin(text, r.minLength, r.maxLength, reading)
      && (r.pattern.Some? ==> r.pattern.value(text))
    case Array(items) =>
      && (r.minItems.Some? ==> |items| >= r.minItems.value)
      && (r.maxItems.Some? ==> |items| <= r.maxItems.value)
      && (r.uniqueItems == Some(true) ==> UniqueBy(items, reading))
      && (forall i :: 0 <= i < |items| ==> ItemMet(r, i, items[i], reading))
    case Object(members) =>
      && (r.minProperties.Some? ==> |members| >= r.minProperties.value)
      && (r.maxProperties.Some? ==> |members| <= r.maxProperties.value)
      && (r.required.Some? ==>
            forall i :: 0 <= i < |r.required.value| ==> SomeMember(members, r.required.value[i]))
      && (forall i :: 0 <= i < |members| ==> MemberMet(r, members[i].key, members[i].value, reading))
    case _ => true
  }

  // ---- What parses --------------------------------------------------------

  predicate Distinct<T(==)>(xs: seq<T>) {
    forall i, j :: 0 <= i < j < |xs| ==> xs[i] != xs[j]
  }

  ghost predicate AllParse(rs: seq<Raw>)
    decreases rs, 0
  {
    forall i :: 0 <= i < |rs| ==> Parses(rs[i])
  }

  predicate BoundsParse(r: Raw)
    requires r.Raw?
  {
    && (r.multipleOf.Some? ==> Integral(r.multipleOf.value) && r.multipleOf.value > 0.0)
    && (r.exclusiveMinimum.Some? ==> r.minimum.Some?)
    && (r.exclusiveMaximum.Some? ==> r.maximum.Some?)
  }

  ghost predicate AdditionalParses(a: RawAdditional)
    decreases a, 0
  {
    a.RawGoverned? ==> Parses(a.schema)
  }

  /** The keywords of one type parse.  Bounds of integers must themselves be integers, and
      `multipleOf` must be one for numbers too. */
  ghost predicate TypeParses(r: Raw, t: TypeName)
    requires r.Raw?
    decreases r, 1
  {
    match t
    case IntegerType =>
      && BoundsParse(r)
      && (r.minimum.Some? ==> Integral(r.minimum.value))
      && (r.maximum.Some? ==> Integral(r.maximum.value))
    case NumberType => BoundsParse(r)
    case ArrayType =>
      && AdditionalParses(r.additionalItems)
      && (r.items.RawOne? ==> Parses(r.items.schema))
      && (r.items.RawTuple? ==> forall i :: 0 <= i < |r.items.schemas| ==> Parses(r.items.schemas[i]))
    case ObjectType =>
      && AdditionalParses(r.additionalProperties)
      && (forall i :: 0 <= i < |Properties(r)| ==> Parses(Properties(r)[i].schema))
      && (forall i :: 0 <= i < |Patterns(r)| ==> Parses(Patterns(r)[i].schema))
      && (r.required.Some? ==> r.required.value != [] && Distinct(r.required.value))
    case _ => true
  }

  ghost predicate CommonParses(r: Raw)
    requires r.Raw?
    decreases r, 1
  {
    && (r.enumeration.Some? ==> Unique(r.enumeration.value))
    && (r.allOf.RawList? ==> List(r.allOf) != [] && AllParse(List(r.allOf)))
    && (r.anyOf.RawList? ==> List(r.anyOf) != [] && AllParse(List(r.anyOf)))
    && (r.oneOf.RawList? ==> List(r.oneOf) != [] && AllParse(List(r.oneOf)))
    && (r.not.SomeRaw? ==> Parses(r.not.schema))
  }

  ghost predicate TypesParse(r: Raw)
    requires r.Raw?
    decreases r, 2
  {
    match r.types
    case NoType => forall t: TypeName :: TypeParses(r, t)
    case SingleType(name) => TypeOfName(name).Some? && TypeParses(r, TypeOfName(name).value)
    case TypeNames(names) =>
      && Distinct(names)
      && forall i :: 0 <= i < |names| ==> TypeOfName(names[i]).Some? && TypeParses(r, TypeOfName(names[i]).value)
  }

  /** The document is one that the parser accepts. */
  ghost predicate Parses(r: Raw)
    decreases r, 3
  {
    match r
    case RawRef(t) => Parses(t)
    case _ => CommonParses(r) && TypesParse(r)
  }

  // ---- Agreement of compiled schemas with documents -----------------------

  /** What the schema says of the instance: its meaning, or what the validator computes. */
  ghost predicate Holds(s: Schema, v: Json, reading: Reading) {
    if reading.Streamed? then Verdict(s, v) else Accepts(s, v)
  }

  /** The compiled schema says what the document says, in both ways, and is ruled out with it. */
  ghost predicate Means(s: Schema, r: Raw) {
    && Compiled(s)
    && (forall v, reading :: reading != Draft4 ==> (Holds(s, v, reading) <==> Meets(r, v, reading)))
    && (Early(s) <==> OpenAtStart(r))
  }

  /** Every item or member is held to the subschemas that govern it. */
  ghost predicate ElementsHold(data: Data, v: Json, reading: Reading)
    requires HasType(data, v)
  {
    && (data.ArrayData? ==>
          forall i :: 0 <= i < |v.items| ==>
            var c := ItemSchema(data, i); c.Some? ==> Holds(c.value, v.items[i], reading))
    && (data.ObjectData? ==>
          forall i, c :: 0 <= i < |v.members| && Governs(data, v.members[i].key, c) ==>
            Holds(c, v.members[i].value, reading))
  }

  lemma ElementsHoldIs(data: Data, v: Json, reading: Reading)
    requires HasType(data, v)
    ensures ElementsHold(data, v, reading) <==>
              if reading.Streamed? then ElementsJudged(data, v) else ElementsAccepted(data, v)
  {
    hide Verdict, Accepts, Governs, ItemSchema, HasType;
  }

  ghost predicate AllMean(ss: seq<Schema>, rs: seq<Raw>) {
    |ss| == |rs| && forall i :: 0 <= i < |ss| ==> Means(ss[i], rs[i])
  }

  /** The data hold the keywords of type `t` and mean what they say. */
  ghost predicate DataMeans(d: Data, r: Raw, t: TypeName)
    requires r.Raw?
  {
    && !d.MixedData? && DataCompiled(d)
    && (forall v :: HasType(d, v) <==> IsOfType(t, v))
    && (forall v, reading :: reading != Draft4 && HasType(d, v) ==>
          (LeafOk(d, v) && ElementsHold(d, v, reading) <==> OwnKeywordsMet(r, v, reading)))
  }

  function Virtual(d: Data): Schema {
    Value(d, None, [], Unlisted, [], [], [], None)
  }

  /** A virtual subschema for the keywords of type `t`. */
  ghost predicate TypedFor(c: Schema, r: Raw, t: TypeName)
    requires r.Raw?
  {
    && Plain(c) && Compiled(c)
    && (forall v :: TypeApplies(c, v) <==> IsOfType(t, v))
    && (forall v, reading :: reading != Draft4 && TypeApplies(c, v) ==>
          (Holds(c, v, reading) <==> OwnKeywordsMet(r, v, reading)))
  }

  lemma VirtualAccepts(d: Data, v: Json)
    requires HasType(d, v)
    ensures Accepts(Virtual(d), v) <==> LeafOk(d, v) && ElementsAccepted(d, v)
  {
    hide LeafOk, ElementsAccepted, HasType;
  }

  lemma VirtualVerdict(d: Data, v: Json)
    requires HasType(d, v) && Compiled(Virtual(d))
    ensures Verdict(Virtual(d), v) <==> LeafOk(d, v) && ElementsJudged(d, v)
  {
    VerdictByParts(Virtual(d), v);
    hide Verdict, LeafOk, ElementsJudged, HasType, Compiled;
  }

  lemma VirtualHolds(d: Data, v: Json, reading: Reading)
    requires HasType(d, v) && Compiled(Virtual(d))
    ensures Holds(Virtual(d), v, reading) <==> LeafOk(d, v) && ElementsHold(d, v, reading)
  {
    ElementsHoldIs(d, v, reading);
    VirtualAccepts(d, v);
    VirtualVerdict(d, v);
    hide Verdict, Accepts, LeafOk, ElementsAccepted, ElementsJudged, ElementsHold, HasType, Compiled;
  }

  lemma VirtualIsTyped(d: Data, r: Raw, t: TypeName)
    requires r.Raw? && DataMeans(d, r, t)
    ensures TypedFor(Virtual(d), r, t)
  {
    var c := Virtual(d);
    assert Children(c) == [];
    assert Compiled(c);
    hide Compiled, Holds, OwnKeywordsMet, LeafOk, HasType, DataCompiled, ElementsHold;
    forall v, reading: Reading | reading != Draft4 && TypeApplies(c, v)
      ensures Holds(c, v, reading) <==> OwnKeywordsMet(r, v, reading)
    {
      VirtualHolds(d, v, reading);
    }
  }

  // ---- Keywords of one type -----------------------------------------------

  ghost predicate AdditionalMeans(a: Additional, raw: RawAdditional) {
    match raw
    case RawUnset => a == Unset
    case RawAllowed(b) => a == Allowed(b)
    case RawGoverned(r) => a.Governed? && Means(a.schema, r)
  }

  /** The array data hold the keywords of the document. */
  ghost predicate HoldsArray(d: Data, r: Raw)
    requires r.Raw? && d.ArrayData?
  {
    && AdditionalMeans(d.additionalItems, r.additionalItems)
    && (match r.items
        case NoRawItems => d.items == NoItems
        case RawOne(c) => d.items.OneSchema? && Means(d.items.schema, c)
        case RawTuple(cs) => d.items.Tuple? && AllMean(d.items.schemas, cs))
    && d.uniqueItems == (r.uniqueItems == Some(true)) && d.maxItems == r.maxItems && d.minItems == r.minItems
  }

  lemma ItemMeans(d: Data, r: Raw, i: nat, item: Json, reading: Reading)
    requires r.Raw? && d.ArrayData? && HoldsArray(d, r) && reading != Draft4
    ensures ItemMet(r, i, item, reading) <==>
              && !ExtraItem(d, i)
              && (ItemSchema(d, i).Some? ==> Holds(ItemSchema(d, i).value, item, reading))
    ensures ItemSchema(d, i).Some? ==> Compiled(ItemSchema(d, i).value)
  {
    hide Compiled, Holds, Meets;
    if r.items.RawTuple? && i < |r.items.schemas| {
      assert Means(d.items.schemas[i], r.items.schemas[i]);
    }
  }

  lemma ArrayDataMeans(d: Data, r: Raw)
    requires r.Raw? && d.ArrayData? && HoldsArray(d, r)
    ensures DataMeans(d, r, ArrayType)
  {
    hide Compiled, Holds, Meets, ItemMet, ExtraItem, ItemSchema;
    forall v, reading: Reading | reading != Draft4 && HasType(d, v)
      ensures LeafOk(d, v) && ElementsHold(d, v, reading) <==> OwnKeywordsMet(r, v, reading)
    {
      forall i | 0 <= i < |v.items|
        ensures ItemMet(r, i, v.items[i], reading) <==>
                  && !ExtraItem(d, i)
                  && (ItemSchema(d, i).Some? ==> Holds(ItemSchema(d, i).value, v.items[i], reading))
      {
        ItemMeans(d, r, i, v.items[i], reading);
      }
    }
    forall i | 0 <= i && ItemSchema(d, i).Some?
      ensures Compiled(ItemSchema(d, i).value)
    {
      ItemMeans(d, r, i, Null, Library);
    }
  }

  /** The object data hold the keywords of the document. */
  ghost predicate HoldsObject(d: Data, r: Raw)
    requires r.Raw? && d.ObjectData?
  {
    && AdditionalMeans(d.additionalProperties, r.additionalProperties)
    && HoldsProperties(d.properties, Properties(r))
    && HoldsPatterns(d.patternProperties, Patterns(r))
    && d.maxProperties == r.maxProperties && d.minProperties == r.minProperties
    && d.required == if r.required.Some? then r.required.value else []
  }

  ghost predicate HoldsProperties(ps: seq<Property>, rs: seq<RawProperty>) {
    |ps| == |rs| && forall i :: 0 <= i < |ps| ==> ps[i].name == rs[i].name && Means(ps[i].schema, rs[i].schema)
  }

  ghost predicate HoldsPatterns(ps: seq<Pattern>, rs: seq<RawPattern>) {
    |ps| == |rs| && forall i :: 0 <= i < |ps| ==> ps[i].matches == rs[i].matches && Means(ps[i].schema, rs[i].schema)
  }

  lemma {:induction false} SameFind(ps: seq<Property>, rs: seq<RawProperty>, name: string)
    requires HoldsProperties(ps, rs)
    ensures FindProperty(ps, name) == FindRaw(rs, name)
  {
    hide Means;
    if ps != [] {
      SameFind(ps[1..], rs[1..], name);
    }
  }

  lemma MeansFor(s: Schema, r: Raw, v: Json, reading: Reading)
    requires Means(s, r) && reading != Draft4
    ensures Compiled(s) && (Holds(s, v, reading) <==> Meets(r, v, reading))
  {
    hide Compiled, Holds, Meets, Early, OpenAtStart;
  }

  lemma MemberMeans(d: Data, r: Raw, key: string, value: Json, reading: Reading)
    requires r.Raw? && d.ObjectData? && HoldsObject(d, r) && reading != Draft4
    ensures MemberMet(r, key, value, reading) <==>
              && !ExtraMember(d, key)
              && forall c :: Governs(d, key, c) ==> Holds(c, value, reading)
    ensures forall c :: Governs(d, key, c) ==> Compiled(c)
  {
    hide Compiled, Holds, Meets, Means;
    SameFind(d.properties, Properties(r), key);
    var found := FindProperty(d.properties, key);
    assert Unmatched(d, key) <==> found.None? && !Matched(Patterns(r), key);
    if found.Some? {
      assert Governs(d, key, d.properties[found.value].schema);
      MeansFor(d.properties[found.value].schema, Properties(r)[found.value].schema, value, reading);
    }
    forall j | 0 <= j < |Patterns(r)| && Patterns(r)[j].matches(key)
      ensures var c := d.patternProperties[j].schema;
              && Governs(d, key, c) && Compiled(c)
              && (Holds(c, value, reading) <==> Meets(Patterns(r)[j].schema, value, reading))
    {
      MeansFor(d.patternProperties[j].schema, Patterns(r)[j].schema, value, reading);
    }
    if d.additionalProperties.Governed? && Unmatched(d, key) {
      assert Governs(d, key, d.additionalProperties.schema);
      MeansFor(d.additionalProperties.schema, r.additionalProperties.schema, value, reading);
    }
  }

  lemma ObjectDataMeans(d: Data, r: Raw)
    requires r.Raw? && d.ObjectData? && HoldsObject(d, r)
    ensures DataMeans(d, r, ObjectType)
  {
    hide Compiled, Holds, Meets, MemberMet, ExtraMember, Governs, HoldsProperties, HoldsPatterns;
    forall v, reading: Reading | reading != Draft4 && HasType(d, v)
      ensures LeafOk(d, v) && ElementsHold(d, v, reading) <==> OwnKeywordsMet(r, v, reading)
    {
      forall i | 0 <= i < |v.members|
        ensures MemberMet(r, v.members[i].key, v.members[i].value, reading) <==>
                  && !ExtraMember(d, v.members[i].key)
                  && forall c :: Governs(d, v.members[i].key, c) ==> Holds(c, v.members[i].value, reading)
      {
        MemberMeans(d, r, v.members[i].key, v.members[i].value, reading);
      }
      forall i | 0 <= i < |d.required|
        ensures SomeMember(v.members, d.required[i]) <==> HasKey(v.members, d.required[i])
      {
        SomeMemberIs(v.members, d.required[i]);
      }
      hide HasKey, SomeMember;
    }
    forall key, c | Governs(d, key, c)
      ensures Compiled(c)
    {
      MemberMeans(d, r, key, Null, Library);
    }
  }

  /** Data of a type without subschemas. */
  function ScalarData(r: Raw, t: TypeName): Data
    requires r.Raw?
  {
    match t
    case NullType => NullData
    case BooleanType => BooleanData
    case IntegerType => IntegerData(RawBounds(r))
    case NumberType => NumberData(RawBounds(r))
    case _ => StringData(r.maxLength, r.minLength, r.pattern)
  }

  lemma ScalarDataMeans(r: Raw, t: TypeName)
    requires r.Raw? && t != ArrayType && t != ObjectType && TypeParses(r, t)
    ensures DataMeans(ScalarData(r, t), r, t)
  {
    if t in {IntegerType, NumberType} {
      forall v: Json | v.Int? || v.Double?
        ensures WithinBounds(RawBounds(r), v) <==> BoundsMet(r, v)
      {
        if r.multipleOf.Some? { WholeQuotient(AsReal(v), r.multipleOf.value); }
        hide IsMultiple, Integral;
      }
      hide WithinBounds, BoundsMet, RawBounds;
    }
    hide Holds;
  }

  // ---- Keywords of every type ---------------------------------------------

  /** `enum`, `allOf`, `anyOf`, `oneOf` and `not`. */
  ghost predicate CommonMet(r: Raw, v: Json, reading: Reading)
    requires r.Raw?
  {
    && Enumerated(r.enumeration, v)
    && (forall i :: 0 <= i < |List(r.allOf)| ==> Meets(List(r.allOf)[i], v, reading))
    && (r.anyOf.RawList? ==>
          exists i ::
            && 0 <= i < |List(r.anyOf)|
            && if AtStart(v, reading) then OpenAtStart(List(r.anyOf)[i]) else Meets(List(r.anyOf)[i], v, reading))
    && (r.oneOf.RawList? ==> OneMet(r, v, reading))
    && (r.not.SomeRaw? ==>
          if AtStart(v, reading) then !OpenAtStart(r.not.schema) else !Meets(r.not.schema, v, reading))
  }

  ghost predicate HoldsCommon(s: Schema, r: Raw)
    requires r.Raw? && s.Value?
  {
    && s.enumeration == r.enumeration
    && AllMean(s.allOf, List(r.allOf))
    && AllMean(s.anyOf, List(r.anyOf)) && (r.anyOf.RawList? <==> s.anyOf != [])
    && AllMean(s.oneOf, List(r.oneOf)) && (r.oneOf.RawList? <==> s.oneOf != [])
    && (s.not.Some? <==> r.not.SomeRaw?)
    && (s.not.Some? ==> Means(s.not.value, r.not.schema))
  }

  /** Exactly one of the alternatives holds. */
  ghost predicate OneHeld(cs: seq<Schema>, v: Json, reading: Reading) {
    exists i :: OnlyHeld(cs, v, reading, i)
  }

  ghost predicate OnlyHeld(cs: seq<Schema>, v: Json, reading: Reading, i: int) {
    0 <= i < |cs| && Holds(cs[i], v, reading) && forall j :: 0 <= j < |cs| && j != i ==> !Holds(cs[j], v, reading)
  }

  ghost predicate CommonHeld(s: Schema, v: Json, reading: Reading)
    requires s.Value?
  {
    && Enumerated(s.enumeration, v)
    && (forall i :: 0 <= i < |s.allOf| ==> Holds(s.allOf[i], v, reading))
    && (s.anyOf != [] ==>
          exists i ::
            && 0 <= i < |s.anyOf|
            && if AtStart(v, reading) then Early(s.anyOf[i]) else Holds(s.anyOf[i], v, reading))
    && (s.oneOf != [] ==>
          if AtStart(v, reading) then
            EarlyCount(s.oneOf, 0) == 1 && forall i :: 0 <= i < |s.oneOf| ==> !Holds(s.oneOf[i], v, reading)
          else OneHeld(s.oneOf, v, reading))
    && (s.not.Some? ==> if AtStart(v, reading) then !Early(s.not.value) else !Holds(s.not.value, v, reading))
  }

  /** Entry `i` of `oneOf` is met, and no other is. */
  ghost predicate OnlyMet(r: Raw, v: Json, reading: Reading, i: int)
    requires r.Raw?
  {
    && 0 <= i < |List(r.oneOf)| && Meets(List(r.oneOf)[i], v, reading)
    && forall j :: 0 <= j < |List(r.oneOf)| && j != i ==> !Meets(List(r.oneOf)[j], v, reading)
  }

  lemma OnlyMetEntry(r: Raw, v: Json, reading: Reading) returns (i: nat)
    requires r.Raw? && OneMet(r, v, reading) && !AtStart(v, reading)
    ensures OnlyMet(r, v, reading, i)
  {
    i :| && 0 <= i < |List(r.oneOf)| && Meets(List(r.oneOf)[i], v, reading)
         && forall j :: 0 <= j < |List(r.oneOf)| && j != i ==> !Meets(List(r.oneOf)[j], v, reading);
  }

  lemma OnlyMetSuffices(r: Raw, v: Json, reading: Reading, i: int)
    requires r.Raw? && OnlyMet(r, v, reading, i) && !AtStart(v, reading)
    ensures OneMet(r, v, reading)
  {
  }

  lemma OneMetStarts(r: Raw, v: Json, reading: Reading)
    requires r.Raw? && AtStart(v, reading)
    ensures OneMet(r, v, reading) <==>
              && OpenCount(List(r.oneOf)) == 1
              && forall j :: 0 <= j < |List(r.oneOf)| ==> !Meets(List(r.oneOf)[j], v, reading)
  {
  }

  lemma OneMetIs(r: Raw, v: Json, reading: Reading)
    requires r.Raw?
    ensures OneMet(r, v, reading) <==>
              if AtStart(v, reading) then
                && OpenCount(List(r.oneOf)) == 1
                && forall j :: 0 <= j < |List(r.oneOf)| ==> !Meets(List(r.oneOf)[j], v, reading)
              else exists i :: OnlyMet(r, v, reading, i)
  {
    hide *;
    if AtStart(v, reading) {
      OneMetStarts(r, v, reading);
    } else {
      if OneMet(r, v, reading) {
        var i := OnlyMetEntry(r, v, reading);
      }
      if i :| OnlyMet(r, v, reading, i) {
        OnlyMetSuffices(r, v, reading, i);
      }
    }
  }

  lemma EntryMeans(ss: seq<Schema>, rs: seq<Raw>, v: Json, reading: Reading)
    requires AllMean(ss, rs) && reading != Draft4
    ensures |ss| == |rs|
    ensures forall i :: 0 <= i < |ss| ==> (Holds(ss[i], v, reading) <==> Meets(rs[i], v, reading))
    ensures forall i :: 0 <= i < |ss| ==> (Early(ss[i]) <==> OpenAtStart(rs[i]))
  {
    hide Compiled, Holds, Meets, Early, OpenAtStart;
    forall i | 0 <= i < |ss|
      ensures Holds(ss[i], v, reading) <==> Meets(rs[i], v, reading)
      ensures Early(ss[i]) <==> OpenAtStart(rs[i])
    {
      assert Means(ss[i], rs[i]);
    }
  }

  lemma {:induction false} CountMeans(ss: seq<Schema>, rs: seq<Raw>, m: nat)
    requires AllMean(ss, rs) && m <= |ss|
    ensures |ss| == |rs| && EarlyCount(ss, m) == OpenCount(rs[m..])
    decreases |ss| - m
  {
    EntryMeans(ss, rs, Null, Library);
    hide Means, Early, OpenAtStart;
    if m < |ss| {
      CountMeans(ss, rs, m + 1);
      assert rs[m..][1..] == rs[m + 1..];
    }
  }

  lemma OnlyMeans(cs: seq<Schema>, r: Raw, v: Json, reading: Reading)
    requires r.Raw? && |cs| == |List(r.oneOf)|
    requires forall i :: 0 <= i < |cs| ==> (Holds(cs[i], v, reading) <==> Meets(List(r.oneOf)[i], v, reading))
    ensures OneHeld(cs, v, reading) <==> exists i :: OnlyMet(r, v, reading, i)
  {
    hide Holds, Meets, List;
    if i :| OnlyMet(r, v, reading, i) { assert OnlyHeld(cs, v, reading, i); }
    if i :| OnlyHeld(cs, v, reading, i) { assert OnlyMet(r, v, reading, i); }
  }

  lemma OneMeans(s: Schema, r: Raw, v: Json, reading: Reading)
    requires s.Value? && r.Raw? && AllMean(s.oneOf, List(r.oneOf)) && reading != Draft4
    ensures OneMet(r, v, reading) <==>
              if AtStart(v, reading) then
                EarlyCount(s.oneOf, 0) == 1 && forall i :: 0 <= i < |s.oneOf| ==> !Holds(s.oneOf[i], v, reading)
              else OneHeld(s.oneOf, v, reading)
  {
    hide *;
    OneMetIs(r, v, reading);
    EntryMeans(s.oneOf, List(r.oneOf), v, reading);
    CountMeans(s.oneOf, List(r.oneOf), 0);
    assert List(r.oneOf)[0..] == List(r.oneOf);
    OnlyMeans(s.oneOf, r, v, reading);
  }

  lemma CommonMeans(s: Schema, r: Raw, v: Json, reading: Reading)
    requires r.Raw? && s.Value? && HoldsCommon(s, r) && reading != Draft4
    ensures CommonHeld(s, v, reading) <==> CommonMet(r, v, reading)
  {
    OneMeans(s, r, v, reading);
    EntryMeans(s.allOf, List(r.allOf), v, reading);
    EntryMeans(s.anyOf, List(r.anyOf), v, reading);
    hide Compiled, Holds, Meets, Early, OpenAtStart, List, OneMet, OneHeld, Enumerated, AllMean, AtStart, EarlyCount;
  }

  /** The start of an array rules out the compiled schema exactly with the document. */
  lemma EarlyMeans(s: Schema, r: Raw)
    requires r.Raw? && s.Value? && HoldsCommon(s, r)
    requires s.data.MixedData? || s.data.ArrayData? <==> ArrayPossible(r.types)
    ensures Early(s) <==> OpenAtStart(r)
  {
    EarlyByParts(s);
    EntryMeans(s.allOf, List(r.allOf), Null, Library);
    CountMeans(s.oneOf, List(r.oneOf), 0);
    assert List(r.oneOf)[0..] == List(r.oneOf);
    OpenByParts(r);
    hide Compiled, Holds, Meets, Early, OpenAtStart, List, AllMean, EarlyCount, OpenCount, ArrayPossible;
  }

  lemma OpenByParts(r: Raw)
    requires r.Raw?
    ensures OpenAtStart(r) <==>
              && ArrayPossible(r.types)
              && (forall i :: 0 <= i < |List(r.allOf)| ==> OpenAtStart(List(r.allOf)[i]))
              && (r.not.SomeRaw? ==> !OpenAtStart(r.not.schema))
              && OpenCount(List(r.oneOf)) <= 1
  {
    assert OpenCount([]) == 0 && (r.oneOf.NoList? ==> List(r.oneOf) == []);
    hide List, ArrayPossible;
  }

  lemma SameType(types: RawType, v: Json, reading: Reading)
    requires reading != Draft4
    ensures TypeMet(types, v, reading) <==> TypeMet(types, v)
  {
    hide TypeOfName;
  }

  lemma MeetsSplits(r: Raw, v: Json, reading: Reading)
    requires r.Raw? && reading != Draft4
    ensures Meets(r, v, reading) <==> TypeMet(r.types, v) && OwnKeywordsMet(r, v, reading) && CommonMet(r, v, reading)
  {
    SameType(r.types, v, reading);
    hide OwnKeywordsMet, OneMet, TypeMet, Enumerated, OpenAtStart, List, AtStart;
  }

  // ---- The three shapes of a compiled schema ------------------------------

  /** What the virtual subschemas ask for. */
  ghost predicate VirtualHeld(s: Schema, v: Json, reading: Reading)
    requires s.Value?
  {
    && (forall i :: 0 <= i < |s.typeAny| && TypeApplies(s.typeAny[i], v) ==> Holds(s.typeAny[i], v, reading))
    && (forall i :: 0 <= i < |ListedTypes(s.typeList)| && TypeApplies(ListedTypes(s.typeList)[i], v) ==>
          Holds(ListedTypes(s.typeList)[i], v, reading))
    && (s.typeList.Listed? ==> exists i :: 0 <= i < |s.typeList.types| && TypeApplies(s.typeList.types[i], v))
  }

  lemma AcceptsSplits(s: Schema, v: Json, reading: Reading)
    requires s.Value? && !reading.Streamed?
    ensures Accepts(s, v) <==>
              && HasType(s.data, v) && LeafOk(s.data, v) && ElementsHold(s.data, v, reading)
              && CommonHeld(s, v, reading) && VirtualHeld(s, v, reading)
  {
    if HasType(s.data, v) { ElementsHoldIs(s.data, v, reading); }
    ValueAccepts(s, v);
    AcceptsCommon(s, v, reading);
    hide LeafOk, Enumerated, HasType, ElementsAccepted, ElementsHold, DemandsMet, ChoicesMet, CommonHeld, VirtualHeld,
      Accepts;
  }

  lemma AcceptsCommon(s: Schema, v: Json, reading: Reading)
    requires s.Value? && !reading.Streamed?
    ensures CommonHeld(s, v, reading) && VirtualHeld(s, v, reading) <==>
              Enumerated(s.enumeration, v) && DemandsMet(s, v) && ChoicesMet(s, v)
  {
    ExactlyIsOne(s, v, reading);
    hide Enumerated, ExactlyOneOf, OneHeld, TypeApplies, Accepts, EarlyCount, Early;
  }

  lemma ExactlyIsOne(s: Schema, v: Json, reading: Reading)
    requires s.Value? && !reading.Streamed?
    ensures ExactlyOneOf(s, v) <==> OneHeld(s.oneOf, v, reading)
  {
    hide Accepts, ExactlyOneOf;
    if ExactlyOneOf(s, v) {
      var i := OnlyEntry(s, v);
      assert OnlyHeld(s.oneOf, v, reading, i);
    }
    if i :| OnlyHeld(s.oneOf, v, reading, i) {
      assert OnlyOneOf(s, v, i);
      OnlyEntrySuffices(s, v, i);
    }
  }

  lemma OneIsJudged(s: Schema, v: Json)
    requires s.Value?
    ensures OneHeld(s.oneOf, v, Streamed) <==> exists i :: OnlyJudged(s.oneOf, v, i)
  {
    hide Verdict;
    if i :| OnlyHeld(s.oneOf, v, Streamed, i) { assert OnlyJudged(s.oneOf, v, i); }
    if i :| OnlyJudged(s.oneOf, v, i) { assert OnlyHeld(s.oneOf, v, Streamed, i); }
  }

  lemma VerdictSplits(s: Schema, v: Json)
    requires s.Value? && Compiled(s)
    ensures Verdict(s, v) <==>
              && HasType(s.data, v) && LeafOk(s.data, v) && ElementsHold(s.data, v, Streamed)
              && CommonHeld(s, v, Streamed) && VirtualHeld(s, v, Streamed)
  {
    if HasType(s.data, v) { ElementsHoldIs(s.data, v, Streamed); }
    VerdictByParts(s, v);
    VerdictCommon(s, v);
    hide LeafOk, Enumerated, HasType, ElementsJudged, ElementsHold, CommonHeld, VirtualHeld, DemandsJudged, SomeListed,
      FourJudged, Verdict, Compiled;
  }

  lemma VerdictCommon(s: Schema, v: Json)
    requires s.Value?
    ensures CommonHeld(s, v, Streamed) && VirtualHeld(s, v, Streamed) <==>
              Enumerated(s.enumeration, v) && DemandsJudged(s, v) && SomeListed(s, v) && FourJudged(s, v)
  {
    OneIsJudged(s, v);
    CountsSomeEarly(s.anyOf, 0);
    hide Enumerated, OneHeld, OnlyJudged, TypeApplies, Verdict, Early, EarlyCount;
  }

  lemma HoldsSplits(s: Schema, v: Json, reading: Reading)
    requires s.Value? && Compiled(s)
    ensures Holds(s, v, reading) <==>
              && HasType(s.data, v) && LeafOk(s.data, v) && ElementsHold(s.data, v, reading)
              && CommonHeld(s, v, reading) && VirtualHeld(s, v, reading)
  {
    if reading.Streamed? { VerdictSplits(s, v); } else { AcceptsSplits(s, v, reading); }
    hide LeafOk, HasType, ElementsHold, CommonHeld, VirtualHeld, Verdict, Accepts, Compiled;
  }

  lemma HoldsCommonCompiled(s: Schema, r: Raw)
    requires r.Raw? && s.Value? && HoldsCommon(s, r)
    requires DataCompiled(s.data) && (s.typeList.Listed? ==> s.data.MixedData?)
    requires forall c :: c in s.typeAny ==> Plain(c) && Compiled(c)
    requires forall c :: c in ListedTypes(s.typeList) ==> Plain(c) && Compiled(c)
    ensures Compiled(s)
  {
    forall i | 0 <= i < |Children(s)|
      ensures Compiled(Children(s)[i].schema)
      ensures Children(s)[i].composition in {TypeAny, TypeList} ==> Plain(Children(s)[i].schema)
    {
      ChildSource(s, i);
      hide Children, Plain, Compiled, DataCompiled;
      var c := Children(s)[i];
      if c.composition == All {
        var j :| 0 <= j < |s.allOf| && s.allOf[j] == c.schema;
        assert Means(s.allOf[j], List(r.allOf)[j]);
      } else if c.composition == Any {
        var j :| 0 <= j < |s.anyOf| && s.anyOf[j] == c.schema;
        assert Means(s.anyOf[j], List(r.anyOf)[j]);
      } else if c.composition == One {
        var j :| 0 <= j < |s.oneOf| && s.oneOf[j] == c.schema;
        assert Means(s.oneOf[j], List(r.oneOf)[j]);
      }
    }
  }

  lemma ChildSource(s: Schema, i: nat)
    requires s.Value? && i < |Children(s)|
    ensures var c := Children(s)[i];
            match c.composition
            case TypeAny => c.schema in s.typeAny
            case TypeList => c.schema in ListedTypes(s.typeList)
            case All => c.schema in s.allOf
            case Any => c.schema in s.anyOf
            case One => c.schema in s.oneOf
            case Not => s.not == Some(c.schema)
            case _ => false
  {
  }

  /** A schema with a single type. */
  lemma SingleMeans(s: Schema, r: Raw, t: TypeName)
    requires r.Raw? && s.Value? && HoldsCommon(s, r) && s.typeAny == [] && s.typeList.Unlisted?
    requires r.types.SingleType? && TypeOfName(r.types.name) == Some(t) && DataMeans(s.data, r, t)
    ensures Means(s, r)
  {
    assert HasType(s.data, Array([])) <==> IsOfType(t, Array([]));
    assert s.data.ArrayData? <==> t == ArrayType;
    hide Compiled, Holds, Meets, HoldsCommon, CommonMet, CommonHeld, OwnKeywordsMet, LeafOk, ElementsHold, HasType,
      Early, OpenAtStart;
    HoldsCommonCompiled(s, r);
    EarlyMeans(s, r);
    forall v, reading: Reading | reading != Draft4
      ensures Holds(s, v, reading) <==> Meets(r, v, reading)
    {
      HoldsSplits(s, v, reading);
      MeetsSplits(r, v, reading);
      CommonMeans(s, r, v, reading);
    }
  }

  /** The virtual subschemas cover the keywords of every type; types without keywords have none. */
  ghost predicate Covers(cs: seq<Schema>, r: Raw)
    requires r.Raw?
  {
    && (forall c :: c in cs ==> exists t :: TypedFor(c, r, t))
    && (forall t: TypeName :: Covered(cs, r, t))
  }

  ghost predicate Covered(cs: seq<Schema>, r: Raw, t: TypeName)
    requires r.Raw?
  {
    (exists c :: c in cs && TypedFor(c, r, t)) || Idle(r, t)
  }

  /** The document has no keyword that could fail on instances of the type. */
  ghost predicate Idle(r: Raw, t: TypeName)
    requires r.Raw?
  {
    forall v, reading :: reading != Draft4 && IsOfType(t, v) ==> OwnKeywordsMet(r, v, reading)
  }

  lemma SomeType(v: Json)
    ensures exists t :: IsOfType(t, v)
  {
    assert v.Null? ==> IsOfType(NullType, v);
    assert v.Bool? ==> IsOfType(BooleanType, v);
    assert v.Int? || v.Double? ==> IsOfType(NumberType, v);
    assert v.String? ==> IsOfType(StringType, v);
    assert v.Array? ==> IsOfType(ArrayType, v);
    assert v.Object? ==> IsOfType(ObjectType, v);
  }

  ghost predicate ApplicableHold(cs: seq<Schema>, v: Json, reading: Reading) {
    forall c :: c in cs && TypeApplies(c, v) ==> Holds(c, v, reading)
  }

  lemma CoversMeans(cs: seq<Schema>, r: Raw, v: Json, reading: Reading)
    requires r.Raw? && Covers(cs, r) && reading != Draft4
    ensures ApplicableHold(cs, v, reading) <==> OwnKeywordsMet(r, v, reading)
  {
    hide Compiled, Holds, OwnKeywordsMet, TypeApplies, Plain, IsOfType;
    SomeType(v);
    var t :| IsOfType(t, v);
    assert Covered(cs, r, t);
    forall c | c in cs && TypeApplies(c, v)
      ensures Holds(c, v, reading) <==> OwnKeywordsMet(r, v, reading)
    {
      var u :| TypedFor(c, r, u);
    }
  }

  /** A schema without a type: virtual subschemas for the keywords that are present. */
  lemma MixedMeans(s: Schema, r: Raw)
    requires r.Raw? && s.Value? && HoldsCommon(s, r) && s.data.MixedData? && s.typeList.Unlisted?
    requires r.types.NoType? && Covers(s.typeAny, r)
    ensures Means(s, r)
  {
    hide Compiled, Holds, Meets, HoldsCommon, CommonMet, CommonHeld, OwnKeywordsMet, Plain, TypeApplies, Early,
      OpenAtStart, ElementsHold;
    forall c | c in s.typeAny
      ensures Plain(c) && Compiled(c)
    {
      var t :| TypedFor(c, r, t);
    }
    HoldsCommonCompiled(s, r);
    EarlyMeans(s, r);
    forall v, reading: Reading | reading != Draft4
      ensures Holds(s, v, reading) <==> Meets(r, v, reading)
    {
      HoldsSplits(s, v, reading);
      MeetsSplits(r, v, reading);
      CommonMeans(s, r, v, reading);
      CoversMeans(s.typeAny, r, v, reading);
      MixedHolds(s.data, v, reading);
      assert VirtualHeld(s, v, reading) <==> ApplicableHold(s.typeAny, v, reading);
    }
  }

  lemma MixedHolds(d: Data, v: Json, reading: Reading)
    requires d.MixedData?
    ensures HasType(d, v) && LeafOk(d, v) && ElementsHold(d, v, reading) && DataCompiled(d)
  {
    hide Holds;
  }

  ghost predicate ListsTypes(cs: seq<Schema>, r: Raw, names: seq<string>)
    requires r.Raw?
  {
    && |cs| == |names|
    && forall i :: 0 <= i < |cs| ==> TypeOfName(names[i]).Some? && TypedFor(cs[i], r, TypeOfName(names[i]).value)
  }

  lemma ListMeans(cs: seq<Schema>, r: Raw, v: Json, reading: Reading)
    requires r.Raw? && r.types.TypeNames? && ListsTypes(cs, r, r.types.names) && reading != Draft4
    ensures ApplicableHold(cs, v, reading) && (exists i :: 0 <= i < |cs| && TypeApplies(cs[i], v))
       <==> TypeMet(r.types, v) && OwnKeywordsMet(r, v, reading)
  {
    hide Compiled, Holds, OwnKeywordsMet, TypeApplies, Plain, IsOfType, TypeOfName;
    forall i | 0 <= i < |cs|
      ensures TypeApplies(cs[i], v) <==> IsOfType(TypeOfName(r.types.names[i]).value, v)
      ensures TypeApplies(cs[i], v) ==> (Holds(cs[i], v, reading) <==> OwnKeywordsMet(r, v, reading))
    {
      assert TypedFor(cs[i], r, TypeOfName(r.types.names[i]).value);
    }
  }

  /** A schema with a list of types: one virtual subschema for each of them. */
  lemma ListedMeans(s: Schema, r: Raw)
    requires r.Raw? && s.Value? && HoldsCommon(s, r) && s.data.MixedData? && s.typeAny == [] && s.typeList.Listed?
    requires r.types.TypeNames? && ListsTypes(s.typeList.types, r, r.types.names)
    ensures Means(s, r)
  {
    hide Compiled, Holds, Meets, HoldsCommon, CommonMet, CommonHeld, OwnKeywordsMet, Plain, TypeApplies, TypeMet, Early,
      OpenAtStart, ElementsHold;
    MixedHolds(s.data, Null, Library);
    HoldsCommonCompiled(s, r);
    EarlyMeans(s, r);
    forall v, reading: Reading | reading != Draft4
      ensures Holds(s, v, reading) <==> Meets(r, v, reading)
    {
      HoldsSplits(s, v, reading);
      MeetsSplits(r, v, reading);
      CommonMeans(s, r, v, reading);
      ListMeans(s.typeList.types, r, v, reading);
      MixedHolds(s.data, v, reading);
      assert ListedTypes(s.typeList) == s.typeList.types;
    }
  }

  // ---- The parser ---------------------------------------------------------

  method ParseValue(r: Raw) returns (s: Option<Schema>)
    ensures s.Some? <==> Parses(r)
    ensures s.Some? ==> Means(s.value, r)
    decreases r, 3
  {
    hide Compiled, Holds, Meets, HoldsCommon, DataMeans, TypedFor, TypeParses, CommonParses;
    if r.RawRef? {
      var t := ParseValue(r.target);
      if t.None? {
        return None;
      }
      ReferenceMeans(t.value, r.target);
      return Some(RefOnly(t.value));
    }
    match r.types {
      case NoType => s := ParseMixedType(r);
      case SingleType(name) =>
        var t := TypeOfName(name);
        if t.None? {
          return None;
        }
        var common := ParseCommon(r);
        if common.None? {
          return None;
        }
        var d, _ := ParseType(r, t.value);
        if d.None? {
          return None;
        }
        s := Some(common.value.(data := d.value));
        CommonKept(common.value, s.value, r);
        SingleMeans(s.value, r, t.value);
      case TypeNames(names) => s := ParseTypeList(r, names);
    }
  }

  lemma ReferenceMeans(t: Schema, r: Raw)
    requires Means(t, r)
    ensures Means(RefOnly(t), RawRef(r))
  {
    assert Children(RefOnly(t)) == [Child(Ref, t)];
    assert Compiled(RefOnly(t));
    assert Early(RefOnly(t)) == Early(t) && OpenAtStart(RawRef(r)) == OpenAtStart(r);
    hide Compiled, Early, OpenAtStart, Children;
    forall v, reading: Reading | reading != Draft4
      ensures Holds(RefOnly(t), v, reading) <==> Meets(RawRef(r), v, reading)
    {
      ReferenceHolds(t, r, v, reading);
    }
  }

  lemma ReferenceHolds(t: Schema, r: Raw, v: Json, reading: Reading)
    requires Means(t, r) && reading != Draft4
    ensures Holds(RefOnly(t), v, reading) <==> Meets(RawRef(r), v, reading)
  {
    MeansFor(t, r, v, reading);
    hide Compiled, Early, OpenAtStart;
  }

  lemma CommonKept(s: Schema, s': Schema, r: Raw)
    requires r.Raw? && s.Value? && HoldsCommon(s, r)
    requires s'.Value? && s' == s.(data := s'.data, typeAny := s'.typeAny, typeList := s'.typeList)
    ensures HoldsCommon(s', r)
  {
    hide Means;
  }

  const TYPE_ORDER: seq<TypeName> :=
    [NullType, BooleanType, IntegerType, NumberType, StringType, ArrayType, ObjectType]

  method ParseMixedType(r: Raw) returns (s: Option<Schema>)
    requires r.Raw? && r.types.NoType?
    ensures s.Some? <==> Parses(r)
    ensures s.Some? ==> Means(s.value, r)
    decreases r, 2
  {
    hide Compiled, Holds, Meets, HoldsCommon, DataMeans, TypedFor, TypeParses, CommonParses, Covered;
    var common := ParseCommon(r);
    if common.None? {
      return None;
    }
    var typed: seq<Schema> := [];
    var i := 0;
    while i < |TYPE_ORDER|
      invariant 0 <= i <= |TYPE_ORDER|
      invariant forall j :: 0 <= j < i ==> TypeParses(r, TYPE_ORDER[j])
      invariant forall c :: c in typed ==> exists t :: TypedFor(c, r, t)
      invariant forall j :: 0 <= j < i ==> Covered(typed, r, TYPE_ORDER[j])
    {
      var d, present := ParseType(r, TYPE_ORDER[i]);
      if d.None? {
        return None;
      }
      ghost var before := typed;
      if present {
        typed := typed + [Virtual(d.value)];
        VirtualIsTyped(d.value, r, TYPE_ORDER[i]);
      }
      forall j | 0 <= j <= i
        ensures Covered(typed, r, TYPE_ORDER[j])
      {
        CoveredMore(before, typed, r, TYPE_ORDER[j], d.value, present, TYPE_ORDER[i]);
      }
      i := i + 1;
    }
    forall t: TypeName
      ensures TypeParses(r, t) && Covered(typed, r, t)
    {
      EveryType(t);
    }
    MixedParses(r);
    s := Some(common.value.(typeAny := typed));
    CommonKept(common.value, s.value, r);
    MixedMeans(s.value, r);
  }

  lemma MixedParses(r: Raw)
    requires r.Raw? && r.types.NoType? && CommonParses(r) && forall t: TypeName :: TypeParses(r, t)
    ensures Parses(r)
  {
  }

  lemma EveryType(t: TypeName)
    ensures exists j :: 0 <= j < |TYPE_ORDER| && TYPE_ORDER[j] == t
  {
    assert TYPE_ORDER[match t case NullType => 0 case BooleanType => 1 case IntegerType => 2 case NumberType => 3
                      case StringType => 4 case ArrayType => 5 case ObjectType => 6] == t;
  }

  lemma CoveredMore(before: seq<Schema>, typed: seq<Schema>, r: Raw, t: TypeName, d: Data, present: bool, u: TypeName)
    requires r.Raw? && typed == if present then before + [Virtual(d)] else before
    requires present ==> TypedFor(Virtual(d), r, u)
    requires !present ==> Idle(r, u)
    requires t == u || Covered(before, r, t)
    ensures Covered(typed, r, t)
  {
    hide TypedFor, Idle;
    if t == u && present {
      assert Virtual(d) in typed;
    }
  }

  method ParseTypeList(r: Raw, names: seq<string>) returns (s: Option<Schema>)
    requires r.Raw? && r.types == TypeNames(names)
    ensures s.Some? <==> Parses(r)
    ensures s.Some? ==> Means(s.value, r)
    decreases r, 2
  {
    hide Compiled, Holds, Meets, HoldsCommon, DataMeans, TypedFor, TypeParses, CommonParses;
    if !Distinct(names) {
      return None;
    }
    var common := ParseCommon(r);
    if common.None? {
      return None;
    }
    var typed: seq<Schema> := [];
    var i := 0;
    while i < |names|
      invariant 0 <= i <= |names|
      invariant forall j :: 0 <= j < i ==> TypeOfName(names[j]).Some? && TypeParses(r, TypeOfName(names[j]).value)
      invariant ListsTypes(typed, r, names[..i])
    {
      var t := TypeOfName(names[i]);
      if t.None? {
        return None;
      }
      var d, _ := ParseType(r, t.value);
      if d.None? {
        return None;
      }
      VirtualIsTyped(d.value, r, t.value);
      typed := typed + [Virtual(d.value)];
      i := i + 1;
    }
    assert names[..i] == names;
    s := Some(common.value.(typeList := Listed(typed)));
    CommonKept(common.value, s.value, r);
    ListedMeans(s.value, r);
  }

  /** The keywords that `jso_schema_value_init` sets on every value but virtual ones. */
  method ParseCommon(r: Raw) returns (s: Option<Schema>)
    requires r.Raw?
    ensures s.Some? <==> CommonParses(r)
    ensures s.Some? ==> s.value.Value? && HoldsCommon(s.value, r)
    ensures s.Some? ==> s.value.data.MixedData? && s.value.typeAny == [] && s.value.typeList.Unlisted?
    decreases r, 1
  {
    hide Means, AllParse;
    if r.enumeration.Some? && !Unique(r.enumeration.value) {
      return None;
    }
    var allOf := ParseList(r.allOf);
    if allOf.None? {
      return None;
    }
    var anyOf := ParseList(r.anyOf);
    if anyOf.None? {
      return None;
    }
    var oneOf := ParseList(r.oneOf);
    if oneOf.None? {
      return None;
    }
    var not := None;
    if r.not.SomeRaw? {
      not := ParseValue(r.not.schema);
      if not.None? {
        return None;
      }
    }
    s := Some(Value(MixedData, r.enumeration, [], Unlisted, allOf.value, anyOf.value, oneOf.value, not));
  }

  /** A keyword whose value is a nonempty array of schemas. */
  method ParseList(l: RawList) returns (ss: Option<seq<Schema>>)
    ensures ss.Some? <==> (l.RawList? ==> List(l) != [] && AllParse(List(l)))
    ensures ss.Some? ==> AllMean(ss.value, List(l))
    decreases l
  {
    if l.NoList? {
      return Some([]);
    }
    if l.schemas == [] {
      return None;
    }
    ss := ParseAll(l.schemas);
  }

  method ParseAll(rs: seq<Raw>) returns (ss: Option<seq<Schema>>)
    ensures ss.Some? <==> AllParse(rs)
    ensures ss.Some? ==> AllMean(ss.value, rs)
    decreases rs, 0
  {
    hide Means;
    var parsed: seq<Schema> := [];
    var i := 0;
    while i < |rs|
      invariant 0 <= i <= |rs|
      invariant forall j :: 0 <= j < i ==> Parses(rs[j])
      invariant AllMean(parsed, rs[..i])
    {
      var s := ParseValue(rs[i]);
      if s.None? {
        return None;
      }
      parsed := parsed + [s.value];
      i := i + 1;
    }
    assert rs[..i] == rs;
    ss := Some(parsed);
  }

  method ParseAdditional(a: RawAdditional) returns (p: Option<Additional>)
    ensures p.Some? <==> AdditionalParses(a)
    ensures p.Some? ==> AdditionalMeans(p.value, a)
    decreases a, 0
  {
    match a {
      case RawUnset => p := Some(Unset);
      case RawAllowed(b) => p := Some(Allowed(b));
      case RawGoverned(r) =>
        var s := ParseValue(r);
        p := if s.Some? then Some(Governed(s.value)) else None;
    }
  }

  /** The keywords of one type; `present` is the flag that marks the value as not empty. */
  method ParseType(r: Raw, t: TypeName) returns (d: Option<Data>, present: bool)
    requires r.Raw?
    ensures d.Some? <==> TypeParses(r, t)
    ensures d.Some? ==> DataMeans(d.value, r, t)
    ensures d.Some? && !present ==> Idle(r, t)
    decreases r, 1
  {
    hide Compiled, Holds, Meets, DataMeans, Idle;
    if t == ArrayType {
      d, present := ParseArray(r);
    } else if t == ObjectType {
      d, present := ParseObject(r);
    } else {
      if t in {IntegerType, NumberType} {
        if r.multipleOf.Some? && !(Integral(r.multipleOf.value) && r.multipleOf.value > 0.0) {
          return None, false;
        }
        if t == IntegerType && ((r.minimum.Some? && !Integral(r.minimum.value))
                                || (r.maximum.Some? && !Integral(r.maximum.value))) {
          return None, false;
        }
        if r.exclusiveMinimum.Some? && r.minimum.None? {
          return None, false;
        }
        if r.exclusiveMaximum.Some? && r.maximum.None? {
          return None, false;
        }
        present := r.multipleOf.Some? || r.minimum.Some? || r.maximum.Some?
                   || r.exclusiveMinimum.Some? || r.exclusiveMaximum.Some?;
      } else {
        present := t == StringType && (r.maxLength.Some? || r.minLength.Some? || r.pattern.Some?);
      }
      d := Some(ScalarData(r, t));
      ScalarDataMeans(r, t);
      if !present { ScalarIdle(r, t); }
    }
  }

  lemma ScalarIdle(r: Raw, t: TypeName)
    requires r.Raw? && t != ArrayType && t != ObjectType
    requires t in {IntegerType, NumberType} ==> r.multipleOf.None? && r.minimum.None? && r.maximum.None?
    requires t == StringType ==> r.maxLength.None? && r.minLength.None? && r.pattern.None?
    ensures Idle(r, t)
  {
  }

  method ParseArray(r: Raw) returns (d: Option<Data>, present: bool)
    requires r.Raw?
    ensures d.Some? <==> TypeParses(r, ArrayType)
    ensures d.Some? ==> DataMeans(d.value, r, ArrayType)
    ensures d.Some? && !present ==> Idle(r, ArrayType)
    decreases r, 0
  {
    hide Means, DataMeans, Idle;
    var additional := ParseAdditional(r.additionalItems);
    if additional.None? {
      return None, false;
    }
    var items;
    match r.items {
      case NoRawItems => items := NoItems;
      case RawOne(c) =>
        var s := ParseValue(c);
        if s.None? {
          return None, false;
        }
        items := OneSchema(s.value);
      case RawTuple(cs) =>
        var ss := ParseAll(cs);
        if ss.None? {
          return None, false;
        }
        items := Tuple(ss.value);
    }
    d := Some(ArrayData(items, additional.value, r.uniqueItems == Some(true), r.maxItems, r.minItems));
    present := !r.additionalItems.RawUnset? || !r.items.NoRawItems? || r.uniqueItems.Some? || r.maxItems.Some?
               || r.minItems.Some?;
    ArrayDataMeans(d.value, r);
    if !present { ArrayIdle(r); }
  }

  lemma ArrayIdle(r: Raw)
    requires r.Raw? && r.items.NoRawItems? && r.uniqueItems.None? && r.maxItems.None? && r.minItems.None?
    ensures Idle(r, ArrayType)
  {
  }

  method ParseObject(r: Raw) returns (d: Option<Data>, present: bool)
    requires r.Raw?
    ensures d.Some? <==> TypeParses(r, ObjectType)
    ensures d.Some? ==> DataMeans(d.value, r, ObjectType)
    ensures d.Some? && !present ==> Idle(r, ObjectType)
    decreases r, 0
  {
    hide Means, DataMeans, Idle;
    var additional := ParseAdditional(r.additionalProperties);
    if additional.None? {
      return None, false;
    }
    var properties: seq<Property> := [];
    if r.properties.RawProperties? {
      var ps := ParseProperties(r.properties.properties);
      assert Properties(r) == r.properties.properties;
      if ps.None? {
        return None, false;
      }
      properties := ps.value;
    }
    var patterns: seq<Pattern> := [];
    if r.patternProperties.RawPatterns? {
      var ps := ParsePatterns(r.patternProperties.patterns);
      assert Patterns(r) == r.patternProperties.patterns;
      if ps.None? {
        return None, false;
      }
      patterns := ps.value;
    }
    if r.required.Some? && (r.required.value == [] || !Distinct(r.required.value)) {
      return None, false;
    }
    d := Some(ObjectData(additional.value, r.maxProperties, r.minProperties,
                         if r.required.Some? then r.required.value else [], properties, patterns));
    present := !r.additionalProperties.RawUnset? || !r.properties.NoProperties? || !r.patternProperties.NoPatterns?
               || r.maxProperties.Some? || r.minProperties.Some? || r.required.Some?;
    ObjectDataMeans(d.value, r);
    if !present { ObjectIdle(r); }
  }

  lemma ObjectIdle(r: Raw)
    requires r.Raw? && r.additionalProperties.RawUnset? && r.properties.NoProperties? && r.patternProperties.NoPatterns?
    requires r.maxProperties.None? && r.minProperties.None? && r.required.None?
    ensures Idle(r, ObjectType)
  {
  }

  method ParseProperties(rs: seq<RawProperty>) returns (ps: Option<seq<Property>>)
    ensures ps.Some? <==> forall i :: 0 <= i < |rs| ==> Parses(rs[i].schema)
    ensures ps.Some? ==> HoldsProperties(ps.value, rs)
    decreases rs, 0
  {
    hide Means;
    var parsed: seq<Property> := [];
    var i := 0;
    while i < |rs|
      invariant 0 <= i <= |rs|
      invariant forall j :: 0 <= j < i ==> Parses(rs[j].schema)
      invariant HoldsProperties(parsed, rs[..i])
    {
      var s := ParseValue(rs[i].schema);
      if s.None? {
        return None;
      }
      parsed := parsed + [Property(rs[i].name, s.value)];
      i := i + 1;
    }
    assert rs[..i] == rs;
    ps := Some(parsed);
  }

  method ParsePatterns(rs: seq<RawPattern>) returns (ps: Option<seq<Pattern>>)
    ensures ps.Some? <==> forall i :: 0 <= i < |rs| ==> Parses(rs[i].schema)
    ensures ps.Some? ==> HoldsPatterns(ps.value, rs)
    decreases rs, 0
  {
    hide Means;
    var parsed: seq<Pattern> := [];
    var i := 0;
    while i < |rs|
      invariant 0 <= i <= |rs|
      invariant forall j :: 0 <= j < i ==> Parses(rs[j].schema)
      invariant HoldsPatterns(parsed, rs[..i])
    {
      assert rs[i].schema < rs[i] && rs[i] in rs;
      var s := ParseValue(rs[i].schema);
      if s.None? {
        return None;
      }
      parsed := parsed + [Pattern(rs[i].matches, s.value)];
      i := i + 1;
    }
    assert rs[..i] == rs;
    ps := Some(parsed);
  }
}
