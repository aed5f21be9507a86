/** Compiled Draft 4 schemas and their meaning.

    A `Schema` is what the schema parser leaves behind: one node per
    `jso_schema_value`.  `Accepts` is the meaning Draft 4 gives to such a node,
    written without any reference to positions, layers or events.  Integers, equality of
    values and lengths of strings are those of the library; `Readings.dfy` compares them
    with those of Draft 4. */
module Schemas {
  import opened Options
  import opened JsonValues

  /** `RefOnly` is a value whose only keyword is `$ref`, standing for its resolved
      target.  `typeAny` and `typeList` hold the virtual typed subschemas that the
      parser makes for an absent `type` and for a list of types. */
  datatype Schema =
    | RefOnly(target: Schema)
    | Value(data: Data,
            enumeration: Option<seq<Json>>,
            typeAny: seq<Schema>,
            typeList: Listing,
            allOf: seq<Schema>,
            anyOf: seq<Schema>,
            oneOf: seq<Schema>,
            not: Option<Schema>)

  /** The type of a schema value together with the keywords of that type. */
  datatype Data =
    | MixedData
    | NullData
    | BooleanData
    | IntegerData(integer: Bounds)
    | NumberData(number: Bounds)
    | StringData(maxLength: Option<nat>, minLength: Option<nat>, pattern: Option<Regex>)
    | ArrayData(items: Items, additionalItems: Additional, uniqueItems: bool,
                maxItems: Option<nat>, minItems: Option<nat>)
    | ObjectData(additionalProperties: Additional, maxProperties: Option<nat>,
                 minProperties: Option<nat>, required: seq<string>,
                 properties: seq<Property>, patternProperties: seq<Pattern>)

  datatype Bounds = Bounds(multipleOf: Option<nat>, minimum: Option<real>, maximum: Option<real>,
                           exclusiveMinimum: bool, exclusiveMaximum: bool)

  /** The virtual subschemas of a `type` list; the list itself may be empty. */
  datatype Listing = Unlisted | Listed(types: seq<Schema>)

  datatype Items = NoItems | OneSchema(schema: Schema) | Tuple(schemas: seq<Schema>)

  datatype Additional = Unset | Allowed(allowed: bool) | Governed(schema: Schema)

  datatype Property = Property(name: string, schema: Schema)

  /** A compiled regular expression is known only by the strings it matches. */
  type Regex = string -> bool

  datatype Pattern = Pattern(matches: Regex, schema: Schema)

  // ---- Meaning ----------------------------------------------------------

  function Integral(d: real): bool { d.Floor as real == d }

  predicate HasType(data: Data, v: Json) {
    match data
    case MixedData => true
    case NullData => v.Null?
    case BooleanData => v.Bool?
    case IntegerData(_) => v.Int? || (v.Double? && Integral(v.d))
    case NumberData(_) => v.Int? || v.Double?
    case StringData(_, _, _) => v.String?
    case ArrayData(_, _, _, _, _) => v.Array?
    case ObjectData(_, _, _, _, _, _) => v.Object?
  }

  function AsReal(v: Json): real
    requires v.Int? || v.Double?
  {
    if v.Int? then v.i as real else v.d
  }

  predicate WithinBounds(b: Bounds, v: Json)
    requires v.Int? || v.Double?
  {
    var x := AsReal(v);
    && (b.minimum.Some? ==> x >= b.minimum.value && !(b.exclusiveMinimum && x == b.minimum.value))
    && (b.maximum.Some? ==> x <= b.maximum.value && !(b.exclusiveMaximum && x == b.maximum.value))
    && (b.multipleOf.Some? ==> IsMultiple(x, b.multipleOf.value))
  }

  /** `multipleOf` is a positive integer; zero never passes the schema parser. */
  predicate IsMultiple(x: real, m: nat) {
    Integral(x) && m != 0 && x.Floor % m == 0
  }

  predicate Unique(items: seq<Json>) {
    forall i, j :: 0 <= i < j < |items| ==> !Equals(items[i], items[j])
  }

  predicate AtLeast(bound: Option<nat>, n: nat) { bound.Some? ==> n >= bound.value }

  predicate AtMost(bound: Option<nat>, n: nat) { bound.Some? ==> n <= bound.value }

  /** The schema that governs item `i`, if any. */
  function ItemSchema(data: Data, i: nat): (r: Option<Schema>)
    requires data.ArrayData?
    ensures r.Some? ==> r.value < data
  {
    match data.items
    case NoItems => None
    case OneSchema(c) => Some(c)
    case Tuple(cs) =>
      if i < |cs| then Some(cs[i])
      else if data.additionalItems.Governed? then Some(data.additionalItems.schema)
      else None
  }

  /** Whether item `i` is one that `additionalItems: false` forbids. */
  predicate ExtraItem(data: Data, i: nat)
    requires data.ArrayData?
  {
    data.items.Tuple? && data.additionalItems == Allowed(false) && i >= |data.items.schemas|
  }

  function FindProperty(ps: seq<Property>, name: string): (r: Option<nat>)
    ensures r.Some? ==> r.value < |ps| && ps[r.value].name == name
    ensures r.None? ==> forall i :: 0 <= i < |ps| ==> ps[i].name != name
  {
    if ps == [] then None
    else if ps[0].name == name then Some(0)
    else
      var rest := FindProperty(ps[1..], name);
      if rest.None? then
        assert forall i :: 0 < i < |ps| ==> ps[i] == ps[1..][i - 1];
        None
      else Some(rest.value + 1)
  }

  /** Neither `properties` nor `patternProperties` speaks about the key. */
  predicate Unmatched(data: Data, key: string)
    requires data.ObjectData?
  {
    && FindProperty(data.properties, key).None?
    && forall i :: 0 <= i < |data.patternProperties| ==> !data.patternProperties[i].matches(key)
  }

  /** Whether the member with this key is one that `additionalProperties: false` forbids. */
  predicate ExtraMember(data: Data, key: string)
    requires data.ObjectData?
  {
    data.additionalProperties == Allowed(false) && Unmatched(data, key)
  }

  /** The schema `c` governs the member with this key. */
  ghost predicate Governs(data: Data, key: string, c: Schema)
    requires data.ObjectData?
    ensures Governs(data, key, c) ==> c < data
  {
    || (var f := FindProperty(data.properties, key);
        f.Some? && data.properties[f.value].schema == c)
    || (exists i :: 0 <= i < |data.patternProperties| &&
                    data.patternProperties[i].matches(key) && data.patternProperties[i].schema == c)
    || (data.additionalProperties == Governed(c) && Unmatched(data, key))
  }

  /** The keywords of the schema's own type that contain no subschema. */
  predicate LeafOk(data: Data, v: Json)
    requires HasType(data, v)
  {
    match data
    case IntegerData(b) => WithinBounds(b, v)
    case NumberData(b) => WithinBounds(b, v)
    case StringData(maxLen, minLen, pattern) =>
      && AtLeast(minLen, |v.s|)
      && AtMost(maxLen, |v.s|)
      && (pattern.Some? ==> pattern.value(v.s))
    case ArrayData(_, _, unique, maxItems, minItems) =>
      && AtLeast(minItems, |v.items|)
      && AtMost(maxItems, |v.items|)
      && (unique ==> Unique(v.items))
      && (forall i :: 0 <= i < |v.items| ==> !ExtraItem(data, i))
    case ObjectData(_, maxProps, minProps, required, _, _) =>
      && AtLeast(minProps, |v.members|)
      && AtMost(maxProps, |v.members|)
      && (forall i :: 0 <= i < |required| ==> HasKey(v.members, required[i]))
      && (forall i :: 0 <= i < |v.members| ==> !ExtraMember(data, v.members[i].key))
    case _ => true
  }

  predicate Enumerated(enumeration: Option<seq<Json>>, v: Json) {
    enumeration.Some? ==> exists i :: 0 <= i < |enumeration.value| && Equals(v, enumeration.value[i])
  }

  /** Type test for the virtual typed subschemas. */
  predicate TypeApplies(c: Schema, v: Json) {
    c.Value? && HasType(c.data, v)
  }

  function ListedTypes(l: Listing): seq<Schema> {
    if l.Listed? then l.types else []
  }

  /** The recursive meaning of a schema (JSON Schema Validation draft-04, section 5), with
      values read as the library reads them. */
  ghost predicate Accepts(s: Schema, v: Json)
    decreases s, 3
  {
    match s
    case RefOnly(t) => Accepts(t, v)
    case Value(data, enumeration, _, _, _, _, _, _) =>
      && HasType(data, v)
      && Enumerated(enumeration, v)
      && LeafOk(data, v)
      && ElementsAccepted(data, v)
      && DemandsMet(s, v)
      && ChoicesMet(s, v)
  }

  /** Every item or member is accepted by the subschemas that govern it. */
  ghost predicate ElementsAccepted(data: Data, v: Json)
    requires HasType(data, v)
    decreases data, 0
  {
    && (data.ArrayData? ==>
          forall i :: 0 <= i < |v.items| ==>
            var c := ItemSchema(data, i); c.Some? ==> Accepts(c.value, v.items[i]))
    && (data.ObjectData? ==>
          forall i, c :: 0 <= i < |v.members| && Governs(data, v.members[i].key, c) ==>
            Accepts(c, v.members[i].value))
  }

  /** `allOf`, `not`, and the virtual subschemas of the instance's own type. */
  ghost predicate DemandsMet(s: Schema, v: Json)
    requires s.Value?
    decreases s, 0
  {
    && (forall i :: 0 <= i < |s.allOf| ==> Accepts(s.allOf[i], v))
    && (s.not.Some? ==> !Accepts(s.not.value, v))
    && (forall i :: 0 <= i < |s.typeAny| && TypeApplies(s.typeAny[i], v) ==> Accepts(s.typeAny[i], v))
    && (forall i :: 0 <= i < |ListedTypes(s.typeList)| && TypeApplies(ListedTypes(s.typeList)[i], v) ==>
          Accepts(ListedTypes(s.typeList)[i], v))
  }

  /** `anyOf`, `oneOf`, and some type of the `type` list. */
  ghost predicate ChoicesMet(s: Schema, v: Json)
    requires s.Value?
    decreases s, 2
  {
    && (s.anyOf != [] ==> exists i :: 0 <= i < |s.anyOf| && Accepts(s.anyOf[i], v))
    && (s.oneOf != [] ==> ExactlyOneOf(s, v))
    && (s.typeList.Listed? ==> exists i :: 0 <= i < |s.typeList.types| && TypeApplies(s.typeList.types[i], v))
  }

  /** One entry of `oneOf` accepts, and no other entry does. */
  ghost predicate ExactlyOneOf(s: Schema, v: Json)
    requires s.Value?
    decreases s, 1
  {
    exists i ::
      && 0 <= i < |s.oneOf| && Accepts(s.oneOf[i], v)
      && forall j :: 0 <= j < |s.oneOf| && j != i ==> !Accepts(s.oneOf[j], v)
  }
}
