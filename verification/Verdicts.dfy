/** What the streaming validator computes, as a recursive function of schema and
    instance, and when that is the meaning of the schema.

    On scalars and objects the composition keywords are judged once, after the
    value is complete.  On an array they are also judged at its start, before any
    item has been seen, and the flags set then are kept
    (`src/schema/jso_schema_validation_stream.c`, lines 157-161). */
module Verdicts {
  import opened Options
  import opened JsonValues
  import opened Schemas

  datatype CompositionType = NoComposition | TypeAny | TypeList | All | Any | One | Not | Ref

  datatype Child = Child(composition: CompositionType, schema: Schema)

  function Tagged(composition: CompositionType, ss: seq<Schema>): (r: seq<Child>)
    ensures |r| == |ss|
    ensures forall i :: 0 <= i < |r| ==> r[i] == Child(composition, ss[i])
  {
    seq(|ss|, i requires 0 <= i < |ss| => Child(composition, ss[i]))
  }

  function OptionalSchema(o: Option<Schema>): seq<Schema> {
    if o.Some? then [o.value] else []
  }

  /** The composition children of a schema, in the order in which they are pushed. */
  function Children(s: Schema): (r: seq<Child>)
    ensures forall i :: 0 <= i < |r| ==> r[i].schema < s
    ensures forall i :: 0 <= i < |r| ==> r[i].composition != NoComposition
    ensures forall i :: 0 <= i < |r| ==> (r[i].composition == Ref <==> s.RefOnly?)
  {
    match s
    case RefOnly(t) => [Child(Ref, t)]
    case Value(_, _, typeAny, typeList, allOf, anyOf, oneOf, not) =>
      assert forall i :: 0 <= i < |ListedTypes(typeList)| ==> ListedTypes(typeList)[i] < s;
      assert forall i :: 0 <= i < |OptionalSchema(not)| ==> OptionalSchema(not)[i] < s;
      Tagged(TypeAny, typeAny) + Tagged(TypeList, ListedTypes(typeList)) + Tagged(All, allOf)
      + Tagged(Any, anyOf) + Tagged(One, oneOf) + Tagged(Not, OptionalSchema(not))
  }

  // ---- Well-formed compiled schemas ---------------------------------------

  /** A virtual typed subschema: one type, none of the common keywords. */
  predicate Plain(s: Schema) {
    && s.Value?
    && !s.data.MixedData?
    && s.enumeration.None?
    && s.typeList.Unlisted?
    && Children(s) == []
  }

  ghost predicate Compiled(s: Schema)
    decreases s, 1
  {
    && (s.Value? && s.typeList.Listed? ==> s.data.MixedData?)
    && (s.Value? ==> DataCompiled(s.data))
    && forall i :: 0 <= i < |Children(s)| ==>
         var c := Children(s)[i];
         && Compiled(c.schema)
         && (c.composition in {TypeAny, TypeList} ==> Plain(c.schema))
  }

  ghost predicate DataCompiled(data: Data)
    decreases data, 0
  {
    && (data.ArrayData? ==> forall i :: 0 <= i && ItemSchema(data, i).Some? ==> Compiled(ItemSchema(data, i).value))
    && (data.ObjectData? ==> forall k, c :: Governs(data, k, c) ==> Compiled(c))
  }

  // ---- Reports of composition children ------------------------------------

  /** What the children that have reported so far amount to. */
  datatype Tally = Tally(fails: bool, any: bool, typed: bool, ones: nat)

  const EMPTY := Tally(false, false, false, 0)

  /** One more report: the child accepts or not, and a virtual typed child is or is
      not of the instance's type. */
  function Add(t: Tally, composition: CompositionType, accepts: bool, applies: bool): Tally {
    match composition
    case TypeAny => if !accepts && applies then t.(fails := true) else t
    case TypeList =>
      if accepts then t.(typed := true) else if applies then t.(fails := true) else t
    case All => if accepts then t else t.(fails := true)
    case Any => if accepts then t.(any := true) else t
    case One => if accepts then t.(ones := t.ones + 1) else t
    case Not => if accepts then t.(fails := true) else t
    case _ => t
  }

  /** No report so far rules the schema out. */
  predicate Sound(t: Tally) { !t.fails && t.ones <= 1 }

  /** The composition keywords of `s` are satisfied by all its reports. */
  predicate Satisfied(s: Schema, t: Tally)
    requires s.Value?
  {
    && Sound(t)
    && (s.anyOf != [] ==> t.any)
    && (s.oneOf != [] ==> t.ones == 1)
    && (s.typeList.Listed? ==> t.typed)
  }

  // ---- Judgement at the start of an array ---------------------------------

  /** Result of a position after `array_start`: it depends on the schema alone. */
  predicate Early(s: Schema)
    decreases s, |Children(s)| + 1
  {
    match s
    case RefOnly(t) => Early(t)
    case Value(data, _, _, _, _, _, _, _) =>
      (data.MixedData? || data.ArrayData?) && Sound(EarlyTally(s, 0))
  }

  /** Reports at the start of an array of the children from number `m` on.  A typed
      child that fails then is of another type. */
  function EarlyTally(s: Schema, m: nat): Tally
    requires m <= |Children(s)|
    decreases s, |Children(s)| - m
  {
    if m == |Children(s)| then EMPTY
    else Add(EarlyTally(s, m + 1), Children(s)[m].composition, Early(Children(s)[m].schema), false)
  }

  // ---- Judgement of a complete value --------------------------------------

  function Length(v: Json): nat {
    match v
    case Array(items) => |items|
    case Object(members) => |members|
    case _ => 0
  }

  /** What the first `n` items or members show about the schema's own keywords. */
  ghost predicate PrefixOk(s: Schema, v: Json, n: nat)
    requires s.Value? && HasType(s.data, v) && n <= Length(v)
    decreases s, 0
  {
    match s.data
    case ArrayData(_, _, _, maxItems, _) =>
      && AtMost(maxItems, n)
      && forall i :: 0 <= i < n ==>
           && !ExtraItem(s.data, i)
           && (ItemSchema(s.data, i).Some? ==> Verdict(ItemSchema(s.data, i).value, v.items[i]))
    case ObjectData(_, maxProperties, _, _, _, _) =>
      && AtMost(maxProperties, n)
      && (forall i :: 0 <= i < n ==> !ExtraMember(s.data, v.members[i].key))
      && forall i, c :: 0 <= i < n && Governs(s.data, v.members[i].key, c) ==> Verdict(c, v.members[i].value)
    case _ => true
  }

  /** The schema's own keywords, leaving the composition keywords aside. */
  ghost predicate OwnOk(s: Schema, v: Json)
    requires s.Value?
    decreases s, 1
  {
    && HasType(s.data, v)
    && Enumerated(s.enumeration, v)
    && LeafOk(s.data, v)
    && PrefixOk(s, v, Length(v))
  }

  /** Reports on the complete instance of the children from number `m` on, on top of
      those that an array has given at its start. */
  ghost function TallyFrom(s: Schema, v: Json, m: nat): Tally
    requires m <= |Children(s)|
    decreases s, 2 + |Children(s)| - m
  {
    if m == |Children(s)| then (if v.Array? then EarlyTally(s, 0) else EMPTY)
    else
      var c := Children(s)[m];
      Add(TallyFrom(s, v, m + 1), c.composition, Verdict(c.schema, v), TypeApplies(c.schema, v))
  }

  /** The result the validator ends with for a position holding `s` on instance `v`. */
  ghost predicate Verdict(s: Schema, v: Json)
    decreases s, 3 + |Children(s)|
  {
    match s
    case RefOnly(t) => if v.Array? then Early(t) else Verdict(t, v)
    case Value(_, _, _, _, _, _, _, _) => OwnOk(s, v) && Satisfied(s, TallyFrom(s, v, 0))
  }

  lemma UnsoundBelow(s: Schema, v: Json, m: nat)
    requires m < |Children(s)| && !Sound(TallyFrom(s, v, m + 1))
    ensures !Sound(TallyFrom(s, v, m))
  {
    hide Children, Verdict, TypeApplies;
  }

  lemma {:induction false} UnsoundFromStart(s: Schema, v: Json, m: nat)
    requires m <= |Children(s)| && !Sound(TallyFrom(s, v, m))
    ensures !Sound(TallyFrom(s, v, 0))
    decreases m
  {
    hide Children, Verdict, TallyFrom;
    if m > 0 {
      UnsoundBelow(s, v, m - 1);
      UnsoundFromStart(s, v, m - 1);
    }
  }

  lemma {:induction false} EarlyUnsoundFromStart(s: Schema, m: nat)
    requires m <= |Children(s)| && !Sound(EarlyTally(s, m))
    ensures !Sound(EarlyTally(s, 0))
    decreases m
  {
    if m > 0 { EarlyUnsoundFromStart(s, m - 1); }
  }

  /** What the start of an array rules out stays ruled out. */
  lemma NotEarlyRejects(s: Schema, v: Json)
    requires v.Array? && !Early(s)
    ensures !Verdict(s, v)
  {
    match s
    case RefOnly(_) =>
    case Value(data, _, _, _, _, _, _, _) =>
      if HasType(data, v) {
        UnsoundFromStart(s, v, |Children(s)|);
      }
  }
}
