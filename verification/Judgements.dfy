/** What the validator computes for a schema, in terms of what it computes for the parts.

    `Verdicts.dfy` follows the flags and the order of reports; here they are gone.  Scalars
    and objects are judged by their complete parts, and on arrays `$ref`, `not`, `anyOf` and
    `oneOf` go by what does not fail at the start
    (`src/schema/jso_schema_validation_stream.c`, lines 157-161). */
module Judgements {
  import opened Options
  import opened JsonValues
  import opened Schemas
  import opened Verdicts

  // ---- Children by keyword ------------------------------------------------

  function Field(s: Schema, t: CompositionType): seq<Schema>
    requires s.Value?
  {
    match t
    case TypeAny => s.typeAny
    case TypeList => ListedTypes(s.typeList)
    case All => s.allOf
    case Any => s.anyOf
    case One => s.oneOf
    case Not => OptionalSchema(s.not)
    case _ => []
  }

  function Offset(s: Schema, t: CompositionType): nat
    requires s.Value?
  {
    var a := |s.typeAny|;
    var b := a + |ListedTypes(s.typeList)|;
    var c := b + |s.allOf|;
    var d := c + |s.anyOf|;
    match t
    case TypeAny => 0
    case TypeList => a
    case All => b
    case Any => c
    case One => d
    case _ => d + |s.oneOf|
  }

  /** Child number `k` is entry `i` of the keyword `t`. */
  ghost predicate Entry(s: Schema, t: CompositionType, k: int, i: int)
    requires s.Value?
  {
    && 0 <= k < |Children(s)| && 0 <= i < |Field(s, t)| && k == Offset(s, t) + i
    && Children(s)[k] == Child(t, Field(s, t)[i])
  }

  lemma EntryOfField(s: Schema, t: CompositionType, i: nat)
    requires s.Value? && i < |Field(s, t)|
    ensures Entry(s, t, Offset(s, t) + i, i)
  {
    var k := Offset(s, t) + i;
    assert k < |Children(s)| && PartOf(s, k) == t;
    hide Children;
    ChildInPart(s, k);
  }

  lemma EntryOfChild(s: Schema, k: nat)
    requires s.Value? && k < |Children(s)|
    ensures Entry(s, Children(s)[k].composition, k, k - Offset(s, Children(s)[k].composition))
  {
    hide Children;
    ChildInPart(s, k);
  }

  lemma ChildInPart(s: Schema, k: nat)
    requires s.Value? && k < |Children(s)|
    ensures Entry(s, PartOf(s, k), k, k - Offset(s, PartOf(s, k)))
  {
    var t := PartOf(s, k);
    var i := k - Offset(s, t);
    assert 0 <= i < |Field(s, t)|;
    PartsAt(Tagged(TypeAny, s.typeAny), Tagged(TypeList, ListedTypes(s.typeList)), Tagged(All, s.allOf),
      Tagged(Any, s.anyOf), Tagged(One, s.oneOf), Tagged(Not, OptionalSchema(s.not)), k);
  }

  lemma PartsAt(c0: seq<Child>, c1: seq<Child>, c2: seq<Child>, c3: seq<Child>, c4: seq<Child>, c5: seq<Child>, k: nat)
    requires k < |c0| + |c1| + |c2| + |c3| + |c4| + |c5|
    ensures (c0 + c1 + c2 + c3 + c4 + c5)[k]
         == if k < |c0| then c0[k]
            else if k < |c0| + |c1| then c1[k - |c0|]
            else if k < |c0| + |c1| + |c2| then c2[k - |c0| - |c1|]
            else if k < |c0| + |c1| + |c2| + |c3| then c3[k - |c0| - |c1| - |c2|]
            else if k < |c0| + |c1| + |c2| + |c3| + |c4| then c4[k - |c0| - |c1| - |c2| - |c3|]
            else c5[k - |c0| - |c1| - |c2| - |c3| - |c4|]
  {
  }

  /** The keyword that child number `k` comes from. */
  function PartOf(s: Schema, k: nat): CompositionType
    requires s.Value?
  {
    if k < Offset(s, TypeList) then TypeAny
    else if k < Offset(s, All) then TypeList
    else if k < Offset(s, Any) then All
    else if k < Offset(s, One) then Any
    else if k < Offset(s, Not) then One
    else Not
  }

  // ---- Tallies as statements about all children ---------------------------

  /** The child rules its parent out by itself. */
  ghost predicate Failing(c: Child, v: Json) {
    || (c.composition == All && !Verdict(c.schema, v))
    || (c.composition == Not && Verdict(c.schema, v))
    || (c.composition in {TypeAny, TypeList} && TypeApplies(c.schema, v) && !Verdict(c.schema, v))
  }

  ghost predicate Accepting(c: Child, t: CompositionType, v: Json) {
    c.composition == t && Verdict(c.schema, v)
  }

  ghost predicate SomeFailing(s: Schema, v: Json, m: nat) {
    exists k :: m <= k < |Children(s)| && Failing(Children(s)[k], v)
  }

  ghost predicate SomeAccepting(s: Schema, v: Json, t: CompositionType, m: nat) {
    exists k :: m <= k < |Children(s)| && Accepting(Children(s)[k], t, v)
  }

  /** Child number `k` accepts, and no other `oneOf` child from number `m` on does. */
  ghost predicate OnlyAccepting(s: Schema, v: Json, m: nat, k: nat) {
    && m <= k < |Children(s)| && Accepting(Children(s)[k], One, v)
    && forall j :: m <= j < |Children(s)| && j != k ==> !Accepting(Children(s)[j], One, v)
  }

  ghost predicate OneAccepting(s: Schema, v: Json, m: nat) {
    exists k: nat :: OnlyAccepting(s, v, m, k)
  }

  ghost function Base(s: Schema, v: Json): Tally {
    if v.Array? then EarlyTally(s, 0) else EMPTY
  }

  lemma {:induction false} FailsMeans(s: Schema, v: Json, m: nat)
    requires m <= |Children(s)|
    ensures TallyFrom(s, v, m).fails <==> Base(s, v).fails || SomeFailing(s, v, m)
    decreases |Children(s)| - m
  {
    if m < |Children(s)| {
      hide *;
      FailsMeans(s, v, m + 1);
      FailsUnfold(s, v, m);
      PeelFailing(s, v, m);
    } else {
      hide Children, Verdict;
    }
  }

  lemma FailsUnfold(s: Schema, v: Json, m: nat)
    requires m < |Children(s)|
    ensures TallyFrom(s, v, m).fails <==> TallyFrom(s, v, m + 1).fails || Failing(Children(s)[m], v)
  {
    TallyUnfolds(s, v, m);
    hide Children, Verdict, TallyFrom, TypeApplies;
  }

  lemma {:induction false} SomeMeans(s: Schema, v: Json, m: nat)
    requires m <= |Children(s)|
    ensures TallyFrom(s, v, m).any <==> Base(s, v).any || SomeAccepting(s, v, Any, m)
    ensures TallyFrom(s, v, m).typed <==> Base(s, v).typed || SomeAccepting(s, v, TypeList, m)
    decreases |Children(s)| - m
  {
    if m < |Children(s)| {
      hide *;
      SomeMeans(s, v, m + 1);
      SomeUnfold(s, v, m);
      PeelAccepting(s, v, Any, m);
      PeelAccepting(s, v, TypeList, m);
    } else {
      hide Children, Verdict;
    }
  }

  lemma SomeUnfold(s: Schema, v: Json, m: nat)
    requires m < |Children(s)|
    ensures TallyFrom(s, v, m).any <==> TallyFrom(s, v, m + 1).any || Accepting(Children(s)[m], Any, v)
    ensures TallyFrom(s, v, m).typed <==> TallyFrom(s, v, m + 1).typed || Accepting(Children(s)[m], TypeList, v)
  {
    TallyUnfolds(s, v, m);
    hide Children, Verdict, TallyFrom, TypeApplies;
  }

  lemma {:induction false} OnesMeans(s: Schema, v: Json, m: nat)
    requires m <= |Children(s)|
    ensures TallyFrom(s, v, m).ones >= Base(s, v).ones
    ensures TallyFrom(s, v, m).ones == Base(s, v).ones <==> !SomeAccepting(s, v, One, m)
    ensures TallyFrom(s, v, m).ones == Base(s, v).ones + 1 <==> OneAccepting(s, v, m)
    decreases |Children(s)| - m
  {
    if m < |Children(s)| {
      hide *;
      OnesMeans(s, v, m + 1);
      OnesUnfold(s, v, m);
      PeelAccepting(s, v, One, m);
      PeelOne(s, v, m);
    } else {
      hide Children, Verdict;
    }
  }

  lemma OnesUnfold(s: Schema, v: Json, m: nat)
    requires m < |Children(s)|
    ensures TallyFrom(s, v, m).ones
         == TallyFrom(s, v, m + 1).ones + (if Accepting(Children(s)[m], One, v) then 1 else 0)
  {
    TallyUnfolds(s, v, m);
    hide Children, Verdict, TallyFrom, TypeApplies;
  }

  lemma TallyUnfolds(s: Schema, v: Json, m: nat)
    requires m < |Children(s)|
    ensures var c := Children(s)[m];
            TallyFrom(s, v, m) == Add(TallyFrom(s, v, m + 1), c.composition, Verdict(c.schema, v),
                                         TypeApplies(c.schema, v))
  {
  }

  lemma PeelFailing(s: Schema, v: Json, m: nat)
    requires m < |Children(s)|
    ensures SomeFailing(s, v, m) <==> Failing(Children(s)[m], v) || SomeFailing(s, v, m + 1)
  {
    hide Children, Failing;
  }

  lemma PeelAccepting(s: Schema, v: Json, t: CompositionType, m: nat)
    requires m < |Children(s)|
    ensures SomeAccepting(s, v, t, m) <==> Accepting(Children(s)[m], t, v) || SomeAccepting(s, v, t, m + 1)
  {
    hide Children, Accepting;
  }

  lemma PeelOne(s: Schema, v: Json, m: nat)
    requires m < |Children(s)|
    ensures OneAccepting(s, v, m) <==>
              if Accepting(Children(s)[m], One, v) then !SomeAccepting(s, v, One, m + 1) else OneAccepting(s, v, m + 1)
  {
    hide Children, Accepting;
    var c := Children(s)[m];
    if Accepting(c, One, v) && !SomeAccepting(s, v, One, m + 1) {
      assert OnlyAccepting(s, v, m, m);
    }
    if OneAccepting(s, v, m + 1) && !Accepting(c, One, v) {
      var k: nat :| OnlyAccepting(s, v, m + 1, k);
      assert OnlyAccepting(s, v, m, k);
    }
    if OneAccepting(s, v, m) && !Accepting(c, One, v) {
      var k: nat :| OnlyAccepting(s, v, m, k);
      assert OnlyAccepting(s, v, m + 1, k);
    }
  }

  // ---- The start of an array ----------------------------------------------

  lemma {:induction false} EarlyFailsMeans(s: Schema, m: nat)
    requires m <= |Children(s)| && EarlyTally(s, m).fails
    ensures exists k :: m <= k < |Children(s)| &&
              (var c := Children(s)[k];
               (c.composition == All && !Early(c.schema)) || (c.composition == Not && Early(c.schema)))
    decreases |Children(s)| - m
  {
    hide Children, Early;
    if m < |Children(s)| && EarlyTally(s, m + 1).fails {
      EarlyFailsMeans(s, m + 1);
    }
  }

  lemma {:induction false} EarlyTypedMeans(s: Schema, m: nat)
    requires m <= |Children(s)| && EarlyTally(s, m).typed
    ensures exists k :: m <= k < |Children(s)| && Children(s)[k].composition == TypeList && Early(Children(s)[k].schema)
    decreases |Children(s)| - m
  {
    hide Children, Early;
    if m < |Children(s)| && EarlyTally(s, m + 1).typed {
      EarlyTypedMeans(s, m + 1);
    }
  }

  /** Membership of a composition field, as membership of the children. */
  lemma ChildIn(s: Schema, t: CompositionType, c: Schema)
    requires s.Value? && c in Field(s, t)
    ensures Child(t, c) in Children(s)
  {
    hide Children, Field, Offset;
    var i :| 0 <= i < |Field(s, t)| && Field(s, t)[i] == c;
    EntryOfField(s, t, i);
  }

  lemma ChildHasField(s: Schema, c: Child)
    requires s.Value? && c in Children(s)
    ensures c.composition != Ref && c.composition != NoComposition && c.schema in Field(s, c.composition)
  {
    hide Field, Offset;
    var k :| 0 <= k < |Children(s)| && Children(s)[k] == c;
    EntryOfChild(s, k);
  }

  lemma PlainNotEarlyTyped(c: Schema, v: Json)
    requires Plain(c) && Early(c) && v.Array?
    ensures TypeApplies(c, v)
  {
  }

  lemma EarlyTallyTyped(s: Schema, v: Json)
    requires v.Array? && EarlyTally(s, 0).typed && Compiled(s)
    ensures exists c :: Child(TypeList, c) in Children(s) && TypeApplies(c, v)
  {
    hide Children, Early, Plain, TypeApplies;
    EarlyTypedMeans(s, 0);
    var k :| 0 <= k < |Children(s)| && Children(s)[k].composition == TypeList && Early(Children(s)[k].schema);
    var c := Children(s)[k].schema;
    PlainNotEarlyTyped(c, v);
    assert Children(s)[k] == Child(TypeList, c);
  }

  /** The alternatives that do not fail at the start of the array, from number `m` on. */
  function EarlyCount(cs: seq<Schema>, m: nat): nat
    requires m <= |cs|
    decreases |cs| - m
  {
    if m == |cs| then 0 else EarlyCount(cs, m + 1) + (if Early(cs[m]) then 1 else 0)
  }

  /** Number of the first entry of the keyword `t` among the children from number `m` on. */
  function FirstEntry(s: Schema, t: CompositionType, m: nat): (i: nat)
    requires s.Value?
    ensures i <= |Field(s, t)|
  {
    var o, n := Offset(s, t), |Field(s, t)|;
    if m <= o then 0 else if m <= o + n then m - o else n
  }

  /** A child is the next entry of its own keyword and no entry of another. */
  lemma EntryStep(s: Schema, t: CompositionType, m: nat)
    requires s.Value? && t in {Any, One} && m < |Children(s)|
    ensures var i, c := FirstEntry(s, t, m), Children(s)[m];
            if c.composition == t then
              i < |Field(s, t)| && FirstEntry(s, t, m + 1) == i + 1 && c.schema == Field(s, t)[i]
            else FirstEntry(s, t, m + 1) == i
  {
    hide Children, Field, Offset;
    EntryOfChild(s, m);
    var o := Offset(s, t);
    if o <= m < o + |Field(s, t)| {
      EntryOfField(s, t, m - o);
    }
  }

  lemma EntriesEnd(s: Schema, t: CompositionType)
    requires s.Value? && t in {Any, One}
    ensures FirstEntry(s, t, |Children(s)|) == |Field(s, t)| && FirstEntry(s, t, 0) == 0
  {
  }

  /** `anyOf` and `oneOf` at the start of an array. */
  lemma {:induction false} EarlyChoices(s: Schema, m: nat)
    requires s.Value? && m <= |Children(s)|
    ensures EarlyTally(s, m).any <==> EarlyCount(s.anyOf, FirstEntry(s, Any, m)) > 0
    ensures EarlyTally(s, m).ones == EarlyCount(s.oneOf, FirstEntry(s, One, m))
    decreases |Children(s)| - m
  {
    assert Field(s, Any) == s.anyOf && Field(s, One) == s.oneOf;
    hide Children, Early, Field, Offset, FirstEntry;
    if m < |Children(s)| {
      EarlyChoices(s, m + 1);
      EntryStep(s, Any, m);
      EntryStep(s, One, m);
    } else {
      EntriesEnd(s, Any);
      EntriesEnd(s, One);
    }
  }

  lemma {:induction false} EarlyFailsAt(s: Schema, k: nat, m: nat)
    requires m <= k < |Children(s)|
    requires var c := Children(s)[k];
             (c.composition == All && !Early(c.schema)) || (c.composition == Not && Early(c.schema))
    ensures EarlyTally(s, m).fails
    decreases k - m
  {
    hide Children, Early;
    if m < k { EarlyFailsAt(s, k, m + 1); }
  }

  lemma NotField(s: Schema, c: Schema)
    requires s.Value?
    ensures c in Field(s, Not) <==> s.not == Some(c)
  {
  }

  lemma EarlyFails(s: Schema, v: Json)
    requires v.Array? && s.Value?
    ensures EarlyTally(s, 0).fails ==> SomeFailing(s, v, 0) || (s.not.Some? && Early(s.not.value))
    ensures s.not.Some? && Early(s.not.value) ==> EarlyTally(s, 0).fails
  {
    hide Children, Early, Field, Offset;
    if EarlyTally(s, 0).fails {
      EarlyFailsMeans(s, 0);
      var k :| 0 <= k < |Children(s)| &&
            (var c := Children(s)[k];
             (c.composition == All && !Early(c.schema)) || (c.composition == Not && Early(c.schema)));
      var c := Children(s)[k];
      if c.composition == All {
        NotEarlyRejects(c.schema, v);
        assert Failing(c, v) by { hide Verdict, TypeApplies; }
      } else {
        ChildHasField(s, c);
        NotField(s, c.schema);
      }
    }
    if s.not.Some? && Early(s.not.value) {
      NotField(s, s.not.value);
      ChildIn(s, Not, s.not.value);
      var k :| 0 <= k < |Children(s)| && Children(s)[k] == Child(Not, s.not.value);
      EarlyFailsAt(s, k, 0);
    }
  }

  /** What accepts an array does not fail at its start. */
  lemma VerdictIsEarly(c: Schema, v: Json)
    requires v.Array? && Verdict(c, v)
    ensures Early(c)
  {
    if !Early(c) { NotEarlyRejects(c, v); }
  }

  lemma {:induction false} CountsSomeEarly(cs: seq<Schema>, m: nat)
    requires m <= |cs|
    ensures EarlyCount(cs, m) > 0 <==> exists i :: m <= i < |cs| && Early(cs[i])
    decreases |cs| - m
  {
    hide Early;
    if m < |cs| { CountsSomeEarly(cs, m + 1); }
  }

  // ---- Keyword by keyword -------------------------------------------------

  /** Every item or member is accepted by the subschemas that govern it. */
  ghost predicate ElementsJudged(data: Data, v: Json)
    requires HasType(data, v)
  {
    && (data.ArrayData? ==>
          forall i :: 0 <= i < |v.items| ==>
            var c := ItemSchema(data, i); c.Some? ==> Verdict(c.value, v.items[i]))
    && (data.ObjectData? ==>
          forall i, c :: 0 <= i < |v.members| && Governs(data, v.members[i].key, c) ==> Verdict(c, v.members[i].value))
  }

  /** `allOf`, and the virtual subschemas of the instance's own type. */
  ghost predicate DemandsJudged(s: Schema, v: Json)
    requires s.Value?
  {
    && (forall i :: 0 <= i < |s.allOf| ==> Verdict(s.allOf[i], v))
    && (forall i :: 0 <= i < |s.typeAny| && TypeApplies(s.typeAny[i], v) ==> Verdict(s.typeAny[i], v))
    && (forall i :: 0 <= i < |ListedTypes(s.typeList)| && TypeApplies(ListedTypes(s.typeList)[i], v) ==>
          Verdict(ListedTypes(s.typeList)[i], v))
  }

  /** Some type of the `type` list applies. */
  ghost predicate SomeListed(s: Schema, v: Json)
    requires s.Value?
  {
    s.typeList.Listed? ==> exists i :: 0 <= i < |s.typeList.types| && TypeApplies(s.typeList.types[i], v)
  }

  /** All keywords but `$ref`, `not`, `anyOf` and `oneOf`. */
  ghost predicate OthersJudged(s: Schema, v: Json) {
    s.Value? ==>
      && HasType(s.data, v) && Enumerated(s.enumeration, v) && LeafOk(s.data, v) && ElementsJudged(s.data, v)
      && DemandsJudged(s, v) && SomeListed(s, v)
  }

  ghost predicate OnlyJudged(cs: seq<Schema>, v: Json, i: int) {
    0 <= i < |cs| && Verdict(cs[i], v) && forall j :: 0 <= j < |cs| && j != i ==> !Verdict(cs[j], v)
  }

  /** The four keywords.  An alternative of `oneOf` that accepts an array has counted at its
      start too, so that one must not fail there and none may accept in the end. */
  ghost predicate FourJudged(s: Schema, v: Json) {
    match s
    case RefOnly(t) => if v.Array? then Early(t) else Verdict(t, v)
    case Value(_, _, _, _, _, anyOf, oneOf, not) =>
      if v.Array? then
        && (not.Some? ==> !Early(not.value))
        && (anyOf != [] ==> EarlyCount(anyOf, 0) > 0)
        && (oneOf != [] ==> EarlyCount(oneOf, 0) == 1 && forall i :: 0 <= i < |oneOf| ==> !Verdict(oneOf[i], v))
      else
        && (not.Some? ==> !Verdict(not.value, v))
        && (anyOf != [] ==> exists i :: 0 <= i < |anyOf| && Verdict(anyOf[i], v))
        && (oneOf != [] ==> exists i :: OnlyJudged(oneOf, v, i))
  }

  /** A child other than `not` that fails. */
  ghost predicate Wrong(t: CompositionType, c: Schema, v: Json) {
    match t
    case All => !Verdict(c, v)
    case TypeAny => TypeApplies(c, v) && !Verdict(c, v)
    case TypeList => TypeApplies(c, v) && !Verdict(c, v)
    case _ => false
  }

  lemma DemandsByField(s: Schema, v: Json)
    requires s.Value?
    ensures DemandsJudged(s, v) <==>
              forall t, c :: t != Ref && t != NoComposition && c in Field(s, t) ==> !Wrong(t, c, v)
  {
    hide Verdict, TypeApplies;
    if DemandsJudged(s, v) {
      forall t, c | c in Field(s, t)
        ensures !Wrong(t, c, v)
      {
      }
    }
    if forall t, c :: t != Ref && t != NoComposition && c in Field(s, t) ==> !Wrong(t, c, v) {
      assert forall i :: 0 <= i < |s.allOf| ==> s.allOf[i] in Field(s, All);
      assert forall i :: 0 <= i < |s.typeAny| ==> s.typeAny[i] in Field(s, TypeAny);
      assert forall i :: 0 <= i < |ListedTypes(s.typeList)| ==> ListedTypes(s.typeList)[i] in Field(s, TypeList);
    }
  }

  lemma FailingChild(c: Child, v: Json)
    ensures Failing(c, v) <==> Wrong(c.composition, c.schema, v) || (c.composition == Not && Verdict(c.schema, v))
  {
    hide Verdict, TypeApplies;
  }

  lemma FailingByField(s: Schema, v: Json)
    requires s.Value?
    ensures SomeFailing(s, v, 0) <==> !DemandsJudged(s, v) || (s.not.Some? && Verdict(s.not.value, v))
  {
    DemandsByField(s, v);
    hide Children, Verdict, TypeApplies, Failing, Field, Wrong, DemandsJudged;
    if SomeFailing(s, v, 0) {
      var k :| 0 <= k < |Children(s)| && Failing(Children(s)[k], v);
      var c := Children(s)[k];
      ChildHasField(s, c);
      FailingChild(c, v);
      if c.composition == Not { NotField(s, c.schema); }
    }
    if !DemandsJudged(s, v) {
      var t, c :| t != Ref && t != NoComposition && c in Field(s, t) && Wrong(t, c, v);
      ChildIn(s, t, c);
      FailingChild(Child(t, c), v);
    }
    if s.not.Some? && Verdict(s.not.value, v) {
      NotField(s, s.not.value);
      ChildIn(s, Not, s.not.value);
      FailingChild(Child(Not, s.not.value), v);
    }
  }

  lemma FailsByParts(s: Schema, v: Json)
    requires s.Value?
    ensures TallyFrom(s, v, 0).fails <==>
              || !DemandsJudged(s, v)
              || (s.not.Some? && if v.Array? then Early(s.not.value) else Verdict(s.not.value, v))
  {
    FailsMeans(s, v, 0);
    FailingByField(s, v);
    if v.Array? {
      EarlyFails(s, v);
      if s.not.Some? && Verdict(s.not.value, v) { VerdictIsEarly(s.not.value, v); }
    }
    hide Children, Verdict, Early, TallyFrom, SomeFailing, EarlyTally, DemandsJudged;
  }

  lemma AcceptingByField(s: Schema, v: Json, t: CompositionType)
    requires s.Value? && t != Ref && t != NoComposition
    ensures SomeAccepting(s, v, t, 0) <==> exists i :: 0 <= i < |Field(s, t)| && Verdict(Field(s, t)[i], v)
  {
    hide Children, Field, Verdict;
    if SomeAccepting(s, v, t, 0) {
      var k :| 0 <= k < |Children(s)| && Accepting(Children(s)[k], t, v);
      ChildHasField(s, Children(s)[k]);
    }
    if exists i :: 0 <= i < |Field(s, t)| && Verdict(Field(s, t)[i], v) {
      var i :| 0 <= i < |Field(s, t)| && Verdict(Field(s, t)[i], v);
      ChildIn(s, t, Field(s, t)[i]);
      assert Accepting(Child(t, Field(s, t)[i]), t, v);
    }
  }

  lemma AnyByParts(s: Schema, v: Json)
    requires s.Value?
    ensures TallyFrom(s, v, 0).any <==>
              if v.Array? then EarlyCount(s.anyOf, 0) > 0 else exists i :: 0 <= i < |s.anyOf| && Verdict(s.anyOf[i], v)
  {
    SomeMeans(s, v, 0);
    AcceptingByField(s, v, Any);
    assert Field(s, Any) == s.anyOf;
    if v.Array? {
      EarlyChoices(s, 0);
      EntriesEnd(s, Any);
      CountsSomeEarly(s.anyOf, 0);
      if i :| 0 <= i < |s.anyOf| && Verdict(s.anyOf[i], v) { VerdictIsEarly(s.anyOf[i], v); }
    }
    hide Children, Verdict, Early, TallyFrom, SomeAccepting, EarlyTally, EarlyCount, FirstEntry;
  }

  lemma OnlyAcceptingIs(s: Schema, v: Json, k: nat)
    requires s.Value? && OnlyAccepting(s, v, 0, k)
    ensures OnlyJudged(s.oneOf, v, k - Offset(s, One))
  {
    var o, fs := Offset(s, One), Field(s, One);
    assert fs == s.oneOf;
    hide Children, Field, Offset, Verdict;
    EntryOfChild(s, k);
    forall j | 0 <= j < |fs| && j != k - o
      ensures !Verdict(fs[j], v)
    {
      EntryOfField(s, One, j);
    }
  }

  lemma OnlyJudgedIs(s: Schema, v: Json, i: nat)
    requires s.Value? && OnlyJudged(s.oneOf, v, i)
    ensures OnlyAccepting(s, v, 0, Offset(s, One) + i)
  {
    var o, cs := Offset(s, One), Children(s);
    assert Field(s, One) == s.oneOf;
    hide Children, Field, Offset, Verdict;
    EntryOfField(s, One, i);
    forall j | 0 <= j < |cs| && j != o + i
      ensures !Accepting(cs[j], One, v)
    {
      if cs[j].composition == One { EntryOfChild(s, j); }
    }
  }

  lemma OneAcceptingIs(s: Schema, v: Json)
    requires s.Value?
    ensures OneAccepting(s, v, 0) <==> exists i :: OnlyJudged(s.oneOf, v, i)
  {
    hide Children, Offset, Verdict, OnlyAccepting, OnlyJudged;
    if OneAccepting(s, v, 0) {
      var k :| OnlyAccepting(s, v, 0, k);
      OnlyAcceptingIs(s, v, k);
    }
    if i :| OnlyJudged(s.oneOf, v, i) {
      assert 0 <= i by { OnlyInside(s.oneOf, v, i); }
      OnlyJudgedIs(s, v, i);
    }
  }

  lemma OnlyInside(cs: seq<Schema>, v: Json, i: int)
    requires OnlyJudged(cs, v, i)
    ensures 0 <= i < |cs|
  {
  }

  lemma OnesByParts(s: Schema, v: Json)
    requires s.Value?
    ensures s.oneOf == [] ==> TallyFrom(s, v, 0).ones == 0
    ensures TallyFrom(s, v, 0).ones == 1 <==>
              if v.Array? then
                EarlyCount(s.oneOf, 0) == 1 && forall i :: 0 <= i < |s.oneOf| ==> !Verdict(s.oneOf[i], v)
              else exists i :: OnlyJudged(s.oneOf, v, i)
  {
    OnesMeans(s, v, 0);
    OneAcceptingIs(s, v);
    AcceptingByField(s, v, One);
    assert Field(s, One) == s.oneOf;
    if v.Array? {
      EarlyChoices(s, 0);
      EntriesEnd(s, One);
      CountsSomeEarly(s.oneOf, 0);
      if i :| 0 <= i < |s.oneOf| && Verdict(s.oneOf[i], v) { VerdictIsEarly(s.oneOf[i], v); }
    }
    if s.oneOf == [] { assert EarlyCount(s.oneOf, 0) == 0; }
    hide Children, Verdict, Early, TallyFrom, SomeAccepting, EarlyTally, EarlyCount, FirstEntry,
      OneAccepting, OnlyJudged;
  }

  lemma TypedChildApplies(s: Schema, c: Schema, v: Json)
    requires Compiled(s) && Child(TypeList, c) in Children(s) && Verdict(c, v)
    ensures TypeApplies(c, v)
  {
    assert Plain(c);
  }

  lemma EarlyTypedListed(s: Schema, v: Json)
    requires v.Array? && s.Value? && s.typeList.Listed? && Compiled(s) && EarlyTally(s, 0).typed
    ensures SomeListed(s, v)
  {
    EarlyTallyTyped(s, v);
    hide Compiled, Children, EarlyTally, TypeApplies, Field;
    var c :| Child(TypeList, c) in Children(s) && TypeApplies(c, v);
    ChildHasField(s, Child(TypeList, c));
    ListField(s);
  }

  lemma ListField(s: Schema)
    requires s.Value? && s.typeList.Listed?
    ensures Field(s, TypeList) == s.typeList.types == ListedTypes(s.typeList)
  {
  }

  lemma ListedVerdict(s: Schema, v: Json)
    requires s.Value? && s.typeList.Listed? && Compiled(s) && DemandsJudged(s, v)
    ensures (exists i :: 0 <= i < |Field(s, TypeList)| && Verdict(Field(s, TypeList)[i], v)) <==> SomeListed(s, v)
  {
    ListField(s);
    hide Compiled, Children, Verdict, TypeApplies, Field;
    var cs := s.typeList.types;
    if i :| 0 <= i < |cs| && Verdict(cs[i], v) {
      ChildIn(s, TypeList, cs[i]);
      TypedChildApplies(s, cs[i], v);
    }
  }

  lemma TypedByParts(s: Schema, v: Json)
    requires s.Value? && s.typeList.Listed? && Compiled(s) && DemandsJudged(s, v)
    ensures TallyFrom(s, v, 0).typed <==> SomeListed(s, v)
  {
    BaseTyped(s, v);
    hide *;
    SomeMeans(s, v, 0);
    AcceptingByField(s, v, TypeList);
    ListedVerdict(s, v);
    if v.Array? && EarlyTally(s, 0).typed { EarlyTypedListed(s, v); }
  }

  lemma BaseTyped(s: Schema, v: Json)
    ensures Base(s, v).typed <==> v.Array? && EarlyTally(s, 0).typed
  {
    hide EarlyTally;
  }

  /** The final test of the flags decides all composition keywords at once. */
  lemma CompositionsByParts(s: Schema, v: Json)
    requires s.Value? && Compiled(s)
    ensures Satisfied(s, TallyFrom(s, v, 0)) <==> DemandsJudged(s, v) && SomeListed(s, v) && FourJudged(s, v)
  {
    hide Compiled, Children, Verdict, Early, TallyFrom, EarlyCount, DemandsJudged, TypeApplies, OnlyJudged, SomeListed;
    FailsByParts(s, v);
    AnyByParts(s, v);
    OnesByParts(s, v);
    NoList(s, v);
    if DemandsJudged(s, v) && s.typeList.Listed? { TypedByParts(s, v); }
  }

  lemma NoList(s: Schema, v: Json)
    requires s.Value?
    ensures !s.typeList.Listed? ==> SomeListed(s, v)
  {
  }

  /** The schema's own keywords, as judged by running counts. */
  lemma OwnByParts(s: Schema, v: Json)
    requires s.Value? && HasType(s.data, v)
    ensures OwnOk(s, v) <==> Enumerated(s.enumeration, v) && LeafOk(s.data, v) && ElementsJudged(s.data, v)
  {
    hide Verdict, ItemSchema, Governs, Enumerated, ExtraItem, ExtraMember;
  }

  /** The verdict on any schema by the verdicts on its parts. */
  lemma VerdictByParts(s: Schema, v: Json)
    requires Compiled(s)
    ensures Verdict(s, v) <==> OthersJudged(s, v) && FourJudged(s, v)
  {
    if s.Value? && HasType(s.data, v) {
      CompositionsByParts(s, v);
      OwnByParts(s, v);
      hide Compiled, Enumerated, LeafOk, ElementsJudged, DemandsJudged, SomeListed, FourJudged, Satisfied, TallyFrom,
        OwnOk, HasType, Children;
    }
  }

  /** The judgement at the start of an array by that of the parts. */
  lemma EarlyByParts(s: Schema)
    requires s.Value?
    ensures Early(s) <==>
              && (s.data.MixedData? || s.data.ArrayData?)
              && (forall i :: 0 <= i < |s.allOf| ==> Early(s.allOf[i]))
              && (s.not.Some? ==> !Early(s.not.value))
              && EarlyCount(s.oneOf, 0) <= 1
  {
    EarlyChoices(s, 0);
    EntriesEnd(s, One);
    EarlyFailsByField(s);
    assert Field(s, One) == s.oneOf;
    assert Early(s) <==> (s.data.MixedData? || s.data.ArrayData?) && Sound(EarlyTally(s, 0));
    hide Early, EarlyTally, EarlyCount, FirstEntry, Children, Field;
  }

  lemma EarlyFailsByField(s: Schema)
    requires s.Value?
    ensures EarlyTally(s, 0).fails <==>
              || (exists i :: 0 <= i < |s.allOf| && !Early(s.allOf[i]))
              || (s.not.Some? && Early(s.not.value))
  {
    assert Field(s, All) == s.allOf;
    hide Children, Early, Field, Offset;
    if EarlyTally(s, 0).fails {
      EarlyFailsMeans(s, 0);
      var k :| 0 <= k < |Children(s)| &&
            (var c := Children(s)[k];
             (c.composition == All && !Early(c.schema)) || (c.composition == Not && Early(c.schema)));
      var c := Children(s)[k];
      ChildHasField(s, c);
      if c.composition == Not { NotField(s, c.schema); }
    }
    if i :| 0 <= i < |s.allOf| && !Early(s.allOf[i]) {
      ChildIn(s, All, s.allOf[i]);
      var k :| 0 <= k < |Children(s)| && Children(s)[k] == Child(All, s.allOf[i]);
      EarlyFailsAt(s, k, 0);
    }
    if s.not.Some? && Early(s.not.value) {
      NotField(s, s.not.value);
      ChildIn(s, Not, s.not.value);
      var k :| 0 <= k < |Children(s)| && Children(s)[k] == Child(Not, s.not.value);
      EarlyFailsAt(s, k, 0);
    }
  }
}
