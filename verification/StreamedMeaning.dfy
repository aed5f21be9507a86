/** When what the validator answers for a document is the meaning of the document. */
module StreamedMeanings {
  import opened Options
  import opened JsonValues
  import opened Schemas
  import opened Meaning
  import opened Readings
  import opened SchemaParsers

  // ---- Documents applied to parts of the instance -------------------------

  /** The document for item `i`, if any. */
  function ItemDoc(r: Raw, i: nat): (d: Option<Raw>)
    requires r.Raw?
    ensures d.Some? ==> d.value < r
  {
    match r.items
    case NoRawItems => None
    case RawOne(c) => Some(c)
    case RawTuple(cs) =>
      if i < |cs| then Some(cs[i])
      else if r.additionalItems.RawGoverned? then Some(r.additionalItems.schema)
      else None
  }

  /** The document `d` governs the member with this key. */
  ghost predicate MemberDoc(r: Raw, key: string, d: Raw)
    requires r.Raw?
    ensures MemberDoc(r, key, d) ==> d < r
  {
    var found := FindRaw(Properties(r), key);
    || (found.Some? && Properties(r)[found.value].schema == d)
    || (exists j :: 0 <= j < |Patterns(r)| && Patterns(r)[j].matches(key) && Patterns(r)[j].schema == d)
    || (found.None? && !Matched(Patterns(r), key) && r.additionalProperties == RawGoverned(d))
  }

  /** By the keywords of its own type the instance has the part `w` governed by `d`. */
  ghost predicate AppliesDoc(r: Raw, v: Json, d: Raw, w: Json)
    requires r.Raw?
    ensures AppliesDoc(r, v, d, w) ==> d < r
  {
    || (v.Array? && exists i :: 0 <= i < |v.items| && v.items[i] == w && ItemDoc(r, i) == Some(d))
    || (v.Object? && exists i :: 0 <= i < |v.members| && v.members[i].value == w && MemberDoc(r, v.members[i].key, d))
  }

  /** Both ways of judging agree on all such parts. */
  ghost predicate PartsAgree(r: Raw, v: Json)
    requires r.Raw?
  {
    forall d, w :: AppliesDoc(r, v, d, w) ==> (Meets(d, w, Streamed) <==> Meets(d, w, Library))
  }

  lemma ItemAgrees(r: Raw, v: Json, i: nat)
    requires r.Raw? && v.Array? && i < |v.items| && PartsAgree(r, v)
    ensures ItemMet(r, i, v.items[i], Streamed) <==> ItemMet(r, i, v.items[i], Library)
  {
    var d := ItemDoc(r, i);
    if d.Some? { assert AppliesDoc(r, v, d.value, v.items[i]); }
    hide Meets, AppliesDoc;
  }

  lemma MemberAgrees(r: Raw, v: Json, i: nat)
    requires r.Raw? && v.Object? && i < |v.members| && PartsAgree(r, v)
    ensures var m := v.members[i]; MemberMet(r, m.key, m.value, Streamed) <==> MemberMet(r, m.key, m.value, Library)
  {
    var m := v.members[i];
    hide Meets;
    forall d | MemberDoc(r, m.key, d)
      ensures Meets(d, m.value, Streamed) <==> Meets(d, m.value, Library)
    {
      assert AppliesDoc(r, v, d, m.value);
    }
    hide AppliesDoc, PartsAgree, Properties, Patterns;
    forall j | 0 <= j < |Patterns(r)| && Patterns(r)[j].matches(m.key)
      ensures MemberDoc(r, m.key, Patterns(r)[j].schema)
    {
    }
    var found := FindRaw(Properties(r), m.key);
    if found.Some? { assert MemberDoc(r, m.key, Properties(r)[found.value].schema); }
    if found.None? && !Matched(Patterns(r), m.key) && r.additionalProperties.RawGoverned? {
      assert MemberDoc(r, m.key, r.additionalProperties.schema);
    }
  }

  lemma OwnAgree(r: Raw, v: Json)
    requires r.Raw? && PartsAgree(r, v)
    ensures OwnKeywordsMet(r, v, Streamed) <==> OwnKeywordsMet(r, v, Library)
  {
    match v
    case Array(items) =>
      forall i | 0 <= i < |items|
        ensures ItemMet(r, i, items[i], Streamed) <==> ItemMet(r, i, items[i], Library)
      {
        ItemAgrees(r, v, i);
      }
      hide ItemMet, PartsAgree;
    case Object(members) =>
      forall i | 0 <= i < |members|
        ensures MemberMet(r, members[i].key, members[i].value, Streamed) <==>
                  MemberMet(r, members[i].key, members[i].value, Library)
      {
        MemberAgrees(r, v, i);
      }
      hide MemberMet, PartsAgree, SomeMember;
    case _ =>
  }

  // ---- Where the start of an array judges rightly -------------------------

  ghost predicate SomeOpen(rs: seq<Raw>) { exists i :: 0 <= i < |rs| && OpenAtStart(rs[i]) }

  ghost predicate SomeMet(rs: seq<Raw>, v: Json) { exists i :: 0 <= i < |rs| && Meets(rs[i], v, Library) }

  /** On this array the judgement of `anyOf`, `oneOf` and `not` comes out as they mean. */
  ghost predicate StartRight(r: Raw, v: Json)
    requires r.Raw?
  {
    && (r.anyOf.RawList? ==> (SomeOpen(List(r.anyOf)) <==> SomeMet(List(r.anyOf), v)))
    && (r.oneOf.RawList? ==>
          (OpenCount(List(r.oneOf)) == 1 && !SomeMet(List(r.oneOf), v) <==> OneMet(r, v, Library)))
    && (r.not.SomeRaw? ==> (OpenAtStart(r.not.schema) <==> Meets(r.not.schema, v, Library)))
  }

  /** Wherever the document is applied to an array, the judgement at its start is right. */
  ghost predicate RightAtStarts(r: Raw, v: Json)
    decreases r
  {
    match r
    case RawRef(t) => if v.Array? then OpenAtStart(t) <==> Meets(t, v, Library) else RightAtStarts(t, v)
    case _ =>
      TypeMet(r.types, v) ==>
        && (v.Array? ==> StartRight(r, v))
        && (forall i :: 0 <= i < |List(r.allOf)| ==> RightAtStarts(List(r.allOf)[i], v))
        && (forall i :: 0 <= i < |List(r.oneOf)| ==> RightAtStarts(List(r.oneOf)[i], v))
        && (!v.Array? ==> forall i :: 0 <= i < |List(r.anyOf)| ==> RightAtStarts(List(r.anyOf)[i], v))
        && (!v.Array? && r.not.SomeRaw? ==> RightAtStarts(r.not.schema, v))
        && (forall d, w :: AppliesDoc(r, v, d, w) ==> RightAtStarts(d, w))
  }

  lemma EntriesRight(r: Raw, l: RawList, v: Json)
    requires forall i :: 0 <= i < |List(l)| ==> (Meets(List(l)[i], v, Streamed) <==> Meets(List(l)[i], v, Library))
    ensures (forall i :: 0 <= i < |List(l)| ==> Meets(List(l)[i], v, Streamed)) <==>
              forall i :: 0 <= i < |List(l)| ==> Meets(List(l)[i], v, Library)
    ensures (forall i :: 0 <= i < |List(l)| ==> !Meets(List(l)[i], v, Streamed)) <==> !SomeMet(List(l), v)
    ensures (exists i :: 0 <= i < |List(l)| && Meets(List(l)[i], v, Streamed)) <==> SomeMet(List(l), v)
  {
    hide Meets, List;
  }

  lemma OnlyRight(r: Raw, v: Json)
    requires r.Raw?
    requires forall i :: 0 <= i < |List(r.oneOf)| ==>
               (Meets(List(r.oneOf)[i], v, Streamed) <==> Meets(List(r.oneOf)[i], v, Library))
    ensures (exists i :: OnlyMet(r, v, Streamed, i)) <==> exists i :: OnlyMet(r, v, Library, i)
  {
    hide Meets, List;
    if i :| OnlyMet(r, v, Streamed, i) { assert OnlyMet(r, v, Library, i); }
    if i :| OnlyMet(r, v, Library, i) { assert OnlyMet(r, v, Streamed, i); }
  }

  lemma OneRight(r: Raw, v: Json)
    requires r.Raw?
    requires forall i :: 0 <= i < |List(r.oneOf)| ==>
               (Meets(List(r.oneOf)[i], v, Streamed) <==> Meets(List(r.oneOf)[i], v, Library))
    ensures OneMet(r, v, Streamed) <==>
              if v.Array? then OpenCount(List(r.oneOf)) == 1 && !SomeMet(List(r.oneOf), v) else OneMet(r, v, Library)
  {
    assert AtStart(v, Streamed) <==> v.Array?;
    assert !AtStart(v, Library);
    hide *;
    OneMetIs(r, v, Streamed);
    OneMetIs(r, v, Library);
    EntriesRight(r, r.oneOf, v);
    OnlyRight(r, v);
  }

  lemma MeetsStreamed(r: Raw, v: Json)
    requires r.Raw?
    ensures Meets(r, v, Streamed) <==>
              && TypeMet(r.types, v) && OwnKeywordsMet(r, v, Streamed) && Enumerated(r.enumeration, v)
              && (forall i :: 0 <= i < |List(r.allOf)| ==> Meets(List(r.allOf)[i], v, Streamed))
              && (r.anyOf.RawList? ==>
                    if v.Array? then SomeOpen(List(r.anyOf))
                    else exists i :: 0 <= i < |List(r.anyOf)| && Meets(List(r.anyOf)[i], v, Streamed))
              && (r.oneOf.RawList? ==> OneMet(r, v, Streamed))
              && (r.not.SomeRaw? ==>
                    if v.Array? then !OpenAtStart(r.not.schema) else !Meets(r.not.schema, v, Streamed))
  {
    MeetsSplits(r, v, Streamed);
    hide Meets, TypeMet, OwnKeywordsMet, Enumerated, List, OneMet, OpenAtStart;
  }

  lemma MeetsMeant(r: Raw, v: Json)
    requires r.Raw?
    ensures Meets(r, v, Library) <==>
              && TypeMet(r.types, v) && OwnKeywordsMet(r, v, Library) && Enumerated(r.enumeration, v)
              && (forall i :: 0 <= i < |List(r.allOf)| ==> Meets(List(r.allOf)[i], v, Library))
              && (r.anyOf.RawList? ==> SomeMet(List(r.anyOf), v))
              && (r.oneOf.RawList? ==> OneMet(r, v, Library))
              && (r.not.SomeRaw? ==> !Meets(r.not.schema, v, Library))
  {
    MeetsSplits(r, v, Library);
    hide Meets, TypeMet, OwnKeywordsMet, Enumerated, List, OneMet, OpenAtStart;
  }

  /** Keyword by keyword the answers are the same. */
  lemma Together(r: Raw, v: Json)
    requires r.Raw? && TypeMet(r.types, v) && (v.Array? ==> StartRight(r, v))
    requires OwnKeywordsMet(r, v, Streamed) <==> OwnKeywordsMet(r, v, Library)
    requires (forall i :: 0 <= i < |List(r.allOf)| ==> Meets(List(r.allOf)[i], v, Streamed)) <==>
               forall i :: 0 <= i < |List(r.allOf)| ==> Meets(List(r.allOf)[i], v, Library)
    requires !v.Array? ==>
               ((exists i :: 0 <= i < |List(r.anyOf)| && Meets(List(r.anyOf)[i], v, Streamed)) <==>
                  SomeMet(List(r.anyOf), v))
    requires OneMet(r, v, Streamed) <==>
               if v.Array? then OpenCount(List(r.oneOf)) == 1 && !SomeMet(List(r.oneOf), v) else OneMet(r, v, Library)
    requires !v.Array? && r.not.SomeRaw? ==> (Meets(r.not.schema, v, Streamed) <==> Meets(r.not.schema, v, Library))
    ensures Meets(r, v, Streamed) <==> Meets(r, v, Library)
  {
    MeetsStreamed(r, v);
    MeetsMeant(r, v);
    hide Meets, TypeMet, OwnKeywordsMet, Enumerated, List, OneMet, OpenAtStart, OpenCount, SomeMet, SomeOpen;
  }

  lemma AllRight(r: Raw, v: Json)
    requires r.Raw? && TypeMet(r.types, v) && (v.Array? ==> StartRight(r, v)) && PartsAgree(r, v)
    requires forall i :: 0 <= i < |List(r.allOf)| ==>
               (Meets(List(r.allOf)[i], v, Streamed) <==> Meets(List(r.allOf)[i], v, Library))
    requires forall i :: 0 <= i < |List(r.oneOf)| ==>
               (Meets(List(r.oneOf)[i], v, Streamed) <==> Meets(List(r.oneOf)[i], v, Library))
    requires !v.Array? ==>
               forall i :: 0 <= i < |List(r.anyOf)| ==>
                 (Meets(List(r.anyOf)[i], v, Streamed) <==> Meets(List(r.anyOf)[i], v, Library))
    requires !v.Array? && r.not.SomeRaw? ==> (Meets(r.not.schema, v, Streamed) <==> Meets(r.not.schema, v, Library))
    ensures Meets(r, v, Streamed) <==> Meets(r, v, Library)
  {
    hide *;
    OwnAgree(r, v);
    EntriesRight(r, r.allOf, v);
    OneRight(r, v);
    if !v.Array? { EntriesRight(r, r.anyOf, v); }
    Together(r, v);
  }

  /** The validator then answers with the meaning of the document. */
  lemma {:induction false} StreamedIsMeant(r: Raw, v: Json)
    requires RightAtStarts(r, v)
    ensures Meets(r, v, Streamed) <==> Meets(r, v, Library)
    decreases r
  {
    if r.RawRef? {
      if !v.Array? { StreamedIsMeant(r.target, v); }
    } else {
      MeetsStreamed(r, v);
      MeetsMeant(r, v);
      if TypeMet(r.types, v) {
        hide TypeMet, Meets, StartRight, OpenAtStart, AppliesDoc;
        forall i | 0 <= i < |List(r.allOf)|
          ensures Meets(List(r.allOf)[i], v, Streamed) <==> Meets(List(r.allOf)[i], v, Library)
        {
          StreamedIsMeant(List(r.allOf)[i], v);
        }
        forall i | 0 <= i < |List(r.oneOf)|
          ensures Meets(List(r.oneOf)[i], v, Streamed) <==> Meets(List(r.oneOf)[i], v, Library)
        {
          StreamedIsMeant(List(r.oneOf)[i], v);
        }
        if !v.Array? {
          forall i | 0 <= i < |List(r.anyOf)|
            ensures Meets(List(r.anyOf)[i], v, Streamed) <==> Meets(List(r.anyOf)[i], v, Library)
          {
            StreamedIsMeant(List(r.anyOf)[i], v);
          }
          if r.not.SomeRaw? { StreamedIsMeant(r.not.schema, v); }
        }
        forall d, w | AppliesDoc(r, v, d, w)
          ensures Meets(d, w, Streamed) <==> Meets(d, w, Library)
        {
          StreamedIsMeant(d, w);
        }
        assert v.Array? ==> StartRight(r, v);
        assert PartsAgree(r, v);
        hide *;
        AllRight(r, v);
      }
    }
  }

  // ---- Instances and documents that are always right ----------------------

  /** No document with `anyOf`, `oneOf`, `not` or `$ref` is applied to an array. */
  ghost predicate SupportedRaw(r: Raw, v: Json)
    decreases r
  {
    match r
    case RawRef(t) => !v.Array? && SupportedRaw(t, v)
    case _ =>
      TypeMet(r.types, v) ==>
        && (v.Array? ==> r.anyOf.NoList? && r.oneOf.NoList? && r.not.NoRaw?)
        && (forall i :: 0 <= i < |List(r.allOf)| ==> SupportedRaw(List(r.allOf)[i], v))
        && (forall i :: 0 <= i < |List(r.anyOf)| ==> SupportedRaw(List(r.anyOf)[i], v))
        && (forall i :: 0 <= i < |List(r.oneOf)| ==> SupportedRaw(List(r.oneOf)[i], v))
        && (r.not.SomeRaw? ==> SupportedRaw(r.not.schema, v))
        && (forall d, w :: AppliesDoc(r, v, d, w) ==> SupportedRaw(d, w))
  }

  lemma {:induction false} SupportedIsRight(r: Raw, v: Json)
    requires SupportedRaw(r, v)
    ensures RightAtStarts(r, v)
    decreases r
  {
    hide TypeMet, AppliesDoc;
    if r.RawRef? {
      SupportedIsRight(r.target, v);
    } else if TypeMet(r.types, v) {
      forall i | 0 <= i < |List(r.allOf)| ensures RightAtStarts(List(r.allOf)[i], v) {
        SupportedIsRight(List(r.allOf)[i], v);
      }
      forall i | 0 <= i < |List(r.anyOf)| ensures RightAtStarts(List(r.anyOf)[i], v) {
        SupportedIsRight(List(r.anyOf)[i], v);
      }
      forall i | 0 <= i < |List(r.oneOf)| ensures RightAtStarts(List(r.oneOf)[i], v) {
        SupportedIsRight(List(r.oneOf)[i], v);
      }
      if r.not.SomeRaw? { SupportedIsRight(r.not.schema, v); }
      forall d, w | AppliesDoc(r, v, d, w) ensures RightAtStarts(d, w) {
        SupportedIsRight(d, w);
      }
      assert v.Array? ==> StartRight(r, v) by { hide Meets, OpenAtStart; }
    }
  }

  /** Without arrays every document is supported. */
  lemma {:induction false} ArrayFreeIsSupportedRaw(r: Raw, v: Json)
    requires ArrayFree(v)
    ensures SupportedRaw(r, v)
    decreases r
  {
    hide TypeMet, MemberDoc;
    if r.RawRef? {
      ArrayFreeIsSupportedRaw(r.target, v);
    } else {
      forall i | 0 <= i < |List(r.allOf)| ensures SupportedRaw(List(r.allOf)[i], v) {
        ArrayFreeIsSupportedRaw(List(r.allOf)[i], v);
      }
      forall i | 0 <= i < |List(r.anyOf)| ensures SupportedRaw(List(r.anyOf)[i], v) {
        ArrayFreeIsSupportedRaw(List(r.anyOf)[i], v);
      }
      forall i | 0 <= i < |List(r.oneOf)| ensures SupportedRaw(List(r.oneOf)[i], v) {
        ArrayFreeIsSupportedRaw(List(r.oneOf)[i], v);
      }
      if r.not.SomeRaw? { ArrayFreeIsSupportedRaw(r.not.schema, v); }
      forall d, w | AppliesDoc(r, v, d, w) ensures SupportedRaw(d, w) {
        ArrayFreeIsSupportedRaw(d, w);
      }
    }
  }

  /** The document uses `anyOf`, `oneOf`, `not` and `$ref` nowhere. */
  ghost predicate StraightRaw(r: Raw)
    decreases r
  {
    && r.Raw? && r.anyOf.NoList? && r.oneOf.NoList? && r.not.NoRaw?
    && (forall i :: 0 <= i < |List(r.allOf)| ==> StraightRaw(List(r.allOf)[i]))
    && (forall i, d :: 0 <= i && ItemDoc(r, i) == Some(d) ==> StraightRaw(d))
    && (forall key, d :: MemberDoc(r, key, d) ==> StraightRaw(d))
  }

  /** Such documents are supported on every instance. */
  lemma {:induction false} StraightIsSupportedRaw(r: Raw, v: Json)
    requires StraightRaw(r)
    ensures SupportedRaw(r, v)
    decreases r
  {
    hide TypeMet, MemberDoc, ItemDoc;
    forall i | 0 <= i < |List(r.allOf)| ensures SupportedRaw(List(r.allOf)[i], v) {
      StraightIsSupportedRaw(List(r.allOf)[i], v);
    }
    forall d, w | AppliesDoc(r, v, d, w) ensures SupportedRaw(d, w) {
      StraightIsSupportedRaw(d, w);
    }
  }
}
