/** The driver that turns an instance into events (`src/schema/jso_schema_validation.c`). */
module Validation {
  import opened Options
  import opened JsonValues
  import opened Schemas
  import opened Verdicts
  import opened ValidationResults
  import opened ValidationStacks
  import opened Layers
  import opened LayerStages
  import opened Meaning
  import opened Readings
  import opened StandardMeanings
  import opened StreamedMeanings
  import Parsers = SchemaParsers
  import Streams = ValidationStreams

  /** Where the layer stands in the memory. */
  ghost predicate Grounded(l: Layer, ps: seq<Position>) {
    && l.end <= |ps| && 0 < l.end && l.start <= l.end
    && (if l.separator.Some? then
          && l.start == l.separator.value + 1
          && 0 < l.depth
          && ps[l.separator.value].positionType == Sentinel
          && ps[l.separator.value].layerStart == l.separator.value
        else l.start == 0)
  }

  lemma BackOnTop(stack: ValidationStack, l: Layer, v: Json)
    requires Grounded(l, stack.positions) && Holds(l, stack.positions, v)
    requires stack.size == l.end && stack.depth == l.depth && stack.lastSeparator == l.separator
    ensures Streams.OnTop(stack, l)
  {
    hide Flattened, SameSlots, OnlyRejected;
  }

  /** The layer `l` after the layer above it has judged item or member `n`. */
  lemma Judged(l: Layer, ps: seq<Position>, qs: seq<Position>, hi: nat, v: Json, n: nat)
    requires n < Length(v) && Holds(l, ps, v) && ElementPushed(l, ps, hi, v, n) && Grounded(l, ps)
    requires l.end < |qs| && PassedDown(ps, qs, l.end + 1, l.end + 1, hi, Element(v, n))
    ensures Holds(l, qs, v) && Grounded(l, qs)
    ensures l.start > 0 ==> qs[l.start - 1] == ps[l.start - 1]
  {
    hide Children, Compiled, Verdict, AppliesTo, Flattened, Holds;
    assert PassedDown(ps, qs, l.end, l.end + 1, hi, Element(v, n));
    HoldsAbove(l, ps, qs, hi, v, n);
    assert l.start > 0 ==> !Rejects(ps, l.end + 1, hi, l.start - 1, Element(v, n));
  }

  /** The layers below keep what was pushed there.  A position changes only by failing,
      and only when a position that was pushed for it rejects the instance. */
  lemma LayerDiscipline(ps: seq<Position>, qs: seq<Position>, lo: nat, hi: nat, v: Json)
    requires hi <= |ps| && PassedDown(ps, qs, lo, lo, hi, v)
    ensures SameSlots(ps, qs, 0, lo)
    ensures forall i :: 0 <= i < lo && qs[i] != ps[i] ==>
              qs[i] == SetFinalResult(ps[i], Invalid) && Rejects(ps, lo, hi, i, v)
  {
    hide Rejects;
  }

  /** Drives one value through the validator, from the events of its first part to its end. */
  method ValidateInstance(stack: ValidationStack, v: Json)
    requires Streams.NewLayer(stack)
    modifies stack
    ensures Streams.LayerGone(stack) && |old(stack.positions)| <= |stack.positions|
    ensures PassedDown(old(stack.positions), stack.positions, old(stack.LayerStart()), old(stack.LayerStart()),
                       old(stack.size), v)
    ensures SameSlots(old(stack.positions), stack.positions, 0, old(stack.LayerStart()))
    ensures forall i :: 0 <= i < old(stack.LayerStart()) && stack.positions[i] != old(stack.positions[i]) ==>
              && stack.positions[i] == SetFinalResult(old(stack.positions[i]), Invalid)
              && Rejects(old(stack.positions), old(stack.LayerStart()), old(stack.size), i, v)
    ensures forall k :: old(stack.LayerStart()) <= k < old(stack.size) ==>
              (stack.positions[k].result == Valid <==> Verdict(old(stack.positions[k].schema), v))
    decreases v, 1
  {
    hide Children, Compiled, Flattened, Open, Verdict, Rejects, Fresh, AppliesTo, Holds, ElementPushed, PassedDown;
    ghost var l := Streams.TopLayer(stack);
    if v.Array? {
      l := ValidateArray(stack, v);
    } else if v.Object? {
      l := ValidateObject(stack, v);
    }
    Streams.Value(stack, v, l);
    LayerDiscipline(old(stack.positions), stack.positions, old(stack.LayerStart()), old(stack.size), v);
  }

  /** The events of an array up to its end. */
  method ValidateArray(stack: ValidationStack, v: Json) returns (ghost l: Layer)
    requires v.Array? && Streams.NewLayer(stack)
    modifies stack
    ensures |old(stack.positions)| <= |stack.positions|
    ensures Streams.OnTop(stack, l) && Stage(l, stack.positions, v, |v.items|)
    ensures l.before == old(stack.positions) && l.basics == old(stack.size) && l.start == old(stack.LayerStart())
    ensures l.depth == old(stack.depth) && l.separator == old(stack.lastSeparator)
    ensures l.start > 0 ==> stack.positions[l.start - 1] == old(stack.positions[stack.LayerStart() - 1])
    decreases v, 0
  {
    hide Children, Compiled, Flattened, Open, Verdict, Rejects, Fresh, AppliesTo, Holds, ElementPushed, PassedDown,
      IsLayer;
    l := Streams.ArrayStart(stack, v);
    Streams.LayerOf(l, stack.positions, v);
    var n := 0;
    while n < |v.items|
      invariant 0 <= n <= |v.items|
      invariant |old(stack.positions)| <= |stack.positions|
      invariant Stage(l, stack.positions, v, n) && Streams.UnderNewLayer(stack, l, v, n)
      invariant l.start > 0 ==> stack.positions[l.start - 1] == old(stack.positions[stack.LayerStart() - 1])
      invariant Grounded(l, stack.positions)
    {
      ghost var ps, hi := stack.positions, stack.size;
      ValidateInstance(stack, v.items[n]);
      Judged(l, ps, stack.positions, hi, v, n);
      BackOnTop(stack, l, v);
      forall i | l.start <= i < l.end
        ensures Streams.Counting(stack.positions[i], v, n)
      {
        ItemJudged(l, ps, stack.positions, hi, v, n, i);
      }
      Streams.ArrayAppend(stack, l, v, n);
      n := n + 1;
    }
    Streams.ArrayEnd(stack);
    BackOnTop(stack, l, v);
  }

  lemma ItemJudged(l: Layer, ps: seq<Position>, qs: seq<Position>, hi: nat, v: Json, n: nat, i: nat)
    requires n < Length(v) && ElementPushed(l, ps, hi, v, n) && l.start <= i < l.end
    requires PassedDown(ps, qs, l.end + 1, l.end + 1, hi, Element(v, n))
    requires Open(ps[i], v, n, |Children(ps[i].schema)|)
    ensures Streams.Counting(qs[i], v, n)
  {
    hide Children, Compiled, Verdict, AppliesTo, PassedDown;
    PassedDownLess(ps, qs, l.end, l.end + 1, hi, Element(v, n));
    OpenCount(ps[i], v, n);
    ElementJudged(l, ps, qs, hi, v, n, i, n);
    OpenCount(qs[i], v, n);
  }

  lemma OpenCount(p: Position, v: Json, n: nat)
    requires n <= Length(v)
    ensures Open(p, v, n, |Children(p.schema)|) <==>
              Open(p.(count := n), v, n, |Children(p.schema)|) && (Active(p) ==> p.count == n)
  {
    hide Children, Verdict, PrefixOk, TallyFrom;
  }

  lemma PassedDownLess(ps: seq<Position>, qs: seq<Position>, base: nat, lo: nat, hi: nat, v: Json)
    requires hi <= |ps| && PassedDown(ps, qs, base + 1, lo, hi, v)
    ensures PassedDown(ps, qs, base, lo, hi, v) && base < |ps| && base < |qs|
  {
    hide Rejects;
  }

  /** The events of an object up to its end; `object_update` and `object_end` do nothing. */
  method ValidateObject(stack: ValidationStack, v: Json) returns (ghost l: Layer)
    requires v.Object? && Streams.NewLayer(stack)
    modifies stack
    ensures |old(stack.positions)| <= |stack.positions|
    ensures Streams.OnTop(stack, l) && Stage(l, stack.positions, v, |v.members|)
    ensures l.before == old(stack.positions) && l.basics == old(stack.size) && l.start == old(stack.LayerStart())
    ensures l.depth == old(stack.depth) && l.separator == old(stack.lastSeparator)
    ensures l.start > 0 ==> stack.positions[l.start - 1] == old(stack.positions[stack.LayerStart() - 1])
    decreases v, 0
  {
    hide Children, Compiled, Flattened, Open, Verdict, Rejects, Fresh, AppliesTo, Holds, ElementPushed, PassedDown,
      IsLayer, Keyed;
    l := Streams.ObjectStart(stack, v);
    var n := 0;
    while n < |v.members|
      invariant 0 <= n <= |v.members|
      invariant |old(stack.positions)| <= |stack.positions|
      invariant Streams.OnTop(stack, l) && Stage(l, stack.positions, v, n)
      invariant l.start > 0 ==> stack.positions[l.start - 1] == old(stack.positions[stack.LayerStart() - 1])
    {
      var member := v.members[n];
      Streams.ObjectKey(stack, member.key, l, v, n);
      ghost var ps, hi := stack.positions, stack.size;
      Streams.LayerOf(l, stack.positions, v);
      ValidateInstance(stack, member.value);
      Judged(l, ps, stack.positions, hi, v, n);
      BackOnTop(stack, l, v);
      forall i | l.start <= i < l.end
        ensures Open(stack.positions[i], v, n + 1, |Children(stack.positions[i].schema)|)
      {
        MemberJudged(l, ps, stack.positions, hi, v, n, i);
      }
      n := n + 1;
    }
  }

  lemma MemberJudged(l: Layer, ps: seq<Position>, qs: seq<Position>, hi: nat, v: Json, n: nat, i: nat)
    requires n < Length(v) && ElementPushed(l, ps, hi, v, n) && l.start <= i < l.end
    requires PassedDown(ps, qs, l.end + 1, l.end + 1, hi, Element(v, n))
    requires Keyed(ps[i], v, n)
    ensures Open(qs[i], v, n + 1, |Children(qs[i].schema)|)
  {
    hide Children, Compiled, Verdict, AppliesTo, PassedDown, Open, Admits;
    PassedDownLess(ps, qs, l.end, l.end + 1, hi, Element(v, n));
    ElementJudged(l, ps, qs, hi, v, n, i, n);
    SlotFields(ps[i], qs[i]);
    Advance(qs[i], v, n);
  }

  /** Initial capacity of a validation stream. */
  const INITIAL_CAPACITY := 32

  /** Validates one instance against a compiled schema on a fresh stream. */
  method Validate(schema: Schema, instance: Json) returns (result: ValidationResult)
    requires Compiled(schema)
    ensures result == Valid <==> Verdict(schema, instance)
    ensures Supported(schema, instance) ==> (result == Valid <==> Accepts(schema, instance))
  {
    var stack := new ValidationStack(INITIAL_CAPACITY);
    var root := stack.PushBasic(schema, None);
    ValidateInstance(stack, instance);
    result := Streams.FinalResult(stack);
    if Supported(schema, instance) { VerdictIsMeaning(schema, instance); }
  }

  /** Parses a schema document and validates one instance against it. */
  method ParseAndValidate(document: Parsers.Raw, instance: Json) returns (result: Option<ValidationResult>)
    ensures result.Some? <==> Parsers.Parses(document)
    ensures result.Some? ==> (result.value == Valid <==> Parsers.Meets(document, instance, Streamed))
    ensures result.Some? && RightAtStarts(document, instance) ==>
              (result.value == Valid <==> Parsers.Meets(document, instance, Library))
    ensures result.Some? && RightAtStarts(document, instance) && Unmistaken(document, instance) ==>
              (result.value == Valid <==> Parsers.Meets(document, instance, Draft4))
    ensures ArrayFree(instance) || StraightRaw(document) || SupportedRaw(document, instance) ==>
              RightAtStarts(document, instance)
  {
    hide Parsers.Parses, Parsers.Meets, ArrayFree, StraightRaw, SupportedRaw, RightAtStarts, Unmistaken, Verdict;
    if ArrayFree(instance) { ArrayFreeIsSupportedRaw(document, instance); }
    if StraightRaw(document) { StraightIsSupportedRaw(document, instance); }
    if SupportedRaw(document, instance) { SupportedIsRight(document, instance); }
    var schema := Parsers.ParseValue(document);
    if schema.None? {
      return None;
    }
    var verdict := Validate(schema.value, instance);
    if RightAtStarts(document, instance) { StreamedIsMeant(document, instance); }
    if Unmistaken(document, instance) { MeetsAsDraft4(document, instance); }
    result := Some(verdict);
  }
}
