/** The event machine (`src/schema/jso_schema_validation_stream.c`).

    The ghost parameter `l` of an event names the layer that is on top of the stack. */
module ValidationStreams {
  import opened Options
  import opened JsonValues
  import opened Schemas
  import opened Verdicts
  import opened ValidationStacks
  import opened Layers
  import opened ValidationResults
  import opened ValidationCompositions
  import opened ValidationValues
  import opened LayerStages
  import Objects = ValidationObjects
  import Arrays = ValidationArrays

  /** The top layer has just been pushed. */
  ghost predicate NewLayer(stack: ValidationStack)
    reads stack
  {
    && stack.Valid() && 0 < stack.size
    && forall k :: stack.LayerStart() <= k < stack.size ==>
         Fresh(stack.positions[k], stack.LayerStart(), stack.depth)
  }

  /** The new top layer, not yet expanded. */
  ghost function TopLayer(stack: ValidationStack): Layer
    reads stack
  {
    Layer(stack.positions, stack.LayerStart(), stack.size, stack.size, [stack.size], stack.depth, stack.lastSeparator)
  }

  ghost predicate OnTop(stack: ValidationStack, l: Layer)
    reads stack
  {
    && stack.Valid() && 0 < stack.size
    && stack.size == l.end
    && stack.LayerStart() == l.start
    && stack.depth == l.depth
    && stack.lastSeparator == l.separator
  }

  /** A new layer for an item or member has been pushed on top of `l`. */
  ghost predicate UnderNewLayer(stack: ValidationStack, l: Layer, v: Json, n: nat)
    reads stack
  {
    && NewLayer(stack)
    && stack.lastSeparator == Some(l.end)
    && stack.depth == l.depth + 1
    && stack.positions[l.end].parent == l.separator
    && ElementPushed(l, stack.positions, stack.size, v, n)
  }

  /** One step of the pass that expands the layer: children are pushed where the type fits,
      and a type error is recorded where it does not. */
  method ExpandPosition(stack: ValidationStack, i: nat, fits: bool, ghost before: seq<Position>, ghost n0: nat,
                        ghost kids: seq<nat>, ghost v: Json)
    requires stack.Valid()
    requires Expanding(before, stack.positions, stack.LayerStart(), i, n0, stack.size, kids, v)
    requires i < stack.size && fits == Expands(stack.positions[i].schema, v)
    modifies stack`positions, stack`size
    ensures stack.Valid() && i < old(stack.size) <= stack.size
    ensures |old(stack.positions)| <= |stack.positions|
    ensures Expanding(before, stack.positions, stack.LayerStart(), i + 1, n0, stack.size, kids + [stack.size], v)
    ensures LayerWeight(stack.positions, i + 1, stack.size) < old(LayerWeight(stack.positions, i, stack.size))
  {
    hide Compiled, Children, Flattened, LayerWeight, Pushed, Expands;
    ghost var ps, n := stack.positions, stack.size;
    FlattenedBounds(ps, stack.LayerStart(), i, n, kids, v);
    assert ps[i] == Slot(ps[i]);
    if fits {
      CompositionCheck(stack, i);
      assert stack.positions[..n] == ps[..n][i := Started(ps[i], v)];
    } else {
      stack.positions := stack.positions[i := stack.positions[i].(result := Invalid, reason := TypeReason)];
      assert stack.positions[..n] == ps[..n][i := Started(ps[i], v)];
    }
    ExpandingNext(before, ps, stack.positions, stack.LayerStart(), i, n0, n, stack.size, kids, v, stack.depth);
  }

  method ObjectStart(stack: ValidationStack, ghost v: Json) returns (ghost l: Layer)
    requires NewLayer(stack) && v.Object?
    modifies stack`positions, stack`size
    ensures |old(stack.positions)| <= |stack.positions|
    ensures OnTop(stack, l) && Stage(l, stack.positions, v, 0)
    ensures l.before == old(stack.positions) && l.basics == old(stack.size)
    ensures l.start == old(stack.LayerStart()) && l.depth == old(stack.depth) && l.separator == old(stack.lastSeparator)
    ensures l.start > 0 ==> stack.positions[l.start - 1] == old(stack.positions[stack.LayerStart() - 1])
  {
    hide Flattened, Compiled, Children, LayerWeight, Expanding;
    ghost var start, n0, kids := stack.LayerStart(), stack.size, [stack.size];
    ExpandingStart(stack.positions, start, n0, stack.depth, v);
    var index := stack.IteratorStart();
    var position, next := stack.IteratorNext(index);
    ghost var x := start;
    while position.Some?
      invariant stack.Valid() && stack.LayerStart() == start && start <= x <= stack.size && n0 <= stack.size
      invariant |old(stack.positions)| <= |stack.positions|
      invariant Expanding(old(stack.positions), stack.positions, start, x, n0, stack.size, kids, v)
      invariant if x < stack.size then position == Some(x) && next == x + 1 else position == None
      decreases if position.Some? then 1 + LayerWeight(stack.positions, x, stack.size) else 0
    {
      var i := position.value;
      var s := stack.positions[i].schema;
      ExpandPosition(stack, i, s.RefOnly? || s.data.MixedData? || s.data.ObjectData?, old(stack.positions), n0, kids,
        v);
      kids, x := kids + [stack.size], x + 1;
      position, next := stack.IteratorNext(next);
    }
    l := Layer(old(stack.positions), start, n0, stack.size, kids, stack.depth, stack.lastSeparator);
    ExpandedStage(l, stack.positions, v);
    BelowKept(l, stack.positions, v);
  }

  // ---- Object keys --------------------------------------------------------

  /** Positions below `x` have dealt with the key of member `n`. */
  ghost predicate KeyedUpTo(l: Layer, ps: seq<Position>, hi: nat, v: Json, n: nat, x: nat)
    requires n < Length(v)
  {
    && Holds(l, ps, v)
    && ElementPushedUpTo(l, ps, hi, v, n, x)
    && (forall i :: l.start <= i < x ==> Keyed(ps[i], v, n))
    && (forall i :: x <= i < l.end ==> Open(ps[i], v, n, |Children(ps[i].schema)|))
  }

  lemma KeyedNext(l: Layer, ps: seq<Position>, qs: seq<Position>, hi: nat, hi': nat, v: Json, n: nat, x: nat)
    requires n < Length(v) && KeyedUpTo(l, ps, hi, v, n, x) && x < l.end
    requires hi <= hi' <= |qs|
    requires forall k :: 0 <= k < hi && k != x ==> qs[k] == ps[k]
    requires Slot(qs[x]) == Slot(ps[x]) && Keyed(qs[x], v, n)
    requires forall k :: hi <= k < hi' ==>
               && qs[k] == BasicPosition(qs[k].schema, Some(x), l.end + 1, l.depth + 1)
               && AppliesTo(qs[x].schema, v, n, qs[k].schema)
    requires forall c :: Active(qs[x]) && AppliesTo(qs[x].schema, v, n, c) ==> PushedFor(qs, hi, hi', x, c)
    ensures KeyedUpTo(l, qs, hi', v, n, x + 1)
  {
    hide Children, Compiled, AppliesTo, Keyed, Open, Flattened;
    FlattenedBounds(ps, l.start, l.end, l.end, l.kids, v);
    HoldsAt(l, ps, qs, v, x);
    forall k | hi <= k < hi'
      ensures Compiled(qs[k].schema)
    {
      CompiledElement(l, qs, v, n, x, qs[k].schema);
    }
    PushedNext(l, ps, qs, hi, hi', v, n, x);
  }

  lemma CompiledElement(l: Layer, qs: seq<Position>, v: Json, n: nat, x: nat, c: Schema)
    requires Holds(l, qs, v) && l.start <= x < l.end <= |qs| && AppliesTo(qs[x].schema, v, n, c)
    ensures Compiled(c)
  {
    hide Children, Governs, ItemSchema;
    assert Compiled(qs[x].schema);
  }

  lemma KeyedFails(p: Position, q: Position, v: Json, n: nat)
    requires n < Length(v) && Open(p, v, n, |Children(p.schema)|) && Active(p) && !Admits(p.schema, v, n)
    requires q == SetFinalResult(p, Invalid).(reason := KeywordReason, count := q.count, objectKey := q.objectKey)
    ensures Keyed(q, v, n)
  {
    UnadmittedMatters(p.schema, v, n);
    hide Children, Verdict, TallyFrom, PrefixOk;
  }

  lemma KeyedPasses(p: Position, q: Position, v: Json, n: nat)
    requires n < Length(v) && Open(p, v, n, |Children(p.schema)|)
    requires Active(p) ==> Admits(p.schema, v, n)
    requires q == p.(count := p.count + 1, objectKey := q.objectKey)
    ensures Keyed(q, v, n)
  {
    hide Children, Verdict, TallyFrom, PrefixOk, Admits;
  }

  /** A position whose type is object, still undecided. */
  predicate AwaitsMembers(p: Position) {
    Active(p) && p.schema.Value? && p.schema.data.ObjectData?
  }

  /** What the key event makes of position `i`, and what it pushes for it at `hi..hi'`. */
  ghost predicate KeyEffect(ps: seq<Position>, qs: seq<Position>, hi: nat, hi': nat, i: nat, key: string,
                            start: nat, depth: nat)
    requires i < hi <= |ps| && hi <= hi' <= |qs|
  {
    var p, q := ps[i], qs[i];
    if AwaitsMembers(p)
       && (!AtMost(p.schema.data.maxProperties, p.count + 1) || ExtraMember(p.schema.data, key)) then
      q == SetFinalResult(p, Invalid).(reason := KeywordReason, count := q.count, objectKey := q.objectKey) && hi' == hi
    else
      && q == p.(count := p.count + 1, objectKey := q.objectKey)
      && (if AwaitsMembers(p) then Objects.GoverningPushed(qs, hi, hi', i, start, depth, p.schema.data, key)
          else hi' == hi)
  }

  lemma KeyStep(l: Layer, ps: seq<Position>, qs: seq<Position>, hi: nat, hi': nat, v: Json, n: nat, i: nat)
    requires v.Object? && n < |v.members|
    requires KeyedUpTo(l, ps, hi, v, n, i) && i < l.end
    requires hi <= hi' <= |qs| && forall k :: 0 <= k < hi && k != i ==> qs[k] == ps[k]
    requires KeyEffect(ps, qs, hi, hi', i, v.members[n].key, l.end + 1, l.depth + 1)
    ensures KeyedUpTo(l, qs, hi', v, n, i + 1)
  {
    hide Children, Compiled, Keyed, Open, Flattened, Holds, Governs, ExtraMember;
    var p, q, key := ps[i], qs[i], v.members[n].key;
    if Active(p) { ActiveCount(p, v, n); }
    if Active(p) && !Active(q) {
      KeyedFails(p, q, v, n);
    } else {
      KeyedPasses(p, q, v, n);
    }
    forall c | Active(q) && AppliesTo(q.schema, v, n, c)
      ensures PushedFor(qs, hi, hi', i, c)
    {
      assert Objects.Contains(qs, hi, hi', c);
      var k :| hi <= k < hi' && qs[k].schema == c;
      assert qs[k].parent == Some(i);
    }
    KeyedNext(l, ps, qs, hi, hi', v, n, i);
  }

  /** What the key event does to one position. */
  method KeyPosition(stack: ValidationStack, i: nat, key: string)
    requires stack.Valid() && i + 1 < stack.LayerStart()
    modifies stack`positions, stack`size
    ensures stack.Valid() && |old(stack.positions)| <= |stack.positions|
    ensures old(stack.size) <= stack.size
    ensures forall k :: 0 <= k < old(stack.size) && k != i ==> stack.positions[k] == old(stack.positions[k])
    ensures KeyEffect(old(stack.positions), stack.positions, old(stack.size), stack.size, i, key,
                      stack.LayerStart(), stack.depth)
  {
    hide IsLayer, ExtraMember, AtMost, Objects.GoverningPushed;
    ghost var ps, hi := stack.positions, stack.size;
    var p := stack.positions[i].(count := stack.positions[i].count + 1);
    stack.positions := stack.positions[i := p];
    KeepsLayer(stack, ps, i);
    ghost var rs := stack.positions;
    if p.result == Valid && p.schema.Value? && p.schema.data.ObjectData? {
      var result := Objects.ObjectKey(stack, i, key);
      assert forall k :: 0 <= k < hi ==> stack.positions[k] == stack.positions[..hi][k];
      p, rs := stack.positions[i].(result := result), stack.positions;
    }
    stack.positions := stack.positions[i := p.(objectKey := Some(key))];
    KeepsLayer(stack, rs, i);
    if AwaitsMembers(ps[i]) && Active(p) {
      GoverningKept(rs, stack.positions, hi, stack.size, i, stack.LayerStart(), stack.depth, p.schema.data, key);
    }
  }

  lemma GoverningKept(ps: seq<Position>, qs: seq<Position>, lo: nat, hi: nat, i: nat, start: nat, depth: nat,
                      data: Data, key: string)
    requires data.ObjectData? && Objects.GoverningPushed(ps, lo, hi, i, start, depth, data, key)
    requires |qs| == |ps| && forall k :: lo <= k < hi ==> qs[k] == ps[k]
    ensures Objects.GoverningPushed(qs, lo, hi, i, start, depth, data, key)
  {
    hide Governs;
    forall c | Governs(data, key, c)
      ensures Objects.Contains(qs, lo, hi, c)
    {
      assert Objects.Contains(ps, lo, hi, c);
      var k :| lo <= k < hi && ps[k].schema == c;
      assert qs[k].schema == c;
    }
  }

  lemma KeepsLayer(stack: ValidationStack, ps: seq<Position>, i: nat)
    requires IsLayer(ps, stack.LayerStart(), stack.size, stack.depth)
    requires i < stack.LayerStart() && |ps| == |stack.positions|
    requires forall k :: 0 <= k < |ps| && k != i ==> stack.positions[k] == ps[k]
    ensures IsLayer(stack.positions, stack.LayerStart(), stack.size, stack.depth)
  {
  }

  lemma ActiveCount(p: Position, v: Json, n: nat)
    requires n <= Length(v) && Open(p, v, n, |Children(p.schema)|) && Active(p)
    ensures p.count == n
  {
    hide Children, Verdict, TallyFrom, PrefixOk;
  }

  /** Pushing a separator opens an empty layer above `l`. */
  lemma SeparatorPushed(l: Layer, ps: seq<Position>, qs: seq<Position>, v: Json, n: nat)
    requires Holds(l, ps, v) && l.end < |qs| && qs[..l.end] == ps[..l.end]
    ensures Holds(l, qs, v) && ElementPushedUpTo(l, qs, l.end + 1, v, n, l.start)
    ensures forall i :: l.start <= i < l.end ==> qs[i] == ps[i]
  {
    hide Children, Compiled, Flattened, Rejects;
    FlattenedBounds(ps, l.start, l.end, l.end, l.kids, v);
    assert forall k :: 0 <= k < l.end ==> qs[k] == qs[..l.end][k] == ps[..l.end][k] == ps[k];
    HoldsKept(l, ps, qs, v);
  }

  method ObjectKey(stack: ValidationStack, key: string, ghost l: Layer, ghost v: Json, ghost n: nat)
    requires v.Object? && n < |v.members| && key == v.members[n].key
    requires OnTop(stack, l) && Stage(l, stack.positions, v, n)
    modifies stack
    ensures |old(stack.positions)| <= |stack.positions|
    ensures Holds(l, stack.positions, v) && UnderNewLayer(stack, l, v, n)
    ensures forall i :: l.start <= i < l.end ==> Keyed(stack.positions[i], v, n)
    ensures l.start > 0 ==> stack.positions[l.start - 1] == old(stack.positions[stack.LayerStart() - 1])
  {
    hide Children, Compiled, Keyed, Open, Flattened, Holds, AppliesTo, KeyEffect, IsLayer, ElementPushedUpTo, Fresh;
    ghost var ps := stack.positions;
    var index := stack.IteratorStart();
    stack.PushSeparator();
    SeparatorPushed(l, ps, stack.positions, v, n);
    InsideLayer(l, stack.positions, v);
    assert l.start > 0 ==> stack.positions[l.start - 1] == stack.positions[..l.end][l.start - 1] == ps[l.start - 1];
    var position, next := stack.IteratorNext(index);
    ghost var x := l.start;
    while position.Some?
      invariant stack.Valid() && l.start <= x <= l.end < stack.size
      invariant |ps| <= |stack.positions|
      invariant l.start > 0 ==> stack.positions[l.start - 1] == ps[l.start - 1]
      invariant stack.lastSeparator == Some(l.end) && stack.depth == l.depth + 1
      invariant stack.positions[l.end].parent == l.separator
      invariant KeyedUpTo(l, stack.positions, stack.size, v, n, x)
      invariant if x < l.end then position == Some(x) && next == x + 1 else position == None
      decreases l.end - x
    {
      ghost var qs, hi := stack.positions, stack.size;
      KeyPosition(stack, position.value, key);
      KeyStep(l, qs, stack.positions, hi, stack.size, v, n, x);
      x := x + 1;
      InsideLayer(l, stack.positions, v);
      position, next := stack.IteratorNext(next);
    }
    LayerPushed(stack, l, v, n);
  }

  lemma InsideLayer(l: Layer, ps: seq<Position>, v: Json)
    requires Holds(l, ps, v)
    ensures l.start <= l.end <= |ps|
    ensures forall i :: l.start <= i < l.end ==> ps[i].positionType != Sentinel
  {
    LayerOf(l, ps, v);
  }

  lemma LayerPushed(stack: ValidationStack, l: Layer, v: Json, n: nat)
    requires stack.Valid() && stack.lastSeparator == Some(l.end) && stack.depth == l.depth + 1
    requires stack.positions[l.end].parent == l.separator
    requires ElementPushedUpTo(l, stack.positions, stack.size, v, n, l.end)
    ensures UnderNewLayer(stack, l, v, n)
  {
    hide Children, Compiled, AppliesTo;
  }

  lemma LayerOf(l: Layer, ps: seq<Position>, v: Json)
    requires Holds(l, ps, v)
    ensures IsLayer(ps, l.start, l.end, l.depth) && l.start <= l.basics <= l.end <= |ps| && l.basics <= |l.before|
    ensures Flattened(ps, l.start, l.end, l.end, l.kids, v)
  {
    hide Children, Compiled, Flattened;
    FlattenedBounds(ps, l.start, l.end, l.end, l.kids, v);
  }

  // ---- Reports ------------------------------------------------------------

  /** Propagates the result of position `k`, whose judged form is already in place of what
      it was in `ps`. */
  method Report(stack: ValidationStack, k: nat, ghost early: bool, ghost l: Layer, ghost ps: seq<Position>,
                ghost v: Json)
    requires Reporting(early, l, ps, v, k + 1) && l.start <= k < l.end <= |ps|
    requires |stack.positions| == |ps| && stack.positions == ps[k := stack.positions[k]]
    requires Slot(stack.positions[k]) == Slot(ps[k])
    requires early ==> v.Array? && stack.positions[k] == ps[k]
    requires !early ==> Settled(l, ps, stack.positions[k], v, k)
    modifies stack`positions
    ensures |stack.positions| == |ps|
    ensures Reporting(early, l, stack.positions, v, k)
    ensures l.start > 0 ==> stack.positions[l.start - 1] == ps[l.start - 1]
  {
    hide Compiled, Children, Reporting, ParentAfter, ChildAfter, Settled, Verdict;
    ghost var p := stack.positions[k];
    SlotFields(p, ps[k]);
    ReportingBounds(early, l, ps, v, k);
    ValidationResults.Propagate(stack, k);
    if k < l.basics {
      RejectedBasic(early, l, ps, p, v, k);
      ReportBasic(early, l, ps, v, k, p, stack.positions);
    } else {
      var i := ps[k].parent.value;
      assert stack.positions == ps[k := ChildAfter(p, ps[i])][i := ParentAfter(p, ps[i])];
      SettledComposed(early, l, ps, p, v, k);
      ReportComposed(early, l, ps, v, k, p, stack.positions);
    }
  }

  /** Position `k` has been judged, or need not be. */
  ghost predicate Settled(l: Layer, ps: seq<Position>, p: Position, v: Json, k: nat) {
    || Done(p, v)
    || (l.basics <= k < |ps| && ps[k].parent.Some? && ps[k].parent.value < |ps|
        && Judged(p, ps[ps[k].parent.value], v))
  }

  lemma ReportingBounds(early: bool, l: Layer, ps: seq<Position>, v: Json, k: nat)
    requires Reporting(early, l, ps, v, k + 1) && l.start <= k < l.end <= |ps|
    ensures l.basics <= l.end && ps[k].positionType != Sentinel
    ensures k < l.basics ==>
              ps[k].positionType == Basic && (ps[k].parent.Some? ==> ps[k].parent.value + 1 < l.start)
    ensures l.basics <= k ==>
              && ps[k].positionType == Composed && ps[k].composition != NoComposition
              && ps[k].parent.Some? && l.start <= ps[k].parent.value < k
  {
    hide Compiled, Children, PendingAt;
    if k < l.basics {
      assert IsBasic(ps[k], l.start);
    } else {
      ParentExpands(l, ps, v, k);
    }
  }

  lemma RejectedBasic(early: bool, l: Layer, ps: seq<Position>, p: Position, v: Json, k: nat)
    requires Reporting(early, l, ps, v, k + 1) && l.start <= k < l.basics <= l.end <= |ps|
    requires Slot(p) == Slot(ps[k])
    requires early ==> v.Array? && p == ps[k]
    requires !early ==> Settled(l, ps, p, v, k)
    ensures p.result == Invalid ==> !Verdict(ps[k].schema, v)
    ensures !early ==> Done(p, v)
  {
    hide Compiled, Children, Verdict, Early, EarlyTally;
    SlotFields(p, ps[k]);
    if early {
      TurnOf(early, l, ps, v, k);
      if p.result == Invalid {
        EarlyInvalid(p, v);
      }
    }
  }

  lemma EarlyInvalid(p: Position, v: Json)
    requires v.Array? && EarlyOpen(p, 0) && p.result == Invalid
    ensures !Verdict(p.schema, v)
  {
    NotEarlyRejects(p.schema, v);
  }

  lemma SettledComposed(early: bool, l: Layer, ps: seq<Position>, p: Position, v: Json, k: nat)
    requires Reporting(early, l, ps, v, k + 1) && l.basics <= k < l.end <= |ps|
    requires ps[k].parent.Some? && ps[k].parent.value < k
    requires !early ==> Settled(l, ps, p, v, k)
    ensures !early ==> Judged(p, ps[ps[k].parent.value], v)
  {
    hide Reporting, Done;
  }

  // ---- Arrays -------------------------------------------------------------

  /** What is pushed for the array position `p` before item `n`. */
  function NextItem(p: Position, n: nat): Option<Schema> {
    if Active(p) && p.schema.Value? && p.schema.data.ArrayData? then ItemSchema(p.schema.data, n) else None
  }

  lemma ItemStep(l: Layer, ps: seq<Position>, qs: seq<Position>, hi: nat, hi': nat, v: Json, n: nat, i: nat)
    requires v.Array? && n <= Length(v) && ElementPushedUpTo(l, ps, hi, v, n, i) && i < l.end
    requires Holds(l, qs, v) && hi <= hi' <= |qs|
    requires forall k :: 0 <= k < hi && k != i ==> qs[k] == ps[k]
    requires Slot(qs[i]) == Slot(ps[i])
    requires Arrays.ItemPushed(qs, hi, hi', i, l.end + 1, l.depth + 1, NextItem(qs[i], n))
    ensures ElementPushedUpTo(l, qs, hi', v, n, i + 1)
  {
    hide Children, Compiled, Holds, ItemSchema;
    if hi < hi' {
      assert AppliesTo(qs[i].schema, v, n, qs[hi].schema);
      LayerOf(l, qs, v);
      CompiledElement(l, qs, v, n, i, qs[hi].schema);
    }
    forall c | Active(qs[i]) && AppliesTo(qs[i].schema, v, n, c)
      ensures PushedFor(qs, hi, hi', i, c)
    {
      assert qs[hi].parent == Some(i) && qs[hi].schema == c;
    }
    PushedNext(l, ps, qs, hi, hi', v, n, i);
  }

  method ArrayStart(stack: ValidationStack, ghost v: Json) returns (ghost l: Layer)
    requires NewLayer(stack) && v.Array?
    modifies stack
    ensures |old(stack.positions)| <= |stack.positions|
    ensures Stage(l, stack.positions, v, 0) && UnderNewLayer(stack, l, v, 0)
    ensures l.before == old(stack.positions) && l.basics == old(stack.size)
    ensures l.start == old(stack.LayerStart()) && l.depth == old(stack.depth) && l.separator == old(stack.lastSeparator)
    ensures l.start > 0 ==> stack.positions[l.start - 1] == old(stack.positions[stack.LayerStart() - 1])
  {
    l := ArrayExpand(stack, v);
    ArrayPropagate(stack, l, v);
    FirstItems(stack, l, v);
  }

  /** First loop of `array_start`. */
  method ArrayExpand(stack: ValidationStack, ghost v: Json) returns (ghost l: Layer)
    requires NewLayer(stack) && v.Array?
    modifies stack`positions, stack`size
    ensures |old(stack.positions)| <= |stack.positions|
    ensures OnTop(stack, l) && Reporting(true, l, stack.positions, v, l.end)
    ensures l.before == old(stack.positions) && l.basics == old(stack.size)
    ensures l.start > 0 ==> stack.positions[l.start - 1] == old(stack.positions[stack.LayerStart() - 1])
  {
    hide Flattened, Compiled, Children, LayerWeight, Expanding;
    ghost var start, n0, kids := stack.LayerStart(), stack.size, [stack.size];
    ExpandingStart(stack.positions, start, n0, stack.depth, v);
    var index := stack.IteratorStart();
    var position, next := stack.IteratorNext(index);
    ghost var x := start;
    while position.Some?
      invariant stack.Valid() && stack.LayerStart() == start && start <= x <= stack.size && n0 <= stack.size
      invariant |old(stack.positions)| <= |stack.positions|
      invariant Expanding(old(stack.positions), stack.positions, start, x, n0, stack.size, kids, v)
      invariant if x < stack.size then position == Some(x) && next == x + 1 else position == None
      decreases if position.Some? then 1 + LayerWeight(stack.positions, x, stack.size) else 0
    {
      var i := position.value;
      var s := stack.positions[i].schema;
      ExpandPosition(stack, i, s.RefOnly? || s.data.MixedData? || s.data.ArrayData?, old(stack.positions), n0, kids, v);
      kids, x := kids + [stack.size], x + 1;
      position, next := stack.IteratorNext(next);
    }
    l := Layer(old(stack.positions), start, n0, stack.size, kids, stack.depth, stack.lastSeparator);
    EarlyPassStarts(l, stack.positions, v);
    BelowKept(l, stack.positions, v);
  }

  lemma BelowKept(l: Layer, ps: seq<Position>, v: Json)
    requires Expanding(l.before, ps, l.start, l.end, l.basics, l.end, l.kids, v)
    ensures |ps| >= l.start && |l.before| >= l.start
    ensures forall i :: 0 <= i < l.start ==> ps[i] == l.before[i]
  {
    hide Flattened, Compiled;
    FlattenedBounds(ps, l.start, l.end, l.end, l.kids, v);
    assert forall i :: 0 <= i < l.start ==> ps[i] == ps[..l.start][i] == l.before[..l.start][i];
  }

  /** Second loop of `array_start`: results propagate before any item has been seen. */
  method ArrayPropagate(stack: ValidationStack, ghost l: Layer, ghost v: Json)
    requires OnTop(stack, l) && v.Array? && Reporting(true, l, stack.positions, v, l.end)
    modifies stack`positions
    ensures |stack.positions| == |old(stack.positions)|
    ensures OnTop(stack, l) && Stage(l, stack.positions, v, 0)
    ensures l.start > 0 ==> stack.positions[l.start - 1] == old(stack.positions[stack.LayerStart() - 1])
  {
    hide Compiled, Children, PendingAt, Flattened, EarlyOpen, Open;
    var position, index, finished := stack.ReverseIteratorNext(stack.size, false);
    ghost var j := l.end;
    while position.Some?
      invariant OnTop(stack, l) && |stack.positions| == |old(stack.positions)|
      invariant l.start <= j <= l.end && Reporting(true, l, stack.positions, v, j)
      invariant if l.start < j then position == Some(j - 1) && index == j - 1 && finished == (index == 0)
                else position == None
      invariant l.start > 0 ==> stack.positions[l.start - 1] == old(stack.positions[stack.LayerStart() - 1])
      decreases j
    {
      ghost var ps := stack.positions;
      Report(stack, position.value, true, l, ps, v);
      j := j - 1;
      TopKept(stack, l, v);
      position, index, finished := stack.ReverseIteratorNext(index, finished);
    }
    EarlyPassEnds(l, stack.positions, v);
  }

  /** The stack stays valid while only results of a held layer change. */
  lemma TopKept(stack: ValidationStack, l: Layer, v: Json)
    requires Holds(l, stack.positions, v) && stack.size == l.end && stack.LayerStart() == l.start
    requires stack.depth == l.depth
    ensures l.end <= |stack.positions| && IsLayer(stack.positions, l.start, l.end, l.depth)
  {
    LayerOf(l, stack.positions, v);
  }

  method FirstItem(stack: ValidationStack, i: nat, ghost l: Layer, ghost v: Json)
    requires stack.Valid() && v.Array? && l.start <= i < l.end
    requires stack.lastSeparator == Some(l.end) && stack.depth == l.depth + 1
    requires Holds(l, stack.positions, v) && ElementPushedUpTo(l, stack.positions, stack.size, v, 0, i)
    requires Open(stack.positions[i], v, 0, |Children(stack.positions[i].schema)|)
    modifies stack`positions, stack`size
    ensures stack.Valid() && |old(stack.positions)| <= |stack.positions|
    ensures forall k :: 0 <= k <= l.end ==> stack.positions[k] == old(stack.positions[k])
    ensures Holds(l, stack.positions, v) && ElementPushedUpTo(l, stack.positions, stack.size, v, 0, i + 1)
  {
    hide Children, Compiled, Open, Flattened, AppliesTo, Rejects, Holds, PushedFor, IsLayer, ElementPushedUpTo;
    ghost var qs, hi := stack.positions, stack.size;
    var p := stack.positions[i];
    if p.result == Valid && p.schema.Value? && p.schema.data.ArrayData? {
      if !p.isFinal { ActiveCount(p, v, 0); }
      Arrays.ArrayStart(stack, i);
    }
    assert forall k :: 0 <= k < hi ==> stack.positions[k] == stack.positions[..hi][k] == qs[k];
    HoldsAt(l, qs, stack.positions, v, i);
    ItemStep(l, qs, stack.positions, hi, stack.size, v, 0, i);
  }

  /** Third loop of `array_start`. */
  method FirstItems(stack: ValidationStack, ghost l: Layer, ghost v: Json)
    requires OnTop(stack, l) && v.Array? && Stage(l, stack.positions, v, 0)
    modifies stack
    ensures |old(stack.positions)| <= |stack.positions|
    ensures Stage(l, stack.positions, v, 0) && UnderNewLayer(stack, l, v, 0)
    ensures l.start > 0 ==> stack.positions[l.start - 1] == old(stack.positions[stack.LayerStart() - 1])
  {
    hide Children, Compiled, Open, Flattened, Holds, AppliesTo, IsLayer, ElementPushedUpTo, Fresh;
    ghost var ps := stack.positions;
    var index := stack.IteratorStart();
    stack.PushSeparator();
    SeparatorPushed(l, ps, stack.positions, v, 0);
    InsideLayer(l, stack.positions, v);
    assert forall i :: 0 <= i < l.end ==> stack.positions[i] == stack.positions[..l.end][i] == ps[..l.end][i];
    var position, next := stack.IteratorNext(index);
    ghost var x := l.start;
    while position.Some?
      invariant stack.Valid() && l.start <= x <= l.end < stack.size && |ps| <= |stack.positions|
      invariant stack.lastSeparator == Some(l.end) && stack.depth == l.depth + 1
      invariant stack.positions[l.end].parent == l.separator
      invariant forall i :: 0 <= i < l.end ==> stack.positions[i] == ps[i]
      invariant Holds(l, stack.positions, v) && ElementPushedUpTo(l, stack.positions, stack.size, v, 0, x)
      invariant if x < l.end then position == Some(x) && next == x + 1 else position == None
      decreases l.end - x
    {
      assert Open(ps[x], v, 0, |Children(ps[x].schema)|);
      FirstItem(stack, position.value, l, v);
      x := x + 1;
      InsideLayer(l, stack.positions, v);
      position, next := stack.IteratorNext(next);
    }
    LayerPushed(stack, l, v, 0);
  }

  // ---- Array items --------------------------------------------------------

  /** Positions below `x` have counted item `n`; the others have only had it judged. */
  ghost predicate AppendedUpTo(l: Layer, ps: seq<Position>, hi: nat, v: Json, n: nat, x: nat)
    requires n < Length(v)
  {
    && Holds(l, ps, v)
    && ElementPushedUpTo(l, ps, hi, v, n + 1, x)
    && (forall i :: l.start <= i < x ==> Open(ps[i], v, n + 1, |Children(ps[i].schema)|))
    && (forall i :: x <= i < l.end ==> Counting(ps[i], v, n))
  }

  /** Item `n` has been judged but not counted. */
  ghost predicate Counting(p: Position, v: Json, n: nat)
    requires n < Length(v)
  {
    Open(p, v, n, |Children(p.schema)|) && (Active(p) ==> ElementOk(p.schema, v, n))
  }

  /** A position whose type is array, still undecided. */
  predicate AwaitsItems(p: Position) {
    Active(p) && p.schema.Value? && p.schema.data.ArrayData?
  }

  /** Item `n` breaks `maxItems` or is an extra one. */
  predicate Overflows(p: Position, n: nat) {
    AwaitsItems(p) && (!AtMost(p.schema.data.maxItems, n + 1) || ExtraItem(p.schema.data, n))
  }

  /** The position itself after item `n` has been counted. */
  function Appended(p: Position, n: nat): Position {
    if Overflows(p, n) then SetFinalResult(p, Invalid).(reason := KeywordReason, count := p.count + 1)
    else p.(count := p.count + 1)
  }

  lemma AppendedOpen(p: Position, v: Json, n: nat)
    requires v.Array? && n < Length(v) && Counting(p, v, n)
    ensures Open(Appended(p, n), v, n + 1, |Children(p.schema)|)
    ensures Overflows(p, n) ==> !Verdict(p.schema, v) && HasType(p.schema.data, v)
  {
    hide Children, AppliesTo, ExtraItem;
    var q := Appended(p, n);
    if Overflows(p, n) {
      UnadmittedMatters(p.schema, v, n);
      hide Verdict, PrefixOk, TallyFrom;
      assert Open(q, v, n + 1, |Children(p.schema)|);
    } else {
      hide Verdict, PrefixOk, TallyFrom;
      if Active(p) { ActiveCount(p, v, n); }
      assert Open(q.(count := n), v, n, |Children(p.schema)|);
      Advance(q, v, n);
    }
  }

  /** What a rejecting array child does to its parent is right. */
  lemma OverflowReported(l: Layer, ps: seq<Position>, v: Json, n: nat, k: nat, child: Position)
    requires v.Array? && n <= Length(v) && Holds(l, ps, v) && l.basics <= k < l.end <= |ps|
    requires Slot(child) == Slot(ps[k]) && child.isFinal && child.result == Invalid && child.reason == KeywordReason
    requires !Verdict(ps[k].schema, v) && ps[k].schema.Value? && HasType(ps[k].schema.data, v)
    requires ps[k].parent.Some? && l.start <= ps[k].parent.value < k
    requires var q := ps[ps[k].parent.value]; Open(q, v, n, |Children(q.schema)|)
    ensures var q := ps[ps[k].parent.value];
            var q' := ParentAfter(child, q);
            && (q' == q || q' == Failed(q))
            && Open(q', v, n, |Children(q.schema)|)
  {
    hide Children, Compiled, Verdict, PrefixOk, TallyFrom, HasType, Early;
    LayerOf(l, ps, v);
    ParentExpands(l, ps, v, k);
    SlotFields(child, ps[k]);
    var q := ps[ps[k].parent.value];
    var m := k - l.kids[ps[k].parent.value - l.start];
    if !q.isFinal && q.schema.Value? && child.composition in {TypeAny, TypeList, All} {
      FailingChild(q.schema, v, m);
      NotPlain(q.schema, m);
      RightfulFailure(q, v, n);
    }
  }

  lemma NotPlain(s: Schema, m: nat)
    requires m < |Children(s)|
    ensures !Plain(s)
  {
  }

  lemma FailingChild(s: Schema, v: Json, m: nat)
    requires s.Value? && m < |Children(s)| && Children(s)[m].composition in {TypeAny, TypeList, All}
    requires TypeApplies(Children(s)[m].schema, v) && !Verdict(Children(s)[m].schema, v)
    ensures !Verdict(s, v)
  {
    TallyStep(s, v, m);
    UnsoundRejects(s, v, m);
  }

  /** What counting item `n` makes of position `i`, of its parent, and what it pushes. */
  ghost predicate AppendEffect(ps: seq<Position>, qs: seq<Position>, hi: nat, hi': nat, i: nat, n: nat,
                               start: nat, depth: nat)
    requires i < hi <= |ps| && hi <= hi' <= |qs|
  {
    var p, q := ps[i], Appended(ps[i], n);
    && qs[i] == q
    && (forall k :: 0 <= k < hi && k != i && (Overflows(p, n) ==> p.parent != Some(k)) ==> qs[k] == ps[k])
    && (if Overflows(p, n) then
          && hi' == hi
          && (p.parent.Some? && p.parent.value < i ==>
                qs[p.parent.value] == if p.positionType == Composed then ParentAfter(q, ps[p.parent.value])
                                      else Failed(ps[p.parent.value]))
        else Arrays.ItemPushed(qs, hi, hi', i, start, depth, NextItem(q, n + 1)))
  }

  /** Propagation of an invalid result from below the top layer. */
  method PropagateInvalid(stack: ValidationStack, i: nat)
    requires stack.Valid() && i + 1 < stack.LayerStart() && stack.positions[i].positionType != Sentinel
    requires stack.positions[i].result == Invalid
    requires stack.positions[i].parent.Some? ==> stack.positions[i].parent.value < i
    requires stack.positions[i].positionType == Composed ==>
               stack.positions[i].parent.Some? && stack.positions[i].composition != NoComposition
    modifies stack`positions
    ensures stack.Valid() && |stack.positions| == |old(stack.positions)|
    ensures var p := old(stack.positions[i]);
            && (forall k :: 0 <= k < |stack.positions| && p.parent != Some(k) ==>
                  stack.positions[k] == old(stack.positions[k]))
            && (p.parent.Some? ==>
                  var q := old(stack.positions[p.parent.value]);
                  stack.positions[p.parent.value]
                  == if p.positionType == Composed then ParentAfter(p, q) else Failed(q))
  {
    hide IsLayer, ParentAfter;
    ghost var rs, p := stack.positions, stack.positions[i];
    ValidationResults.Propagate(stack, i);
    if p.parent.Some? {
      KeepsLayer(stack, rs, p.parent.value);
    }
  }

  /** What the append event does to one position. */
  method AppendPosition(stack: ValidationStack, i: nat, ghost n: nat)
    requires stack.Valid() && i + 1 < stack.LayerStart() && stack.positions[i].positionType != Sentinel
    requires AwaitsItems(stack.positions[i]) ==> stack.positions[i].count == n
    requires stack.positions[i].schema.Value? && stack.positions[i].schema.data.ArrayData? ==>
               stack.positions[i].isFinal || AwaitsItems(stack.positions[i])
    requires stack.positions[i].parent.Some? ==> stack.positions[i].parent.value < i
    requires stack.positions[i].positionType == Composed ==>
               stack.positions[i].parent.Some? && stack.positions[i].composition != NoComposition
    modifies stack`positions, stack`size
    ensures stack.Valid() && |old(stack.positions)| <= |stack.positions|
    ensures old(stack.size) <= stack.size
    ensures AppendEffect(old(stack.positions), stack.positions, old(stack.size), stack.size, i, n,
                         stack.LayerStart(), stack.depth)
  {
    hide IsLayer, ExtraItem, AtMost, ItemSchema, ParentAfter;
    ghost var ps := stack.positions;
    var p := stack.positions[i].(count := stack.positions[i].count + 1);
    stack.positions := stack.positions[i := p];
    KeepsLayer(stack, ps, i);
    if p.schema.Value? && p.schema.data.ArrayData? {
      AppendToArray(stack, i, ps, n);
    }
  }

  method AppendToArray(stack: ValidationStack, i: nat, ghost ps: seq<Position>, ghost n: nat)
    requires stack.Valid() && i + 1 < stack.LayerStart() && |ps| == |stack.positions|
    requires ps[i].schema.Value? && ps[i].schema.data.ArrayData? && ps[i].positionType != Sentinel
    requires stack.positions == ps[i := ps[i].(count := ps[i].count + 1)]
    requires if AwaitsItems(ps[i]) then ps[i].count == n else ps[i].isFinal
    requires ps[i].parent.Some? ==> ps[i].parent.value < i
    requires ps[i].positionType == Composed ==> ps[i].parent.Some? && ps[i].composition != NoComposition
    modifies stack`positions, stack`size
    ensures stack.Valid() && |old(stack.positions)| <= |stack.positions|
    ensures old(stack.size) <= stack.size
    ensures AppendEffect(ps, stack.positions, old(stack.size), stack.size, i, n, stack.LayerStart(), stack.depth)
  {
    hide IsLayer, ExtraItem, AtMost, ItemSchema, ParentAfter, Arrays.ItemPushed, Slot;
    ghost var hi := stack.size;
    var result := Arrays.ArrayAppend(stack, i);
    ghost var rs := stack.positions;
    assert forall k :: 0 <= k < hi ==> rs[k] == rs[..hi][k];
    if result != Valid {
      PropagateInvalid(stack, i);
    }
  }

  /** The layer itself after item `n` has been counted at position `i`. */
  lemma AppendHolds(l: Layer, ps: seq<Position>, qs: seq<Position>, hi: nat, hi': nat, v: Json, n: nat, i: nat)
    requires v.Array? && n < Length(v) && AppendedUpTo(l, ps, hi, v, n, i) && l.start <= i < l.end < hi
    requires i < hi <= |ps| && hi <= hi' <= |qs|
    requires AppendEffect(ps, qs, hi, hi', i, n, l.end + 1, l.depth + 1)
    ensures Holds(l, qs, v)
    ensures forall x :: 0 <= x < hi && x != i ==>
              qs[x] == ps[x] || (x < i && qs[x] == Failed(ps[x]))
    ensures Slot(qs[i]) == Slot(ps[i])
    ensures forall x :: l.start <= x < i ==> Open(qs[x], v, n + 1, |Children(qs[x].schema)|)
    ensures Open(qs[i], v, n + 1, |Children(qs[i].schema)|)
    ensures l.start > 0 ==> qs[l.start - 1] == ps[l.start - 1]
  {
    hide Children, Compiled, Open, Verdict, AppliesTo, ElementPushedUpTo, ParentAfter, Appended, Rejects, Counting,
      Overflows, Arrays.ItemPushed, NextItem;
    LayerOf(l, ps, v);
    var p, q := ps[i], qs[i];
    assert Counting(p, v, n);
    AppendedOpen(p, v, n);
    AppendedSlot(p, n);
    PositionInLayer(l, ps, v, i);
    if Overflows(p, n) && p.parent.Some? {
      var x := p.parent.value;
      if i >= l.basics {
        OverflowReported(l, ps, v, n + 1, i, q);
      } else {
        assert OnlyRejected(l.before, qs, l.start, l.start, l.basics, v) by {
          assert l.before[i].parent == Some(x) && l.before[i].schema == p.schema by {
            assert Slot(l.before[i]) == Slot(ps[i]);
            SlotFields(l.before[i], ps[i]);
          }
          assert Rejects(l.before, l.start, l.basics, x, v) by { RejectsBy(l.before, l.start, l.basics, i, x, v); }
        }
      }
      assert Slot(qs[x]) == Slot(ps[x]);
    }
    assert SameSlots(ps, qs, l.start, l.end);
    HoldsKept(l, ps, qs, v);
  }

  lemma RejectsBy(ps: seq<Position>, lo: nat, hi: nat, k: nat, i: nat, v: Json)
    requires lo <= k < hi <= |ps| && ps[k].parent == Some(i) && !Verdict(ps[k].schema, v)
    ensures Rejects(ps, lo, hi, i, v)
  {
  }

  lemma AppendedSlot(p: Position, n: nat)
    ensures Slot(Appended(p, n)) == Slot(p)
    ensures Overflows(p, n) ==>
              && Appended(p, n).isFinal && Appended(p, n).result == Invalid && Appended(p, n).reason == KeywordReason
              && p.schema.Value?
  {
  }

  /** Where the parent of a position of the layer lies. */
  lemma PositionInLayer(l: Layer, ps: seq<Position>, v: Json, i: nat)
    requires Holds(l, ps, v) && l.start <= i < l.end <= |ps|
    ensures ps[i].positionType != Sentinel
    ensures i < l.basics ==>
              ps[i].positionType == Basic && (ps[i].parent.Some? ==> ps[i].parent.value + 1 < l.start)
    ensures l.basics <= i ==>
              && ps[i].positionType == Composed && ps[i].composition != NoComposition
              && ps[i].parent.Some? && l.start <= ps[i].parent.value < i
  {
    hide Compiled, Children;
    if i < l.basics {
      assert IsBasic(ps[i], l.start);
    } else {
      ParentExpands(l, ps, v, i);
    }
  }

  lemma AppendStep(l: Layer, ps: seq<Position>, qs: seq<Position>, hi: nat, hi': nat, v: Json, n: nat, i: nat)
    requires v.Array? && n < Length(v) && AppendedUpTo(l, ps, hi, v, n, i) && l.start <= i < l.end < hi
    requires hi <= |ps| && hi <= hi' <= |qs|
    requires AppendEffect(ps, qs, hi, hi', i, n, l.end + 1, l.depth + 1)
    ensures AppendedUpTo(l, qs, hi', v, n, i + 1)
    ensures l.start > 0 ==> qs[l.start - 1] == ps[l.start - 1]
    ensures qs[l.end] == ps[l.end]
  {
    hide Children, Compiled, Open, Verdict, AppliesTo, ParentAfter, Holds, Counting, ItemSchema;
    AppendHolds(l, ps, qs, hi, hi', v, n, i);
    if Overflows(ps[i], n) {
      PushedNext(l, ps, qs, hi, hi', v, n + 1, i);
    } else {
      assert forall k :: 0 <= k < hi && k != i ==> qs[k] == ps[k];
      ItemStep(l, ps, qs, hi, hi', v, n + 1, i);
    }
  }

  method ArrayAppend(stack: ValidationStack, ghost l: Layer, ghost v: Json, ghost n: nat)
    requires v.Array? && n < Length(v) && OnTop(stack, l)
    requires Stage(l, stack.positions, v, n)
    requires forall i :: l.start <= i < l.end ==> Counting(stack.positions[i], v, n)
    modifies stack
    ensures |old(stack.positions)| <= |stack.positions|
    ensures Stage(l, stack.positions, v, n + 1) && UnderNewLayer(stack, l, v, n + 1)
    ensures l.start > 0 ==> stack.positions[l.start - 1] == old(stack.positions[stack.LayerStart() - 1])
  {
    hide Children, Compiled, Open, Flattened, Holds, AppliesTo, IsLayer, ElementPushedUpTo, Fresh, AppendEffect;
    ghost var ps := stack.positions;
    var index := stack.IteratorStart();
    stack.PushSeparator();
    SeparatorPushed(l, ps, stack.positions, v, n + 1);
    InsideLayer(l, stack.positions, v);
    assert l.start > 0 ==> stack.positions[l.start - 1] == stack.positions[..l.end][l.start - 1] == ps[l.start - 1];
    var position, next := stack.IteratorNext(index);
    ghost var x := l.start;
    while position.Some?
      invariant stack.Valid() && l.start <= x <= l.end < stack.size && |ps| <= |stack.positions|
      invariant stack.lastSeparator == Some(l.end) && stack.depth == l.depth + 1
      invariant stack.positions[l.end].parent == l.separator
      invariant AppendedUpTo(l, stack.positions, stack.size, v, n, x)
      invariant l.start > 0 ==> stack.positions[l.start - 1] == ps[l.start - 1]
      invariant if x < l.end then position == Some(x) && next == x + 1 else position == None
      decreases l.end - x
    {
      ghost var qs, hi := stack.positions, stack.size;
      PositionInLayer(l, qs, v, x);
      CountingState(qs[x], v, n);
      AppendPosition(stack, position.value, n);
      AppendStep(l, qs, stack.positions, hi, stack.size, v, n, x);
      x := x + 1;
      InsideLayer(l, stack.positions, v);
      position, next := stack.IteratorNext(next);
    }
    LayerPushed(stack, l, v, n + 1);
  }

  lemma CountingState(p: Position, v: Json, n: nat)
    requires v.Array? && n < Length(v) && Counting(p, v, n)
    ensures AwaitsItems(p) ==> p.count == n
    ensures p.schema.Value? && p.schema.data.ArrayData? ==> p.isFinal || AwaitsItems(p)
  {
    hide Children, Verdict, PrefixOk, TallyFrom, AppliesTo;
  }

  method ArrayEnd(stack: ValidationStack)
    requires stack.Valid() && stack.lastSeparator.Some?
    modifies stack`size, stack`depth, stack`lastSeparator
    ensures stack.size == old(stack.lastSeparator).value
    ensures stack.depth == old(stack.depth) - 1
    ensures stack.lastSeparator == stack.positions[old(stack.lastSeparator).value].parent
  {
    stack.LayerRemove();
  }

  // ---- The complete value -------------------------------------------------

  /** First loop of `value` for a scalar: every composition is expanded. */
  method ScalarExpand(stack: ValidationStack, ghost v: Json) returns (ghost l: Layer)
    requires NewLayer(stack) && !Container(v)
    modifies stack`positions, stack`size
    ensures |old(stack.positions)| <= |stack.positions|
    ensures OnTop(stack, l) && Stage(l, stack.positions, v, 0)
    ensures l.before == old(stack.positions) && l.basics == old(stack.size)
    ensures l.start > 0 ==> stack.positions[l.start - 1] == old(stack.positions[stack.LayerStart() - 1])
  {
    hide Flattened, Compiled, Children, LayerWeight, Expanding;
    ghost var start, n0, kids := stack.LayerStart(), stack.size, [stack.size];
    ExpandingStart(stack.positions, start, n0, stack.depth, v);
    var index := stack.IteratorStart();
    var position, next := stack.IteratorNext(index);
    ghost var x := start;
    while position.Some?
      invariant stack.Valid() && stack.LayerStart() == start && start <= x <= stack.size && n0 <= stack.size
      invariant |old(stack.positions)| <= |stack.positions|
      invariant Expanding(old(stack.positions), stack.positions, start, x, n0, stack.size, kids, v)
      invariant if x < stack.size then position == Some(x) && next == x + 1 else position == None
      decreases if position.Some? then 1 + LayerWeight(stack.positions, x, stack.size) else 0
    {
      var i := position.value;
      Unvisited(old(stack.positions), stack.positions, start, x, n0, stack.size, kids, v);
      if stack.positions[i].result == Valid {
        ExpandPosition(stack, i, true, old(stack.positions), n0, kids, v);
      }
      kids, x := kids + [stack.size], x + 1;
      position, next := stack.IteratorNext(next);
    }
    l := Layer(old(stack.positions), start, n0, stack.size, kids, stack.depth, stack.lastSeparator);
    ExpandedStage(l, stack.positions, v);
    BelowKept(l, stack.positions, v);
  }

  lemma Unvisited(before: seq<Position>, ps: seq<Position>, start: nat, x: nat, n0: nat, n: nat, kids: seq<nat>,
                  v: Json)
    requires Expanding(before, ps, start, x, n0, n, kids, v) && x < n <= |ps|
    ensures ps[x].result == Valid
  {
    hide Flattened, Compiled;
    assert ps[x] == Slot(ps[x]);
  }

  /** The judgement of a position whose children have all reported is its verdict. */
  lemma ValueDone(p: Position, v: Json, result: ValidationResult, reason: InvalidReason)
    requires Active(p) && Open(p, v, Length(v), 0)
    requires result == Valid <==>
               (p.schema.Value? ==>
                  && FlagsOk(p) && Enumerated(p.schema.enumeration, v)
                  && HasType(p.schema.data, v) && AtEndOk(p.schema.data, v))
    requires Plain(p.schema) && result == Invalid ==> (reason == TypeReason <==> !HasType(p.schema.data, v))
    ensures Done(p.(result := result, reason := reason), v)
  {
    hide Children, Plain, Open, HasType, PrefixOk, AtEndOk, LeafOk, TallyFrom, Verdict, FlagsOk, Satisfied, Shows;
    var s := p.schema;
    OpenShows(p, v);
    VerdictIs(s, v);
    FlagsSatisfied(p, TallyFrom(s, v, 0));
    if HasType(s.data, v) {
      LeafComplete(s, v);
    }
  }

  lemma OpenShows(p: Position, v: Json)
    requires Active(p) && Open(p, v, Length(v), 0)
    ensures p.schema.Value?
    ensures HasType(p.schema.data, v) ==> PrefixOk(p.schema, v, Length(v))
    ensures Shows(p, TallyFrom(p.schema, v, 0))
  {
    hide Children, HasType, PrefixOk, TallyFrom, Verdict, Expands;
  }

  lemma FlagsSatisfied(p: Position, t: Tally)
    requires p.schema.Value? && Shows(p, t)
    ensures FlagsOk(p) <==> Satisfied(p.schema, t)
  {
  }

  lemma VerdictIs(s: Schema, v: Json)
    requires s.Value?
    ensures Verdict(s, v) <==>
              && HasType(s.data, v) && Enumerated(s.enumeration, v) && LeafOk(s.data, v)
              && PrefixOk(s, v, Length(v)) && Satisfied(s, TallyFrom(s, v, 0))
  {
    hide Children, PrefixOk, LeafOk, HasType, TallyFrom;
    assert Verdict(s, v) <==> OwnOk(s, v) && Satisfied(s, TallyFrom(s, v, 0));
  }

  lemma ActiveReason(p: Position, v: Json, n: nat, m: nat)
    requires m <= |Children(p.schema)| && n <= Length(v) && Open(p, v, n, m) && Active(p)
    ensures p.reason != TypeReason
  {
    hide Children, PrefixOk, Verdict, TallyFrom;
  }

  lemma LeafComplete(s: Schema, v: Json)
    requires s.Value? && HasType(s.data, v) && PrefixOk(s, v, Length(v))
    ensures AtEndOk(s.data, v) <==> LeafOk(s.data, v)
  {
    hide Verdict, ExtraItem, ExtraMember, Governs, ItemSchema, HasKey, Equals;
  }

  /** Body of the second loop of `value`. */
  method JudgePosition(stack: ValidationStack, k: nat, v: Json, ghost l: Layer)
    requires Reporting(false, l, stack.positions, v, k + 1) && l.start <= k < l.end <= |stack.positions|
    modifies stack`positions
    ensures |stack.positions| == |old(stack.positions)|
    ensures Reporting(false, l, stack.positions, v, k)
    ensures l.start > 0 ==> stack.positions[l.start - 1] == old(stack.positions[l.start - 1])
  {
    hide Reporting, Compiled, Children, Open, Verdict, FlagsOk, HasType, AtEndOk, Plain, Done;
    ghost var ps := stack.positions;
    ReportingBounds(false, l, ps, v, k);
    Turn(l, ps, v, k);
    var p := stack.positions[k];
    assert ps == ps[k := p];
    if !p.isFinal && p.result == Valid
       && (p.composition != Any || !stack.positions[p.parent.value].anyOfValid) {
      var result := ValidateValue(stack, k, v);
      ActiveReason(p, v, Length(v), 0);
      ghost var reason :| && stack.positions == ps[k := p.(reason := reason)]
                          && (Plain(p.schema) && result == Invalid ==>
                                (reason == TypeReason <==> !HasType(p.schema.data, v)));
      stack.positions := stack.positions[k := stack.positions[k].(result := result)];
      ValueDone(p, v, result, reason);
    } else if !Active(p) {
      InactiveDone(p, v);
    }
    Report(stack, k, false, l, ps, v);
  }

  lemma Turn(l: Layer, ps: seq<Position>, v: Json, k: nat)
    requires Reporting(false, l, ps, v, k + 1) && l.start <= k < l.end <= |ps|
    ensures Open(ps[k], v, Length(v), 0)
    ensures ps[k].composition == Any ==> l.basics <= k
  {
    hide Compiled, Children, Open;
    TurnOf(false, l, ps, v, k);
    if k < l.basics {
      assert IsBasic(ps[k], l.start);
    }
  }

  lemma InactiveDone(p: Position, v: Json)
    requires !Active(p) && Open(p, v, Length(v), 0)
    ensures Done(p, v)
  {
    if !p.isFinal {
      WrongType(p.schema, v);
    }
    hide Children, Verdict, HasType, Expands, PrefixOk, TallyFrom;
  }

  lemma WrongType(s: Schema, v: Json)
    requires !Expands(s, v)
    ensures s.Value? && !HasType(s.data, v) && !Verdict(s, v)
  {
    hide Children;
  }

  /** The layer that `value` judges: already at its last stage, or not yet expanded. */
  ghost predicate Ready(stack: ValidationStack, l: Layer, v: Json)
    reads stack
  {
    if Container(v) then OnTop(stack, l) && Stage(l, stack.positions, v, Length(v))
    else NewLayer(stack) && l == TopLayer(stack)
  }

  /** The top layer is gone, and the one below it is on top again. */
  twostate predicate LayerGone(stack: ValidationStack)
    reads stack
  {
    if old(stack.lastSeparator).Some? then
      var separator := old(stack.lastSeparator).value;
      && separator < |old(stack.positions)|
      && stack.size == separator
      && stack.depth == old(stack.depth) - 1
      && stack.lastSeparator == old(stack.positions)[separator].parent
    else stack.size == 0 && stack.depth == 0 && stack.lastSeparator == None
  }

  /** The separator below the top layer, as an index and as the slot that `LayerRemove` reads. */
  ghost predicate Seated(stack: ValidationStack, l: Layer, ps: seq<Position>)
    reads stack
  {
    && 0 < stack.size == l.end && stack.LayerStart() == l.start
    && stack.depth == l.depth && stack.lastSeparator == l.separator
    && l.start <= |ps| && l.start <= |stack.positions|
    && (l.start > 0 ==> stack.positions[l.start - 1] == ps[l.start - 1])
    && (l.separator.Some? ==>
          && 0 < stack.depth
          && ps[l.separator.value].positionType == Sentinel
          && ps[l.separator.value].layerStart == l.separator.value)
  }

  lemma SeatedOnTop(stack: ValidationStack, l: Layer, ps: seq<Position>, v: Json, j: nat)
    requires Seated(stack, l, ps) && Reporting(false, l, stack.positions, v, j)
    ensures OnTop(stack, l) && l.start <= j <= l.end
  {
    hide Flattened, SameSlots, OnlyRejected, Told, PendingAt;
  }

  method Value(stack: ValidationStack, v: Json, ghost l: Layer)
    requires Ready(stack, l, v)
    modifies stack
    ensures LayerGone(stack) && |old(stack.positions)| <= |stack.positions|
    ensures l.start <= l.basics <= |l.before| && l.basics <= |stack.positions|
    ensures PassedDown(l.before, stack.positions, l.start, l.start, l.basics, v)
    ensures forall k :: l.start <= k < l.basics ==>
              (stack.positions[k].result == Valid <==> Verdict(l.before[k].schema, v))
  {
    hide Compiled, Children, PendingAt, Flattened, Open, Verdict, Rejects, Fresh, Reporting, Stage, PassedDown, IsLayer;
    ghost var m := l;
    if !v.Array? {
      if !v.Object? {
        m := ScalarExpand(stack, v);
      }
    }
    PassStarts(m, stack.positions, v);
    ghost var ps := stack.positions;
    var position, index, finished := stack.ReverseIteratorNext(stack.size, false);
    ghost var j := m.end;
    while position.Some?
      invariant Seated(stack, m, ps) && |old(stack.positions)| <= |stack.positions|
      invariant m.start <= j <= m.end <= |stack.positions| && Reporting(false, m, stack.positions, v, j)
      invariant if m.start < j then position == Some(j - 1) && index == j - 1 && finished == (index == 0)
                else position == None
      decreases j
    {
      JudgePosition(stack, position.value, v, m);
      j := j - 1;
      SeatedOnTop(stack, m, ps, v, j);
      position, index, finished := stack.ReverseIteratorNext(index, finished);
    }
    SeatedOnTop(stack, m, ps, v, j);
    PassEnds(m, stack.positions, v);
    stack.LayerRemove();
  }

  /** Result of the whole run: what is left in the root position. */
  method FinalResult(stack: ValidationStack) returns (result: ValidationResult)
    requires 0 < |stack.positions|
    ensures result == stack.positions[0].result
  {
    result := stack.positions[0].result;
  }
}
