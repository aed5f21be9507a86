/** The stages of one layer while an instance passes over it, and the lemmas that
    carry a layer from one stage to the next. */
module LayerStages {
  import opened Options
  import opened JsonValues
  import opened Schemas
  import opened Verdicts
  import opened ValidationStacks
  import opened Layers
  import opened ValidationResults
  import opened ValidationCompositions

  /** A layer that has been expanded: it was pushed on the memory `before` as the basic
      positions `start..basics` and now reaches to `end`. */
  datatype Layer = Layer(before: seq<Position>, start: nat, basics: nat, end: nat, kids: seq<nat>,
                         depth: nat, separator: Option<nat>)

  /** The memory still holds the layer, and below it only parents have failed, rightly. */
  ghost predicate Holds(l: Layer, ps: seq<Position>, v: Json) {
    && l.start <= l.basics <= |l.before|
    && Flattened(ps, l.start, l.end, l.end, l.kids, v)
    && l.kids[0] == l.basics
    && IsLayer(ps, l.start, l.end, l.depth)
    && SameSlots(l.before, ps, l.start, l.basics)
    && OnlyRejected(l.before, ps, l.start, l.start, l.basics, v)
  }

  /** Every position of the layer has seen `n` items or members, and no composition child
      has reported on the complete value yet. */
  ghost predicate Stage(l: Layer, ps: seq<Position>, v: Json, n: nat)
    requires n <= Length(v)
  {
    && Holds(l, ps, v)
    && forall i :: l.start <= i < l.end ==> Open(ps[i], v, n, |Children(ps[i].schema)|)
  }

  // ---- Entering a stage ---------------------------------------------------

  lemma StartedIsOpen(p: Position, v: Json)
    requires p == Started(Slot(p), v) && !v.Array? && Compiled(p.schema)
    ensures Open(p, v, 0, |Children(p.schema)|)
  {
    hide Compiled;
    var s := p.schema;
    assert TallyFrom(s, v, |Children(s)|) == EMPTY;
  }

  lemma StartedIsEarlyOpen(p: Position, v: Json)
    requires p == Started(Slot(p), v) && v.Array?
    ensures EarlyOpen(p, |Children(p.schema)|)
  {
    assert EarlyTally(p.schema, |Children(p.schema)|) == EMPTY;
  }

  lemma ExpandedHolds(l: Layer, ps: seq<Position>, v: Json)
    requires Expanding(l.before, ps, l.start, l.end, l.basics, l.end, l.kids, v)
    requires IsLayer(ps, l.start, l.end, l.depth)
    ensures Holds(l, ps, v)
  {
    hide Flattened, Compiled;
    FlattenedBounds(ps, l.start, l.end, l.end, l.kids, v);
    assert forall i :: 0 <= i < l.start ==> ps[i] == ps[..l.start][i] == l.before[..l.start][i];
  }

  lemma ExpandedStage(l: Layer, ps: seq<Position>, v: Json)
    requires Expanding(l.before, ps, l.start, l.end, l.basics, l.end, l.kids, v)
    requires IsLayer(ps, l.start, l.end, l.depth) && !v.Array?
    ensures Stage(l, ps, v, 0)
  {
    hide Compiled, Children, Open, Started;
    ExpandedHolds(l, ps, v);
    forall i | l.start <= i < l.end
      ensures Open(ps[i], v, 0, |Children(ps[i].schema)|)
    {
      assert ps[i] == Started(Slot(ps[i]), v);
      StartedIsOpen(ps[i], v);
    }
  }

  /** The judgement made at the start of an array is the base of the later one. */
  lemma EarlyIsOpen(p: Position, v: Json)
    requires v.Array? && EarlyOpen(p, 0)
    ensures Open(p, v, 0, |Children(p.schema)|)
  {
    var s := p.schema;
    assert TallyFrom(s, v, |Children(s)|) == EarlyTally(s, 0);
    if !Early(s) { NotEarlyRejects(s, v); }
  }

  // ---- One more item or member --------------------------------------------

  function Element(v: Json, n: nat): Json
    requires n < Length(v)
  {
    if v.Array? then v.items[n] else v.members[n].value
  }

  /** Schema `s` applies its subschema `c` to item or member `n`. */
  ghost predicate AppliesTo(s: Schema, v: Json, n: nat, c: Schema) {
    && s.Value?
    && ((v.Array? && s.data.ArrayData? && ItemSchema(s.data, n) == Some(c))
        || (v.Object? && s.data.ObjectData? && n < |v.members| && Governs(s.data, v.members[n].key, c)))
  }

  /** Item or member `n` is within what the schema's running counts and its `additional`
      keyword allow. */
  predicate Admits(s: Schema, v: Json, n: nat)
    requires n < Length(v)
  {
    s.Value? ==>
      && (v.Array? && s.data.ArrayData? ==> AtMost(s.data.maxItems, n + 1) && !ExtraItem(s.data, n))
      && (v.Object? && s.data.ObjectData? ==>
            AtMost(s.data.maxProperties, n + 1) && !ExtraMember(s.data, v.members[n].key))
  }

  lemma PrefixGrows(s: Schema, v: Json, n: nat)
    requires s.Value? && HasType(s.data, v) && n < Length(v)
    ensures PrefixOk(s, v, n + 1) <==>
              PrefixOk(s, v, n) && Admits(s, v, n) && forall c :: AppliesTo(s, v, n, c) ==> Verdict(c, Element(v, n))
  {
    hide Verdict, ItemSchema, Governs, ExtraItem, ExtraMember;
    if s.data.ArrayData? {
      assert forall c :: AppliesTo(s, v, n, c) <==> ItemSchema(s.data, n) == Some(c);
      if ItemSchema(s.data, n).Some? {
        assert AppliesTo(s, v, n, ItemSchema(s.data, n).value);
      }
    } else if s.data.ObjectData? {
      assert forall c :: AppliesTo(s, v, n, c) <==> Governs(s.data, v.members[n].key, c);
    }
  }

  lemma PrefixShorter(s: Schema, v: Json, n: nat)
    requires s.Value? && HasType(s.data, v) && n <= Length(v)
    ensures PrefixOk(s, v, Length(v)) ==> PrefixOk(s, v, n)
  {
    hide Verdict, ItemSchema, Governs, ExtraItem, ExtraMember;
  }

  lemma PrefixMatters(s: Schema, v: Json, n: nat)
    requires s.Value? && HasType(s.data, v) && n <= Length(v) && !PrefixOk(s, v, n)
    ensures !Verdict(s, v)
  {
    PrefixShorter(s, v, n);
  }

  lemma RejectedElementMatters(s: Schema, v: Json, n: nat, c: Schema)
    requires n < Length(v) && AppliesTo(s, v, n, c) && !Verdict(c, Element(v, n))
    ensures !Verdict(s, v)
  {
    PrefixGrows(s, v, n);
    PrefixMatters(s, v, n + 1);
  }

  lemma UnadmittedMatters(s: Schema, v: Json, n: nat)
    requires n < Length(v) && !Admits(s, v, n)
    ensures !Verdict(s, v)
  {
    PrefixGrows(s, v, n);
    PrefixMatters(s, v, n + 1);
  }

  // ---- The layer above it judges one item or member -----------------------

  ghost predicate PushedFor(ps: seq<Position>, lo: nat, hi: nat, i: nat, c: Schema)
    requires hi <= |ps|
  {
    exists k :: lo <= k < hi && ps[k].parent == Some(i) && ps[k].schema == c
  }

  /** A position that still counts. */
  predicate Active(p: Position) { !p.isFinal && p.result == Valid }

  /** The layer above `l` is fresh, and holds exactly the subschemas that the active
      positions of `l` below `x` apply to item or member `n`. */
  ghost predicate ElementPushedUpTo(l: Layer, ps: seq<Position>, hi: nat, v: Json, n: nat, x: nat)
  {
    && l.start <= x <= l.end < hi <= |ps|
    && (forall k :: l.end + 1 <= k < hi ==>
          && Fresh(ps[k], l.end + 1, l.depth + 1)
          && ps[k].parent.Some?
          && l.start <= ps[k].parent.value < x
          && AppliesTo(ps[ps[k].parent.value].schema, v, n, ps[k].schema))
    && (forall i, c :: l.start <= i < x && Active(ps[i]) && AppliesTo(ps[i].schema, v, n, c) ==>
          PushedFor(ps, l.end + 1, hi, i, c))
  }

  ghost predicate ElementPushed(l: Layer, ps: seq<Position>, hi: nat, v: Json, n: nat) {
    ElementPushedUpTo(l, ps, hi, v, n, l.end)
  }

  /** Position `x` of `l` has pushed what it applies to element `n`, or nothing. */
  lemma PushedNext(l: Layer, ps: seq<Position>, qs: seq<Position>, hi: nat, hi': nat, v: Json, n: nat, x: nat)
    requires ElementPushedUpTo(l, ps, hi, v, n, x) && x < l.end
    requires hi <= hi' <= |qs|
    requires forall k :: 0 <= k < hi && k != x ==> qs[k] == ps[k] || (k < x && qs[k] == Failed(ps[k]))
    requires Slot(qs[x]) == Slot(ps[x])
    requires forall k :: hi <= k < hi' ==>
               && qs[k] == BasicPosition(qs[k].schema, Some(x), l.end + 1, l.depth + 1)
               && Compiled(qs[k].schema)
               && AppliesTo(qs[x].schema, v, n, qs[k].schema)
    requires forall c :: Active(qs[x]) && AppliesTo(qs[x].schema, v, n, c) ==> PushedFor(qs, hi, hi', x, c)
    ensures ElementPushedUpTo(l, qs, hi', v, n, x + 1)
  {
    hide Children, Compiled, AppliesTo;
    SlotFields(ps[x], qs[x]);
    forall k | l.end + 1 <= k < hi'
      ensures
          && Fresh(qs[k], l.end + 1, l.depth + 1)
          && qs[k].parent.Some?
          && l.start <= qs[k].parent.value < x + 1
          && AppliesTo(qs[qs[k].parent.value].schema, v, n, qs[k].schema)
    {
      if k < hi { assert qs[k] == ps[k]; }
    }
    forall i, c | l.start <= i < x + 1 && Active(qs[i]) && AppliesTo(qs[i].schema, v, n, c)
      ensures PushedFor(qs, l.end + 1, hi', i, c)
    {
      if i < x {
        assert PushedFor(ps, l.end + 1, hi, i, c);
        var k :| l.end + 1 <= k < hi && ps[k].parent == Some(i) && ps[k].schema == c;
        assert qs[k].parent == Some(i) && qs[k].schema == c;
      } else {
        var k :| hi <= k < hi' && qs[k].parent == Some(x) && qs[k].schema == c;
      }
    }
  }

  /** The memory after the layer at `lo..hi` has passed its judgement on `v` down. */
  ghost predicate PassedDown(ps: seq<Position>, qs: seq<Position>, base: nat, lo: nat, hi: nat, v: Json)
    requires hi <= |ps|
  {
    && base <= |ps| && base <= |qs|
    && forall i :: 0 <= i < base ==> qs[i] == if Rejects(ps, lo, hi, i, v) then Failed(ps[i]) else ps[i]
  }

  /** Nothing that the schema applies to item or member `n` rejects it. */
  ghost predicate ElementOk(s: Schema, v: Json, n: nat)
    requires n < Length(v)
  {
    forall c :: AppliesTo(s, v, n, c) ==> Verdict(c, Element(v, n))
  }

  lemma RightfulFailure(p: Position, v: Json, n: nat)
    requires n <= Length(v) && Open(p, v, n, |Children(p.schema)|)
    requires !Verdict(p.schema, v) && Expands(p.schema, v)
    requires Plain(p.schema) ==> HasType(p.schema.data, v)
    ensures Open(Failed(p), v, n, |Children(p.schema)|)
  {
    hide Children, Verdict;
  }

  /** After the judgement of element `n`, an active position applied nothing that rejects. */
  lemma ElementJudged(l: Layer, ps: seq<Position>, qs: seq<Position>, hi: nat, v: Json, n: nat, i: nat, count: nat)
    requires n < Length(v) && ElementPushed(l, ps, hi, v, n)
    requires PassedDown(ps, qs, l.end, l.end + 1, hi, Element(v, n))
    requires l.start <= i < l.end && count <= n
    requires Open(ps[i].(count := count), v, count, |Children(ps[i].schema)|)
    ensures Slot(qs[i]) == Slot(ps[i]) && qs[i].count == ps[i].count
    ensures Open(qs[i].(count := count), v, count, |Children(qs[i].schema)|)
    ensures Active(qs[i]) ==> Active(ps[i]) && ElementOk(qs[i].schema, v, n)
  {
    hide Children, Compiled, Verdict, Governs, ItemSchema;
    var e := Element(v, n);
    if Rejects(ps, l.end + 1, hi, i, e) {
      var k :| l.end + 1 <= k < hi && ps[k].parent == Some(i) && !Verdict(ps[k].schema, e);
      RejectedElementMatters(ps[i].schema, v, n, ps[k].schema);
      RightfulFailure(ps[i].(count := count), v, count);
    } else if Active(qs[i]) {
      forall c | AppliesTo(ps[i].schema, v, n, c)
        ensures Verdict(c, e)
      {
        assert PushedFor(ps, l.end + 1, hi, i, c);
        var k :| l.end + 1 <= k < hi && ps[k].parent == Some(i) && ps[k].schema == c;
      }
    }
  }

  lemma HoldsAbove(l: Layer, ps: seq<Position>, qs: seq<Position>, hi: nat, v: Json, n: nat)
    requires n < Length(v) && Holds(l, ps, v) && ElementPushed(l, ps, hi, v, n)
    requires PassedDown(ps, qs, l.end, l.end + 1, hi, Element(v, n))
    ensures Holds(l, qs, v)
  {
    hide Children, Compiled, Verdict, AppliesTo, Flattened;
    assert l.start <= l.end;
    forall i | l.start <= i < l.end
      ensures Slot(ps[i]) == Slot(qs[i])
    {
    }
    FlattenedKept(ps, qs, l.start, l.end, l.end, l.kids, v);
    forall i | 0 <= i < l.start
      ensures qs[i] == ps[i]
    {
    }
    FlattenedBounds(ps, l.start, l.end, l.end, l.kids, v);
  }

  /** The count and the `additional` keywords have let member `n` pass. */
  ghost predicate Keyed(p: Position, v: Json, n: nat)
    requires n < Length(v)
  {
    && Open(p.(count := n), v, n, |Children(p.schema)|)
    && (Active(p) ==> p.count == n + 1 && Admits(p.schema, v, n))
  }

  lemma Advance(p: Position, v: Json, n: nat)
    requires n < Length(v) && Keyed(p, v, n) && (Active(p) ==> ElementOk(p.schema, v, n))
    ensures Open(p, v, n + 1, |Children(p.schema)|)
  {
    hide Children, Verdict, Admits, AppliesTo;
    if Active(p) && p.schema.Value? && HasType(p.schema.data, v) {
      PrefixGrows(p.schema, v, n);
    }
  }

  // ---- The reverse pass ----------------------------------------------------

  /** From which child on position `i` (counted from the start) has been reported to, when
      the reverse pass has come down to `j`. */
  function Pending(kids: seq<nat>, i: nat, j: nat): nat
    requires i + 1 < |kids| && kids[i] <= kids[i + 1]
  {
    if j >= kids[i + 1] then kids[i + 1] - kids[i]
    else if j <= kids[i] then 0
    else j - kids[i]
  }

  /** `early` tells the pass at the start of an array from the one on the complete value. */
  ghost predicate OpenAt(early: bool, p: Position, v: Json, m: nat)
    requires m <= |Children(p.schema)|
  {
    if early then EarlyOpen(p, m) else Open(p, v, Length(v), m)
  }

  ghost predicate PendingAt(early: bool, l: Layer, ps: seq<Position>, v: Json, j: nat, i: nat)
    requires Flattened(ps, l.start, l.end, l.end, l.kids, v) && l.start <= i < l.end
  {
    && Pending(l.kids, i - l.start, j) <= |Children(ps[i].schema)|
    && OpenAt(early, ps[i], v, Pending(l.kids, i - l.start, j))
  }

  /** The reverse pass has come down to `j`: what lies below still awaits its reports, and
      the basic positions from `j` on have been reported to the layer below.  The early pass
      leaves what it has visited as it is. */
  ghost predicate Reporting(early: bool, l: Layer, ps: seq<Position>, v: Json, j: nat) {
    && Holds(l, ps, v)
    && l.start <= j <= l.end
    && (forall i :: l.start <= i < (if early then l.end else j) ==> PendingAt(early, l, ps, v, j, i))
    && (!early ==> Told(l, ps, v, j))
  }

  /** The basic positions from `j` on are settled, and the layer below has been told. */
  ghost predicate Told(l: Layer, ps: seq<Position>, v: Json, j: nat)
    requires Holds(l, ps, v)
  {
    && (forall i :: 0 <= i < l.start && Rejects(l.before, j, l.basics, i, v) ==> ps[i] == Failed(l.before[i]))
    && (forall k :: j <= k < l.basics ==> Done(ps[k], v))
  }

  lemma BlockSize(l: Layer, ps: seq<Position>, v: Json, i: nat)
    requires Flattened(ps, l.start, l.end, l.end, l.kids, v) && l.start <= i < l.end
    ensures i < l.kids[i - l.start] <= l.kids[i - l.start + 1] <= l.end
    ensures l.kids[i - l.start + 1] - l.kids[i - l.start] == ChildCount(ps[i].schema, v)
  {
    hide Children, Compiled, ChildCount;
    assert BlockSized(ps, l.start, l.kids, v, i);
    assert l.kids[i - l.start + 1] <= l.kids[l.end - l.start];
  }

  /** Only the parent of position `k` awaits the report of `k`. */
  lemma PendingStep(l: Layer, ps: seq<Position>, v: Json, k: nat, i: nat)
    requires Flattened(ps, l.start, l.end, l.end, l.kids, v)
    requires l.start <= i < l.end && k < l.end
    ensures l.kids[i - l.start] <= l.kids[i - l.start + 1]
    ensures k <= i ==> Pending(l.kids, i - l.start, k) == Pending(l.kids, i - l.start, k + 1) == 0
    ensures k < l.kids[0] || (ps[k].parent != Some(i)) ==>
              Pending(l.kids, i - l.start, k) == Pending(l.kids, i - l.start, k + 1)
    ensures l.kids[0] <= k && ps[k].parent == Some(i) ==>
              && Pending(l.kids, i - l.start, k) == k - l.kids[i - l.start]
              && Pending(l.kids, i - l.start, k + 1) == k - l.kids[i - l.start] + 1
  {
    hide Children, Compiled, ChildCount;
    BlockSize(l, ps, v, i);
    if l.kids[0] <= k {
      FlattenedBounds(ps, l.start, l.end, l.end, l.kids, v);
      assert InBlock(ps, l.start, l.end, l.kids, k);
      var q := ps[k].parent.value - l.start;
      if q < i - l.start {
        assert l.kids[q + 1] <= l.kids[i - l.start];
      } else if q > i - l.start {
        assert l.kids[i - l.start + 1] <= l.kids[q];
      }
    }
  }

  lemma HoldsKept(l: Layer, ps: seq<Position>, qs: seq<Position>, v: Json)
    requires Holds(l, ps, v) && SameSlots(ps, qs, l.start, l.end)
    requires OnlyRejected(l.before, qs, l.start, l.start, l.basics, v)
    ensures Holds(l, qs, v)
  {
    hide Children, Compiled, Flattened, OnlyRejected;
    FlattenedBounds(ps, l.start, l.end, l.end, l.kids, v);
    FlattenedKept(ps, qs, l.start, l.end, l.end, l.kids, v);
    forall i | l.start <= i < l.end
      ensures qs[i].positionType == ps[i].positionType && qs[i].layerStart == ps[i].layerStart
      ensures qs[i].depth == ps[i].depth
    {
      SlotFields(ps[i], qs[i]);
    }
  }

  /** The parent of a composed position has been expanded. */
  lemma ParentExpands(l: Layer, ps: seq<Position>, v: Json, k: nat)
    requires Flattened(ps, l.start, l.end, l.end, l.kids, v) && l.kids[0] <= k < l.end
    ensures ps[k].parent.Some? && l.start <= ps[k].parent.value < k
    ensures var i := ps[k].parent.value;
            && Expands(ps[i].schema, v) && Compiled(ps[i].schema)
            && l.kids[i - l.start] <= k
            && Offspring(ps[k], ps[i], k - l.kids[i - l.start])
  {
    hide Children, Compiled, Expands;
    assert InBlock(ps, l.start, l.end, l.kids, k);
    var i := ps[k].parent.value;
    BlockSize(l, ps, v, i);
  }

  /** A position whose children have all reported, at its turn in the reverse pass. */
  lemma TurnOf(early: bool, l: Layer, ps: seq<Position>, v: Json, k: nat)
    requires Reporting(early, l, ps, v, k + 1) && l.start <= k
    ensures OpenAt(early, ps[k], v, 0)
  {
    hide Children, Compiled, OpenAt;
    BlockSize(l, ps, v, k);
    assert PendingAt(early, l, ps, v, k + 1, k);
  }

  /** Updating positions `k` and `i` of the layer, slots kept, keeps the layer. */
  lemma HoldsUpdated(l: Layer, ps: seq<Position>, qs: seq<Position>, v: Json, k: nat, i: nat)
    requires Holds(l, ps, v) && |qs| == |ps|
    requires l.start <= k < l.end && l.start <= i < l.end
    requires forall x :: 0 <= x < |ps| && x != k && x != i ==> qs[x] == ps[x]
    requires Slot(qs[k]) == Slot(ps[k]) && Slot(qs[i]) == Slot(ps[i])
    ensures Holds(l, qs, v)
  {
    hide Children, Compiled, Flattened, Rejects, IsLayer;
    FlattenedBounds(ps, l.start, l.end, l.end, l.kids, v);
    HoldsKept(l, ps, qs, v);
  }

  lemma ToldUpdated(l: Layer, ps: seq<Position>, qs: seq<Position>, v: Json, k: nat)
    requires Holds(l, ps, v) && Holds(l, qs, v) && |qs| == |ps| && l.basics <= k
    requires Told(l, ps, v, k + 1)
    requires forall x :: 0 <= x < l.start ==> qs[x] == ps[x]
    ensures Told(l, qs, v, k)
  {
    hide Flattened, Verdict, IsLayer, SameSlots, OnlyRejected;
  }

  /** The report of a composed position, as `ParentAfter` puts it. */
  lemma ReportComposed(early: bool, l: Layer, ps: seq<Position>, v: Json, k: nat, p: Position, qs: seq<Position>)
    requires Reporting(early, l, ps, v, k + 1) && l.basics <= k
    requires ps[k].parent.Some? && ps[k].parent.value < k
    requires Slot(p) == Slot(ps[k])
    requires early ==> v.Array? && p == ps[k]
    requires !early ==> Judged(p, ps[ps[k].parent.value], v)
    requires var i := ps[k].parent.value;
             qs == ps[k := ChildAfter(p, ps[i])][i := ParentAfter(p, ps[i])]
    ensures Reporting(early, l, qs, v, k)
  {
    hide Children, Compiled, Flattened, EarlyOpen, Open, Judged, Done, ParentAfter, ChildAfter, IsLayer, SameSlots,
      OnlyRejected, OpenAt, Rejects;
    FlattenedBounds(ps, l.start, l.end, l.end, l.kids, v);
    ParentExpands(l, ps, v, k);
    var i := ps[k].parent.value;
    SlotsAfter(p, ps[i]);
    HoldsUpdated(l, ps, qs, v, k, i);
    if !early { ToldUpdated(l, ps, qs, v, k); }
    TurnOf(early, l, ps, v, k);
    forall x | l.start <= x < (if early then l.end else k)
      ensures PendingAt(early, l, qs, v, k, x)
    {
      assert PendingAt(early, l, ps, v, k + 1, x);
      PendingStep(l, ps, v, k, x);
      if x == i {
        ReportAt(early, p, ps[k], ps[i], v, k - l.kids[i - l.start]);
        SlotFields(qs[i], ps[i]);
      } else if x == k {
        SlotFields(qs[k], ps[k]);
        ChildAfterOpen(p, ps[i], v);
      }
    }
  }

  lemma ChildAfterOpen(child: Position, parent: Position, v: Json)
    requires OpenAt(true, child, v, 0)
    ensures OpenAt(true, ChildAfter(child, parent), v, 0)
  {
    hide Children, EarlyTally, Early, Plain;
  }

  lemma SlotsAfter(child: Position, parent: Position)
    ensures Slot(ChildAfter(child, parent)) == Slot(child)
    ensures Slot(ParentAfter(child, parent)) == Slot(parent)
  {
  }

  lemma ReportAt(early: bool, p: Position, child: Position, parent: Position, v: Json, m: nat)
    requires Slot(p) == Slot(child) && Compiled(parent.schema) && Expands(parent.schema, v)
    requires Offspring(child, parent, m)
    requires OpenAt(early, parent, v, m + 1)
    requires early ==> v.Array? && p == child && OpenAt(true, child, v, 0)
    requires !early ==> Judged(p, parent, v)
    ensures OpenAt(early, ParentAfter(p, parent), v, m)
  {
    SlotFields(p, child);
    assert parent.isFinal || parent.result == Valid by {
      hide Children, Compiled, TallyFrom, EarlyTally, Verdict, Early;
    }
    hide Children, Compiled, EarlyOpen, Open, Judged, ParentAfter;
    assert Offspring(p, parent, m);
    if early {
      EarlyReport(p, parent, m);
    } else {
      Report(p, parent, v, m);
    }
  }

  /** The layer below after the report of basic position `k`. */
  ghost predicate BasicReported(l: Layer, ps: seq<Position>, k: nat, p: Position, qs: seq<Position>)
    requires l.start <= k < |ps|
  {
    && |qs| == |ps| && qs[k] == p
    && (forall x :: l.start <= x < |ps| && x != k ==> qs[x] == ps[x])
    && (forall x :: 0 <= x < l.start ==>
          qs[x] == if p.parent == Some(x) && p.result == Invalid then Failed(ps[x]) else ps[x])
  }

  lemma HoldsReported(l: Layer, ps: seq<Position>, v: Json, k: nat, p: Position, qs: seq<Position>)
    requires Holds(l, ps, v) && l.start <= k < l.basics <= l.end <= |ps|
    requires Slot(p) == Slot(ps[k]) && BasicReported(l, ps, k, p, qs)
    requires p.result == Invalid ==> !Verdict(ps[k].schema, v)
    ensures Holds(l, qs, v)
  {
    hide Children, Compiled, Flattened, Verdict, IsLayer;
    SlotFields(p, ps[k]);
    assert Slot(l.before[k]) == Slot(ps[k]);
    SlotFields(l.before[k], ps[k]);
    if p.parent.Some? && p.result == Invalid {
      assert Rejects(l.before, l.start, l.basics, p.parent.value, v);
    }
    HoldsKept(l, ps, qs, v);
  }

  lemma ToldReported(l: Layer, ps: seq<Position>, v: Json, k: nat, p: Position, qs: seq<Position>)
    requires Holds(l, ps, v) && Holds(l, qs, v) && l.start <= k < l.basics <= l.end <= |ps|
    requires Slot(p) == Slot(ps[k]) && BasicReported(l, ps, k, p, qs)
    requires Told(l, ps, v, k + 1) && Done(p, v)
    ensures Told(l, qs, v, k)
  {
    hide Children, Compiled, Flattened, Verdict, IsLayer;
    SlotFields(p, ps[k]);
    assert Slot(l.before[k]) == Slot(ps[k]);
    SlotFields(l.before[k], ps[k]);
    forall i | 0 <= i < l.start && Rejects(l.before, k, l.basics, i, v)
      ensures qs[i] == Failed(l.before[i])
    {
      if !Rejects(l.before, k + 1, l.basics, i, v) {
        assert l.before[k].parent == Some(i) && !Verdict(l.before[k].schema, v);
      }
    }
    forall x | k <= x < l.basics
      ensures Done(qs[x], v)
    {
      assert x > k ==> Done(ps[x], v);
    }
  }

  /** The report of a basic position to the layer below. */
  lemma ReportBasic(early: bool, l: Layer, ps: seq<Position>, v: Json, k: nat, p: Position, qs: seq<Position>)
    requires Reporting(early, l, ps, v, k + 1) && l.start <= k < l.basics <= l.end <= |ps|
    requires Slot(p) == Slot(ps[k]) && BasicReported(l, ps, k, p, qs)
    requires p.result == Invalid ==> !Verdict(ps[k].schema, v)
    requires !early ==> Done(p, v)
    requires early ==> p == ps[k]
    ensures Reporting(early, l, qs, v, k)
  {
    hide Children, Compiled, Flattened, OpenAt, Verdict, Done, IsLayer, SameSlots, OnlyRejected, Rejects;
    HoldsReported(l, ps, v, k, p, qs);
    if !early { ToldReported(l, ps, v, k, p, qs); }
    forall x | l.start <= x < (if early then l.end else k)
      ensures PendingAt(early, l, qs, v, k, x)
    {
      assert PendingAt(early, l, ps, v, k + 1, x);
      PendingStep(l, ps, v, k, x);
      assert qs[x] == ps[x];
    }
  }

  /** Only position `x` of the layer has changed, and not its slot. */
  lemma HoldsAt(l: Layer, ps: seq<Position>, qs: seq<Position>, v: Json, x: nat)
    requires Holds(l, ps, v) && l.start <= x < l.end <= |ps| && l.end <= |qs|
    requires forall k :: 0 <= k < l.end && k != x ==> qs[k] == ps[k]
    requires Slot(qs[x]) == Slot(ps[x])
    ensures Holds(l, qs, v)
  {
    hide Children, Compiled, Flattened, Rejects, IsLayer;
    FlattenedBounds(ps, l.start, l.end, l.end, l.kids, v);
    HoldsKept(l, ps, qs, v);
  }

  // ---- Starting and finishing a pass --------------------------------------

  /** Before the early pass every position of the array's layer awaits all its children. */
  lemma EarlyPassStarts(l: Layer, ps: seq<Position>, v: Json)
    requires Expanding(l.before, ps, l.start, l.end, l.basics, l.end, l.kids, v)
    requires IsLayer(ps, l.start, l.end, l.depth) && v.Array?
    ensures Reporting(true, l, ps, v, l.end)
  {
    hide Compiled, Children, EarlyOpen, Started, Expands;
    ExpandedHolds(l, ps, v);
    FlattenedBounds(ps, l.start, l.end, l.end, l.kids, v);
    forall i | l.start <= i < l.end
      ensures PendingAt(true, l, ps, v, l.end, i)
    {
      assert ps[i] == Started(Slot(ps[i]), v);
      StartedIsEarlyOpen(ps[i], v);
      BlockSize(l, ps, v, i);
      if !Expands(ps[i].schema, v) { UnexpandedEarlyOpen(ps[i], v); }
    }
  }

  lemma UnexpandedEarlyOpen(p: Position, v: Json)
    requires p == Started(Slot(p), v) && v.Array? && !Expands(p.schema, v)
    ensures EarlyOpen(p, 0)
  {
    hide Children;
  }

  /** After the early pass the layer is at stage 0 of the items. */
  lemma EarlyPassEnds(l: Layer, ps: seq<Position>, v: Json)
    requires Reporting(true, l, ps, v, l.start) && v.Array?
    ensures Stage(l, ps, v, 0)
  {
    hide Compiled, Children, EarlyOpen, Open, Flattened;
    forall i | l.start <= i < l.end
      ensures Open(ps[i], v, 0, |Children(ps[i].schema)|)
    {
      assert PendingAt(true, l, ps, v, l.start, i);
      BlockSize(l, ps, v, i);
      EarlyIsOpen(ps[i], v);
    }
  }

  /** When all items or members have been seen, the reverse pass can start. */
  lemma PassStarts(l: Layer, ps: seq<Position>, v: Json)
    requires Stage(l, ps, v, Length(v))
    ensures Reporting(false, l, ps, v, l.end)
  {
    hide Compiled, Children, Open, Flattened, Expands;
    FlattenedBounds(ps, l.start, l.end, l.end, l.kids, v);
    forall i | l.start <= i < l.end
      ensures PendingAt(false, l, ps, v, l.end, i)
    {
      assert Open(ps[i], v, Length(v), |Children(ps[i].schema)|);
      BlockSize(l, ps, v, i);
      if !Expands(ps[i].schema, v) { UnexpandedOpen(ps[i], v); }
    }
  }

  lemma UnexpandedOpen(p: Position, v: Json)
    requires !Expands(p.schema, v) && Open(p, v, Length(v), |Children(p.schema)|)
    ensures Open(p, v, Length(v), 0)
  {
    hide Children, Verdict, PrefixOk;
  }

  /** After the reverse pass the layer below knows exactly which of its positions are
      rejected, and every basic position carries its verdict. */
  lemma PassEnds(l: Layer, ps: seq<Position>, v: Json)
    requires Reporting(false, l, ps, v, l.start)
    ensures l.start <= l.basics <= |l.before| && l.basics <= |ps|
    ensures PassedDown(l.before, ps, l.start, l.start, l.basics, v)
    ensures forall k :: l.start <= k < l.basics ==> (ps[k].result == Valid <==> Verdict(l.before[k].schema, v))
  {
    hide Compiled, Children, Flattened, Verdict, PendingAt;
    FlattenedBounds(ps, l.start, l.end, l.end, l.kids, v);
    forall k | l.start <= k < l.basics
      ensures ps[k].result == Valid <==> Verdict(l.before[k].schema, v)
    {
      assert Done(ps[k], v);
      SlotFields(l.before[k], ps[k]);
    }
  }
}
