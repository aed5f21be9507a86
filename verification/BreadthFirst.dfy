/** The order of an expanded layer: the pass that pushes children behind the position it
    visits (`src/schema/jso_schema_validation_composition.c`, lines 77-143) lays the
    composition trees of its starting positions out breadth first. */
module BreadthFirstLayers {
  import opened JsonValues
  import opened Schemas
  import opened Verdicts
  import opened ValidationStacks
  import opened Layers
  import opened LayerStages
  import opened ValidationCompositions

  /** The schemas of the composition children that are pushed on instance `v`. */
  function ChildSchemas(s: Schema, v: Json): (r: seq<Schema>)
    ensures |r| == ChildCount(s, v)
  {
    if Expands(s, v) then SchemasFrom(Children(s), 0) else []
  }

  function SchemasFrom(cs: seq<Child>, m: nat): (r: seq<Schema>)
    requires m <= |cs|
    ensures |r| == |cs| - m
    ensures forall i :: 0 <= i < |r| ==> r[i] == cs[m + i].schema
    decreases |cs| - m
  {
    if m == |cs| then [] else [cs[m].schema] + SchemasFrom(cs, m + 1)
  }

  function QueueWeight(queue: seq<Schema>): nat {
    if queue == [] then 0 else Weight(queue[0]) + QueueWeight(queue[1..])
  }

  lemma {:induction false} QueueWeightSplit(a: seq<Schema>, b: seq<Schema>)
    ensures QueueWeight(a + b) == QueueWeight(a) + QueueWeight(b)
  {
    if a == [] {
      assert a + b == b;
    } else {
      assert (a + b)[1..] == a[1..] + b;
      QueueWeightSplit(a[1..], b);
    }
  }

  lemma {:induction false} ChildrenQueueWeight(s: Schema, m: nat)
    requires m <= |Children(s)|
    ensures QueueWeight(SchemasFrom(Children(s), m)) == ChildrenWeight(s, m)
    decreases |Children(s)| - m
  {
    hide Children;
    if m < |Children(s)| {
      ChildrenQueueWeight(s, m + 1);
      assert SchemasFrom(Children(s), m)[1..] == SchemasFrom(Children(s), m + 1);
    }
  }

  lemma QueueShrinks(s: Schema, rest: seq<Schema>, v: Json)
    ensures QueueWeight(rest + ChildSchemas(s, v)) < QueueWeight([s] + rest)
  {
    QueueWeightSplit(rest, ChildSchemas(s, v));
    ChildrenQueueWeight(s, 0);
    assert ([s] + rest)[1..] == rest;
  }

  /** Breadth-first traversal of the composition trees of the queued schemas. */
  function BreadthFirst(queue: seq<Schema>, v: Json): seq<Schema>
    decreases QueueWeight(queue)
  {
    if queue == [] then []
    else
      assert queue == [queue[0]] + queue[1..];
      QueueShrinks(queue[0], queue[1..], v);
      [queue[0]] + BreadthFirst(queue[1..] + ChildSchemas(queue[0], v), v)
  }

  /** The schemas of the positions `lo..hi`. */
  function SchemasAt(ps: seq<Position>, lo: nat, hi: nat): (r: seq<Schema>)
    requires lo <= hi <= |ps|
    ensures |r| == hi - lo
    ensures forall i :: 0 <= i < |r| ==> r[i] == ps[lo + i].schema
  {
    seq(hi - lo, i requires 0 <= i < hi - lo => ps[lo + i].schema)
  }

  /** A visited position is followed by the rest of the queue and by its children. */
  lemma QueueSteps(ps: seq<Position>, x: nat, first: nat, last: nat, end: nat, kids: seq<Schema>)
    requires x < first <= last <= end <= |ps| && SchemasAt(ps, first, last) == kids
    ensures SchemasAt(ps, x, first)[0] == ps[x].schema
    ensures SchemasAt(ps, x, first)[1..] == SchemasAt(ps, x + 1, first)
    ensures SchemasAt(ps, x + 1, last) == SchemasAt(ps, x + 1, first) + kids
    ensures SchemasAt(ps, x, end) == [ps[x].schema] + SchemasAt(ps, x + 1, end)
  {
    hide SchemasAt;
  }

  /** The positions visited from `x` on are the breadth-first traversal of what is queued there. */
  lemma {:induction false} FlattenedFrom(ps: seq<Position>, start: nat, end: nat, kids: seq<nat>, v: Json, x: nat)
    requires Flattened(ps, start, end, end, kids, v) && start <= x <= end
    ensures x <= kids[x - start] <= end
    ensures SchemasAt(ps, x, end) == BreadthFirst(SchemasAt(ps, x, kids[x - start]), v)
    decreases end - x
  {
    hide Compiled, Children, InBlock;
    if x < end {
      FlattenedFrom(ps, start, end, kids, v, x + 1);
      assert BlockSized(ps, start, kids, v, x);
      BlockOfChildren(ps, start, end, kids, v, x);
      var first, last := kids[x - start], kids[x + 1 - start];
      hide SchemasAt, ChildSchemas, BlockSized, Flattened;
      QueueSteps(ps, x, first, last, end, ChildSchemas(ps[x].schema, v));
    }
  }

  lemma BlockOfChildren(ps: seq<Position>, start: nat, end: nat, kids: seq<nat>, v: Json, x: nat)
    requires Flattened(ps, start, end, end, kids, v) && start <= x < end
    ensures kids[x - start] <= kids[x + 1 - start] <= end
    ensures SchemasAt(ps, kids[x - start], kids[x + 1 - start]) == ChildSchemas(ps[x].schema, v)
  {
    hide Compiled, Children;
    assert BlockSized(ps, start, kids, v, x);
    var first, last := kids[x - start], kids[x + 1 - start];
    assert last <= kids[end - start];
    forall k | first <= k < last
      ensures ps[k].schema == ChildSchemas(ps[x].schema, v)[k - first]
    {
      assert InBlock(ps, start, end, kids, k);
      assert ps[k].parent.value == x;
    }
  }

  /** An expanded layer is exactly the breadth-first flattening of the composition trees
      of the positions it was pushed with, and every composed position lies above its parent. */
  lemma LayerIsBreadthFirst(l: Layer, ps: seq<Position>, v: Json)
    requires Holds(l, ps, v)
    ensures l.start <= l.basics <= l.end <= |ps|
    ensures SchemasAt(ps, l.start, l.end) == BreadthFirst(SchemasAt(l.before, l.start, l.basics), v)
    ensures forall k :: l.basics <= k < l.end ==>
              ps[k].positionType == Composed && ps[k].parent.Some? && l.start <= ps[k].parent.value < k
  {
    hide Compiled, Children, OnlyRejected;
    FlattenedFrom(ps, l.start, l.end, l.kids, v, l.start);
    forall i | l.start <= i < l.basics
      ensures l.before[i].schema == ps[i].schema
    {
      SlotFields(l.before[i], ps[i]);
    }
    assert SchemasAt(ps, l.start, l.basics) == SchemasAt(l.before, l.start, l.basics);
    forall k | l.basics <= k < l.end
      ensures ps[k].positionType == Composed && ps[k].parent.Some? && l.start <= ps[k].parent.value < k
    {
      assert InBlock(ps, l.start, l.end, l.kids, k);
    }
  }
}
