/** Expansion of one position into its composition children
    (`src/schema/jso_schema_validation_composition.c`). */
module ValidationCompositions {
  import opened Options
  import opened JsonValues
  import opened Schemas
  import opened Verdicts
  import opened ValidationStacks
  import opened Layers

  /** `pushed` are the children of position `i` in the memory `ps` from `first` on. */
  ghost predicate Pushed(ps: seq<Position>, first: nat, pushed: seq<Child>, i: nat, start: nat, depth: nat) {
    && first + |pushed| <= |ps|
    && forall m :: first <= m < first + |pushed| ==>
         ps[m] == ComposedPosition(pushed[m - first], i, start, depth)
  }

  /** `first` is the size of the stack before any child of `i` was pushed. */
  method PushSchemaObjects(stack: ValidationStack, i: nat, schemas: seq<Schema>, composition: CompositionType,
                           ghost first: nat, ghost pushed: seq<Child>)
    requires stack.Valid() && first + |pushed| == stack.size
    requires Pushed(stack.positions, first, pushed, i, stack.LayerStart(), stack.depth)
    modifies stack`positions, stack`size
    ensures stack.Valid() && stack.size == old(stack.size) + |schemas|
    ensures |old(stack.positions)| <= |stack.positions|
    ensures stack.positions[..first] == old(stack.positions[..first])
    ensures Pushed(stack.positions, first, pushed + Tagged(composition, schemas), i, stack.LayerStart(), stack.depth)
  {
    var j := 0;
    while j < |schemas|
      invariant 0 <= j <= |schemas|
      invariant stack.Valid() && stack.size == first + |pushed| + j
      invariant |old(stack.positions)| <= |stack.positions|
      invariant stack.positions[..first] == old(stack.positions[..first])
      invariant Pushed(stack.positions, first, pushed + Tagged(composition, schemas)[..j], i, stack.LayerStart(),
                       stack.depth)
    {
      PushSchemaObject(stack, i, schemas[j], composition, first, pushed + Tagged(composition, schemas)[..j]);
      assert pushed + Tagged(composition, schemas)[..j + 1]
          == pushed + Tagged(composition, schemas)[..j] + [Child(composition, schemas[j])];
      j := j + 1;
    }
    assert Tagged(composition, schemas)[..j] == Tagged(composition, schemas);
  }

  method PushSchemaObject(stack: ValidationStack, i: nat, schema: Schema, composition: CompositionType,
                          ghost first: nat, ghost pushed: seq<Child>)
    requires stack.Valid() && first + |pushed| == stack.size
    requires Pushed(stack.positions, first, pushed, i, stack.LayerStart(), stack.depth)
    modifies stack`positions, stack`size
    ensures stack.Valid() && stack.size == old(stack.size) + 1
    ensures |old(stack.positions)| <= |stack.positions|
    ensures stack.positions[..first] == old(stack.positions[..first])
    ensures Pushed(stack.positions, first, pushed + [Child(composition, schema)], i, stack.LayerStart(), stack.depth)
  {
    ghost var ps := stack.positions;
    var index := stack.PushComposed(schema, i, composition);
    assert stack.positions[..first] == stack.positions[..index][..first] == ps[..first];
    assert forall m :: first <= m < index ==> stack.positions[m] == stack.positions[..index][m] == ps[m];
  }

  /** Pushes the children of position `i`.  A reference keeps every other keyword away. */
  method CompositionPush(stack: ValidationStack, i: nat)
    requires stack.Valid() && i < stack.size
    modifies stack`positions, stack`size
    ensures stack.Valid()
    ensures stack.size == old(stack.size) + |Children(old(stack.positions[i].schema))|
    ensures |old(stack.positions)| <= |stack.positions|
    ensures stack.positions[..old(stack.size)] == old(stack.positions[..stack.size])
    ensures Pushed(stack.positions, old(stack.size), Children(old(stack.positions[i].schema)), i,
                   stack.LayerStart(), stack.depth)
  {
    var s := stack.positions[i].schema;
    ghost var first := stack.size;
    assert Pushed(stack.positions, first, [], i, stack.LayerStart(), stack.depth);
    hide Pushed, IsLayer;
    match s {
      case RefOnly(target) =>
        PushSchemaObject(stack, i, target, Ref, first, []);
        assert [] + [Child(Ref, target)] == Children(s);
      case Value(_, _, typeAny, typeList, allOf, anyOf, oneOf, not) =>
        ghost var c0 := Tagged(TypeAny, typeAny);
        ghost var c1 := c0 + Tagged(TypeList, ListedTypes(typeList));
        ghost var c2 := c1 + Tagged(All, allOf);
        ghost var c3 := c2 + Tagged(Any, anyOf);
        ghost var c4 := c3 + Tagged(One, oneOf);
        assert [] + c0 == c0;
        PushSchemaObjects(stack, i, typeAny, TypeAny, first, []);
        if typeList.Listed? {
          PushSchemaObjects(stack, i, typeList.types, TypeList, first, c0);
        } else {
          assert c1 == c0;
        }
        PushSchemaObjects(stack, i, allOf, All, first, c1);
        PushSchemaObjects(stack, i, anyOf, Any, first, c2);
        PushSchemaObjects(stack, i, oneOf, One, first, c3);
        if not.Some? {
          PushSchemaObject(stack, i, not.value, Not, first, c4);
          assert Tagged(Not, [not.value]) == [Child(Not, not.value)];
        } else {
          assert c4 + Tagged(Not, OptionalSchema(not)) == c4;
        }
    }
  }

  method CompositionCheck(stack: ValidationStack, i: nat)
    requires stack.Valid() && i < stack.size
    modifies stack`positions, stack`size
    ensures stack.Valid()
    ensures stack.size == old(stack.size) + |Children(old(stack.positions[i].schema))|
    ensures |old(stack.positions)| <= |stack.positions|
    ensures stack.positions[..old(stack.size)]
         == old(stack.positions[..stack.size][i := stack.positions[i].(result := Valid)])
    ensures Pushed(stack.positions, old(stack.size), Children(old(stack.positions[i].schema)), i,
                   stack.LayerStart(), stack.depth)
  {
    ghost var n := stack.size;
    CompositionPush(stack, i);
    assert stack.positions[i] == stack.positions[..n][i];
    ghost var ps := stack.positions;
    stack.positions := stack.positions[i := stack.positions[i].(result := Valid)];
    assert stack.positions[..n] == ps[..n][i := stack.positions[i]];
    assert stack.lastSeparator.Some? ==> stack.lastSeparator.value < n;
    assert forall m :: n <= m < stack.size ==> stack.positions[m] == ps[m];
  }

  /** Expanding the next position of a layer keeps the layer flattened. */
  lemma ExpandNext(ps: seq<Position>, qs: seq<Position>, start: nat, x: nat, n: nat, n': nat,
                   kids: seq<nat>, v: Json, depth: nat)
    requires Flattened(ps, start, x, n, kids, v) && x < n
    requires n' == n + ChildCount(ps[x].schema, v) && n' <= |qs|
    requires SameSlots(ps, qs, start, n)
    requires Expands(ps[x].schema, v) ==> Pushed(qs, n, Children(ps[x].schema), x, start, depth)
    ensures Flattened(qs, start, x + 1, n', kids + [n'], v)
  {
    hide Children, Compiled;
    FlattenedKept(ps, qs, start, x, n, kids, v);
    assert Slot(ps[x]) == Slot(qs[x]);
    SlotFields(ps[x], qs[x]);
    var kids', next := kids + [n'], x + 1;
    forall i | start <= i < x + 1
      ensures BlockSized(qs, start, kids', v, i)
    {
      if i < x { assert BlockSized(qs, start, kids, v, i); }
    }
    forall k | kids'[0] <= k < n'
      ensures InBlock(qs, start, next, kids', k)
    {
      if k < n {
        assert InBlock(qs, start, x, kids, k);
      } else {
        assert qs[k] == ComposedPosition(Children(qs[x].schema)[k - n], x, start, depth);
      }
    }
    forall k | start <= k < n'
      ensures Compiled(qs[k].schema)
    {
      if k >= n {
        assert qs[k] == ComposedPosition(Children(qs[x].schema)[k - n], x, start, depth);
        CompiledChild(qs[x].schema, k - n);
      }
    }
    forall k | start <= k < kids'[0]
      ensures IsBasic(qs[k], start)
    {
      assert IsBasic(qs[k], start);
    }
  }

  lemma CompiledChild(s: Schema, m: nat)
    requires Compiled(s) && m < |Children(s)|
    ensures Compiled(Children(s)[m].schema)
  {
  }

  // ---- The pass that pushes while it iterates ends ------------------------

  function Weight(s: Schema): nat
    decreases s, |Children(s)| + 1
  {
    1 + ChildrenWeight(s, 0)
  }

  function ChildrenWeight(s: Schema, m: nat): nat
    requires m <= |Children(s)|
    decreases s, |Children(s)| - m
  {
    if m == |Children(s)| then 0 else Weight(Children(s)[m].schema) + ChildrenWeight(s, m + 1)
  }

  function LayerWeight(ps: seq<Position>, lo: nat, hi: nat): nat
    requires lo <= hi <= |ps|
    decreases hi - lo
  {
    if lo == hi then 0 else Weight(ps[lo].schema) + LayerWeight(ps, lo + 1, hi)
  }

  lemma {:induction false} LayerWeightSplit(ps: seq<Position>, lo: nat, mid: nat, hi: nat)
    requires lo <= mid <= hi <= |ps|
    ensures LayerWeight(ps, lo, hi) == LayerWeight(ps, lo, mid) + LayerWeight(ps, mid, hi)
    decreases mid - lo
  {
    if lo < mid { LayerWeightSplit(ps, lo + 1, mid, hi); }
  }

  lemma {:induction false} LayerWeightKept(ps: seq<Position>, qs: seq<Position>, lo: nat, hi: nat)
    requires lo <= hi && SameSlots(ps, qs, lo, hi)
    ensures LayerWeight(ps, lo, hi) == LayerWeight(qs, lo, hi)
    decreases hi - lo
  {
    if lo < hi {
      SlotFields(ps[lo], qs[lo]);
      LayerWeightKept(ps, qs, lo + 1, hi);
    }
  }

  lemma {:induction false} PushedWeight(qs: seq<Position>, n: nat, s: Schema, m: nat, x: nat, start: nat, depth: nat)
    requires Pushed(qs, n, Children(s), x, start, depth) && m <= |Children(s)|
    ensures LayerWeight(qs, n + m, n + |Children(s)|) == ChildrenWeight(s, m)
    decreases |Children(s)| - m
  {
    if m < |Children(s)| {
      assert qs[n + m] == ComposedPosition(Children(s)[m], x, start, depth);
      PushedWeight(qs, n, s, m + 1, x, start, depth);
    }
  }

  /** A visited position is replaced by its children, which weigh less than it does. */
  lemma WeightDrops(ps: seq<Position>, qs: seq<Position>, start: nat, x: nat, n: nat, n': nat, v: Json, depth: nat)
    requires start <= x < n <= |ps|
    requires n' == n + ChildCount(ps[x].schema, v) && n' <= |qs|
    requires SameSlots(ps, qs, start, n)
    requires Expands(ps[x].schema, v) ==> Pushed(qs, n, Children(ps[x].schema), x, start, depth)
    ensures LayerWeight(qs, x + 1, n') < LayerWeight(ps, x, n)
  {
    hide Children, Pushed;
    LayerWeightKept(ps, qs, x + 1, n);
    LayerWeightSplit(qs, x + 1, n, n');
    if Expands(ps[x].schema, v) {
      PushedWeight(qs, n, ps[x].schema, 0, x, start, depth);
    }
  }

  // ---- A layer under expansion --------------------------------------------

  /** What the start of a container makes of a fresh position. */
  function Started(p: Position, v: Json): Position {
    if Expands(p.schema, v) then p else p.(result := Invalid, reason := TypeReason)
  }

  /** The layer `start..n` has grown from `start..n0` and is expanded up to `x`. */
  ghost predicate Expanding(before: seq<Position>, ps: seq<Position>, start: nat, x: nat, n0: nat, n: nat,
                            kids: seq<nat>, v: Json)
  {
    && start <= n0 <= |before|
    && Flattened(ps, start, x, n, kids, v)
    && kids[0] == n0
    && SameSlots(before, ps, start, n0)
    && ps[..start] == before[..start]
    && (forall i :: start <= i < x ==> ps[i] == Started(Slot(ps[i]), v))
    && (forall i :: x <= i < n ==> ps[i] == Slot(ps[i]))
  }

  lemma ExpandingStart(ps: seq<Position>, start: nat, n: nat, depth: nat, v: Json)
    requires start <= n <= |ps|
    requires forall k :: start <= k < n ==> Fresh(ps[k], start, depth)
    ensures Expanding(ps, ps, start, start, n, n, [n], v)
  {
    hide Compiled;
    forall k | start <= k < n
      ensures IsBasic(ps[k], start)
    {
      assert Fresh(ps[k], start, depth);
    }
    assert forall k :: start <= k < n ==> Fresh(ps[k], start, depth);
  }

  lemma ExpandingNext(before: seq<Position>, ps: seq<Position>, qs: seq<Position>, start: nat, x: nat, n0: nat,
                      n: nat, n': nat, kids: seq<nat>, v: Json, depth: nat)
    requires Expanding(before, ps, start, x, n0, n, kids, v) && x < n
    requires n' == n + ChildCount(ps[x].schema, v) && n' <= |qs|
    requires qs[..n] == ps[..n][x := Started(ps[x], v)]
    requires Expands(ps[x].schema, v) ==> Pushed(qs, n, Children(ps[x].schema), x, start, depth)
    ensures Expanding(before, qs, start, x + 1, n0, n', kids + [n'], v)
    ensures LayerWeight(qs, x + 1, n') < LayerWeight(ps, x, n)
  {
    hide Children, Compiled, Flattened, LayerWeight;
    FlattenedBounds(ps, start, x, n, kids, v);
    forall i | 0 <= i < n
      ensures qs[i] == if i == x then Started(ps[x], v) else ps[i]
    {
      assert qs[i] == qs[..n][i];
    }
    assert qs[..start] == ps[..start];
    ExpandNext(ps, qs, start, x, n, n', kids, v, depth);
    WeightDrops(ps, qs, start, x, n, n', v, depth);
    forall i | x + 1 <= i < n'
      ensures qs[i] == Slot(qs[i])
    {
      if i >= n {
        assert qs[i] == ComposedPosition(Children(ps[x].schema)[i - n], x, start, depth);
      }
    }
  }

  lemma FlattenedBounds(ps: seq<Position>, start: nat, x: nat, n: nat, kids: seq<nat>, v: Json)
    requires Flattened(ps, start, x, n, kids, v)
    ensures start <= x <= n <= |ps| && |kids| == x - start + 1 && start <= kids[0] <= n && kids[x - start] == n
  {
    hide Compiled;
    assert kids[0] <= kids[x - start];
  }
}
