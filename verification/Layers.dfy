/** Facts about one layer of the stack while an instance passes over it: its
    shape as a flattened forest, and what the flags of a position mean when only
    some of its children have reported. */
module Layers {
  import opened Options
  import opened JsonValues
  import opened Schemas
  import opened Verdicts
  import opened ValidationStacks

  // ---- Shape --------------------------------------------------------------

  predicate Container(v: Json) { v.Array? || v.Object? }

  /** Whether the schema's type admits the container `v` (`jso_schema_value_is_type_of`). */
  predicate IsTypeOf(s: Schema, v: Json)
    requires Container(v)
  {
    || s.RefOnly?
    || s.data.MixedData?
    || (v.Array? && s.data.ArrayData?)
    || (v.Object? && s.data.ObjectData?)
  }

  /** Whether the children of a position with this schema are pushed on instance `v`. */
  predicate Expands(s: Schema, v: Json) {
    Container(v) ==> IsTypeOf(s, v)
  }

  function ChildCount(s: Schema, v: Json): nat {
    if Expands(s, v) then |Children(s)| else 0
  }

  /** A position freshly pushed for a subschema of some position below the layer. */
  ghost predicate Fresh(p: Position, start: nat, depth: nat) {
    && p == BasicPosition(p.schema, p.parent, start, depth)
    && (p.parent.Some? ==> p.parent.value + 1 < start)
    && Compiled(p.schema)
  }

  /** Position `k` is the child number `k - first` of its parent. */
  ghost predicate Offspring(p: Position, parent: Position, m: nat) {
    && p.positionType == Composed
    && m < |Children(parent.schema)|
    && Children(parent.schema)[m] == Child(p.composition, p.schema)
  }

  /** Position `k` lies in the block of children of its parent. */
  ghost predicate InBlock(ps: seq<Position>, start: nat, next: nat, kids: seq<nat>, k: nat)
    requires start <= next <= |ps| && |kids| == next - start + 1 && k < |ps|
  {
    && ps[k].parent.Some?
    && var i := ps[k].parent.value;
       && start <= i < next && i < k
       && kids[i - start] <= k < kids[i - start + 1]
       && Offspring(ps[k], ps[i], k - kids[i - start])
  }

  /** The children of position `i` lie above it, and there are as many as its schema has. */
  ghost predicate BlockSized(ps: seq<Position>, start: nat, kids: seq<nat>, v: Json, i: nat)
    requires start <= i < |ps| && i - start + 1 < |kids|
  {
    && i < kids[i - start]
    && kids[i - start + 1] == kids[i - start] + ChildCount(ps[i].schema, v)
  }

  /** Positions `start..next` have been expanded on `v`, and the layer ends at `end`:
      the children of position `i` are exactly `kids[i - start]..kids[i - start + 1]`. */
  ghost predicate Flattened(ps: seq<Position>, start: nat, next: nat, end: nat, kids: seq<nat>, v: Json) {
    && start <= next <= end <= |ps|
    && |kids| == next - start + 1
    && start <= kids[0]
    && kids[next - start] == end
    && (forall i :: start <= i < end ==> Compiled(ps[i].schema))
    && (forall i :: start <= i < next ==> BlockSized(ps, start, kids, v, i))
    && (forall i, j :: 0 <= i <= j < |kids| ==> kids[i] <= kids[j])
    && (forall k :: start <= k < kids[0] ==> IsBasic(ps[k], start))
    && (forall k :: kids[0] <= k < end ==> InBlock(ps, start, next, kids, k))
  }

  /** A basic position, pushed for a position of the layer below or for nobody. */
  ghost predicate IsBasic(p: Position, start: nat) {
    && p.positionType == Basic
    && p.composition == NoComposition
    && (p.parent.Some? ==> p.parent.value + 1 < start)
  }

  /** Two memories agree on what was pushed at `lo..hi`. */
  ghost predicate SameSlots(ps: seq<Position>, qs: seq<Position>, lo: nat, hi: nat) {
    && hi <= |ps| && hi <= |qs|
    && forall i :: lo <= i < hi ==> Slot(ps[i]) == Slot(qs[i])
  }

  lemma SlotFields(p: Position, q: Position)
    requires Slot(p) == Slot(q)
    ensures p.schema == q.schema && p.parent == q.parent && p.composition == q.composition
    ensures p.positionType == q.positionType && p.layerStart == q.layerStart && p.depth == q.depth
  {
  }

  lemma FlattenedKept(ps: seq<Position>, qs: seq<Position>, start: nat, next: nat, end: nat, kids: seq<nat>, v: Json)
    requires Flattened(ps, start, next, end, kids, v) && SameSlots(ps, qs, start, end)
    ensures Flattened(qs, start, next, end, kids, v)
  {
    hide Children, Compiled, ChildCount;
    forall i | start <= i < end
      ensures ps[i].schema == qs[i].schema && ps[i].parent == qs[i].parent
      ensures ps[i].composition == qs[i].composition && ps[i].positionType == qs[i].positionType
    {
      SlotFields(ps[i], qs[i]);
    }
    forall k | kids[0] <= k < end
      ensures InBlock(qs, start, next, kids, k)
    {
      assert InBlock(ps, start, next, kids, k);
    }
    forall i | start <= i < next
      ensures BlockSized(qs, start, kids, v, i)
    {
      assert BlockSized(ps, start, kids, v, i);
    }
    forall k | start <= k < kids[0]
      ensures IsBasic(qs[k], start)
    {
      assert IsBasic(ps[k], start);
    }
  }

  // ---- Rejection of a parent in the layer below ---------------------------

  /** `jso_schema_validation_set_final_result(parent, INVALID)` behind the guard of
      `jso_schema_validation_result_propagate`. */
  function Failed(p: Position): Position {
    if p.isFinal then p else p.(result := Invalid, isFinal := true)
  }

  /** Some position pushed at `lo..hi` for parent `i` rejects `v`. */
  ghost predicate Rejects(ps: seq<Position>, lo: nat, hi: nat, i: nat, v: Json)
    requires hi <= |ps|
  {
    exists k :: lo <= k < hi && ps[k].parent == Some(i) && !Verdict(ps[k].schema, v)
  }

  /** Below `base`, only parents of rejecting positions have changed, and only by failing. */
  ghost predicate OnlyRejected(before: seq<Position>, now: seq<Position>, base: nat, lo: nat, hi: nat, v: Json)
    requires hi <= |before|
  {
    && base <= |before| && base <= |now|
    && forall i :: 0 <= i < base ==>
         || now[i] == before[i]
         || (now[i] == Failed(before[i]) && Rejects(before, lo, hi, i, v))
  }

  // ---- Flags after some children have reported ----------------------------

  /** A position that is not final shows exactly this tally. */
  predicate Shows(p: Position, t: Tally) {
    && Sound(t)
    && p.anyOfValid == t.any
    && p.typeValid == t.typed
    && p.oneOfValid == (t.ones == 1)
  }

  /** What a position of the layer shows at the start of an array when its children
      from number `m` on have reported. */
  ghost predicate EarlyOpen(p: Position, m: nat)
    requires m <= |Children(p.schema)|
  {
    var s := p.schema;
    if p.isFinal then
      && (p.result == Valid <==> Early(s))
      && (s.Value? ==> p.result == Invalid)
      && p.reason != TypeReason
      && !Plain(s)
    else if p.result == Invalid then
      s.Value? && !s.data.MixedData? && !s.data.ArrayData? && p.reason == TypeReason
    else
      && p.reason != TypeReason
      && p.count == 0
      && (s.Value? ==> s.data.MixedData? || s.data.ArrayData?)
      && (s.RefOnly? ==> m == 1)
      && Shows(p, EarlyTally(s, m))
  }

  /** What a position shows when the instance `v` has delivered `n` items or members
      and the children from number `m` on have reported their results on `v`. */
  ghost predicate Open(p: Position, v: Json, n: nat, m: nat)
    requires m <= |Children(p.schema)| && n <= Length(v)
  {
    var s := p.schema;
    if p.isFinal then
      && (p.result == Valid <==> Verdict(s, v))
      && p.reason != TypeReason
      && (Plain(s) ==> HasType(s.data, v))
    else if p.result == Invalid then
      !Expands(s, v) && p.reason == TypeReason
    else
      && p.reason != TypeReason
      && p.count == n
      && Expands(s, v)
      && (s.Value? && HasType(s.data, v) ==> PrefixOk(s, v, n))
      && (s.RefOnly? ==> m == 1 && !v.Array?)
      && Shows(p, TallyFrom(s, v, m))
  }

  /** A position whose result is settled. */
  ghost predicate Done(p: Position, v: Json) {
    && (p.result == Valid <==> Verdict(p.schema, v))
    && (Plain(p.schema) && p.result == Invalid ==>
          (p.reason == TypeReason <==> !HasType(p.schema.data, v)))
  }
}
