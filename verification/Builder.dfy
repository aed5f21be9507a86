/** The builder (`src/jso_builder.c`): a chain of open containers.

    A nested container is stored in its parent when it is opened, by reference, so that
    what is added to it later shows in the parent.  Containers are numbered in the order
    of their allocation, and a reference is such a number. */
module Builders {
  import opened Options
  import opened JsonValues
  import HashTables

  type Entry<V> = HashTables.Entry<V>

  datatype Value = Scalar(v: Json) | Ref(id: nat)

  datatype Container = ArrayContainer(items: seq<Value>) | ObjectContainer(members: seq<Entry<Value>>)

  function Count(c: Container): nat {
    if c.ArrayContainer? then |c.items| else |c.members|
  }

  function ValueAt(c: Container, i: nat): Value
    requires i < Count(c)
  {
    if c.ArrayContainer? then c.items[i] else c.members[i].value
  }

  predicate Holds(c: Container, x: Value) {
    exists i :: 0 <= i < Count(c) && ValueAt(c, i) == x
  }

  /** The container with one more value at its end, or under the key. */
  function With(c: Container, key: Option<string>, x: Value): Container
    requires c.ArrayContainer? <==> key.None?
  {
    if c.ArrayContainer? then ArrayContainer(c.items + [x])
    else ObjectContainer(HashTables.Put(c.members, key.value, x))
  }

  // ---- The values in memory -----------------------------------------------

  /** A container refers to younger containers only. */
  ghost predicate Ordered(store: seq<Container>) {
    forall i, k :: 0 <= i < |store| && 0 <= k < Count(store[i]) && ValueAt(store[i], k).Ref? ==>
      i < ValueAt(store[i], k).id < |store|
  }

  ghost predicate InStore(store: seq<Container>, x: Value) {
    x.Ref? ==> x.id < |store|
  }

  ghost function Tree(store: seq<Container>, x: Value): (v: Json)
    requires Ordered(store) && InStore(store, x)
    decreases if x.Ref? then |store| - x.id else 0
  {
    match x
    case Scalar(v) => v
    case Ref(i) =>
      var c := store[i];
      if c.ArrayContainer? then Array(seq(Count(c), k requires 0 <= k < Count(c) => Tree(store, ValueAt(c, k))))
      else Object(seq(Count(c), k requires 0 <= k < Count(c) => Member(c.members[k].key, Tree(store, ValueAt(c, k)))))
  }

  /** Containers from `i` on are as they were; there may be more of them. */
  ghost predicate SameFrom(store: seq<Container>, store': seq<Container>, i: nat) {
    |store| <= |store'| && forall k :: i <= k < |store| ==> store'[k] == store[k]
  }

  /** A tree depends only on its own container and younger ones. */
  lemma {:induction false} TreeStays(store: seq<Container>, store': seq<Container>, i: nat, x: Value)
    requires Ordered(store) && Ordered(store') && SameFrom(store, store', i)
    requires InStore(store, x) && (x.Ref? ==> i <= x.id)
    ensures Tree(store', x) == Tree(store, x)
    decreases if x.Ref? then |store| - x.id else 0
  {
    if x.Ref? {
      var c := store[x.id];
      forall k | 0 <= k < Count(c)
        ensures InStore(store, ValueAt(c, k)) && Tree(store', ValueAt(c, k)) == Tree(store, ValueAt(c, k))
      {
        TreeStays(store, store', i, ValueAt(c, k));
      }
    }
  }

  lemma StoredValues(c: Container, key: Option<string>, x: Value)
    requires c.ArrayContainer? <==> key.None?
    ensures Holds(With(c, key, x), x)
    ensures forall k :: 0 <= k < Count(With(c, key, x)) ==>
              ValueAt(With(c, key, x), k) == x || (k < Count(c) && ValueAt(With(c, key, x), k) == ValueAt(c, k))
  {
    var c' := With(c, key, x);
    if c.ArrayContainer? {
      assert ValueAt(c', Count(c)) == x;
    } else {
      var i := HashTables.IndexOf(c.members, key.value);
      assert ValueAt(c', if i.Some? then i.value else |c.members|) == x;
    }
  }

  lemma OrderedWith(store: seq<Container>, i: nat, key: Option<string>, x: Value)
    requires Ordered(store) && i < |store| && InStore(store, x) && (x.Ref? ==> i < x.id)
    requires store[i].ArrayContainer? <==> key.None?
    ensures Ordered(store[i := With(store[i], key, x)])
  {
    StoredValues(store[i], key, x);
    hide With;
  }

  lemma OrderedNew(store: seq<Container>, c: Container)
    requires Ordered(store) && Count(c) == 0
    ensures Ordered(store + [c])
  {
  }

  // ---- Open containers ----------------------------------------------------

  /** Levels up to `top` hold containers, each stored in the one below it. */
  ghost predicate Nested(store: seq<Container>, levels: seq<Value>, top: nat) {
    && top < |levels|
    && (forall e :: 0 <= e <= top ==> levels[e].Ref? && InStore(store, levels[e]))
    && (forall e :: 0 < e <= top ==> Inside(store, levels, e))
  }

  ghost predicate Inside(store: seq<Container>, levels: seq<Value>, e: nat)
    requires 0 < e < |levels|
  {
    levels[e - 1].Ref? && levels[e - 1].id < |store| && Holds(store[levels[e - 1].id], levels[e])
  }

  /** Open containers are younger than those they are nested in. */
  lemma {:induction false} LevelsRise(store: seq<Container>, levels: seq<Value>, d: nat, top: nat)
    requires Ordered(store) && Nested(store, levels, top) && 0 < d <= top
    ensures levels[d - 1].id < levels[top].id
    decreases top - d
  {
    assert Inside(store, levels, d);
    if d < top { LevelsRise(store, levels, d + 1, top); }
  }

  lemma PutKeepsNested(store: seq<Container>, levels: seq<Value>, top: nat, c: Container)
    requires Ordered(store) && Nested(store, levels, top)
    ensures Nested(store[levels[top].id := c], levels, top)
  {
    var store' := store[levels[top].id := c];
    forall e | 0 < e <= top
      ensures Inside(store', levels, e)
    {
      assert Inside(store, levels, e);
      LevelsRise(store, levels, e, top);
    }
  }

  lemma GrowthKeepsNested(store: seq<Container>, levels: seq<Value>, top: nat, c: Container, levels': seq<Value>)
    requires Nested(store, levels, top) && top < |levels'| && levels'[..top + 1] == levels[..top + 1]
    ensures Nested(store + [c], levels', top)
  {
    forall e | 0 <= e <= top
      ensures levels'[e] == levels[e] && (0 < e ==> Inside(store + [c], levels', e))
    {
      assert levels'[e] == levels'[..top + 1][e] == levels[..top + 1][e];
      if 0 < e {
        assert levels'[e - 1] == levels'[..top + 1][e - 1] == levels[..top + 1][e - 1];
        assert Inside(store, levels, e);
      }
    }
  }

  // ---- The builder --------------------------------------------------------

  class Builder {
    var store: seq<Container>
    /** The values of all levels that have been in use, from the first one on. */
    var levels: seq<Value>
    /** The open level; the levels below it are open too. */
    var current: Option<nat>

    /** Every open container is stored in the one below it. */
    ghost predicate Valid()
      reads this
    {
      && Ordered(store)
      && (forall d :: 0 <= d < |levels| ==> InStore(store, levels[d]))
      && (current.Some? ==> Nested(store, levels, current.value))
    }

    /** The open container on the top level. */
    ghost predicate OpenAt(id: nat)
      reads this
    {
      current.Some? && current.value < |levels| && levels[current.value] == Ref(id) && id < |store|
    }

    constructor ()
      ensures Valid() && store == [] && levels == [] && current == None
    {
      store, levels, current := [], [], None;
    }

    predicate IsNotA(isArray: bool)
      reads this
    {
      !(current.Some? && current.value < |levels| && levels[current.value].Ref? && levels[current.value].id < |store|
        && store[levels[current.value].id].ArrayContainer? == isArray)
    }

    /** `array_start` and `object_start`: the root container. */
    method Start(isArray: bool) returns (ok: bool)
      requires Valid()
      modifies this
      ensures Valid() && (ok <==> old(current).None?)
      ensures !ok ==> unchanged(this)
      ensures ok ==> current == Some(0) && store == old(store) + [Empty(isArray)] && OpenAt(|old(store)|)
    {
      if current.Some? {
        return false;
      }
      if levels == [] {
        levels := [Scalar(Null)];
      }
      current := Some(0);
      OrderedNew(store, Empty(isArray));
      levels := levels[0 := Ref(|store|)];
      store := store + [Empty(isArray)];
      return true;
    }

    /** The methods that add a scalar to the open array, or under a key to the open object. */
    method Add(key: Option<string>, v: Json) returns (ok: bool)
      requires Valid() && !v.Array? && !v.Object?
      modifies this
      ensures Valid() && (ok <==> !old(IsNotA(key.None?)))
      ensures !ok ==> unchanged(this)
      ensures ok ==> current == old(current) && levels == old(levels)
      ensures ok ==> var id := old(levels[current.value].id);
                store == old(store)[id := With(old(store[id]), key, Scalar(v))]
    {
      if IsNotA(key.None?) {
        return false;
      }
      hide With;
      var id := levels[current.value].id;
      OrderedWith(store, id, key, Scalar(v));
      PutKeepsNested(store, levels, current.value, With(store[id], key, Scalar(v)));
      store := store[id := With(store[id], key, Scalar(v))];
      return true;
    }

    /** The methods that open a container inside the open one. */
    method AddStart(key: Option<string>, isArray: bool) returns (ok: bool)
      requires Valid()
      modifies this
      ensures Valid() && (ok <==> !old(IsNotA(key.None?)))
      ensures !ok ==> unchanged(this)
      ensures ok ==> current == Some(old(current.value) + 1) && OpenAt(|old(store)|)
      ensures ok ==>
                && |levels| > old(current.value)
                && levels[..old(current.value) + 1] == old(levels[..current.value + 1])
      ensures ok ==> var id := old(levels[current.value].id);
                store == (old(store) + [Empty(isArray)])[id := With(old(store[id]), key, Ref(|old(store)|))]
    {
      if IsNotA(key.None?) {
        return false;
      }
      hide With, Empty, Ordered, Inside;
      ghost var before, levels0 := store, levels;
      var id, top, newId := levels[current.value].id, current.value, |store|;
      // move_next
      if top + 1 == |levels| {
        levels := levels + [Scalar(Null)];
      }
      current := Some(top + 1);
      levels := levels[top + 1 := Ref(newId)];
      assert levels[..top + 1] == levels0[..top + 1];
      OrderedNew(store, Empty(isArray));
      GrowthKeepsNested(store, levels0, top, Empty(isArray), levels);
      store := store + [Empty(isArray)];
      OrderedWith(store, id, key, Ref(newId));
      PutKeepsNested(store, levels, top, With(store[id], key, Ref(newId)));
      StoredValues(store[id], key, Ref(newId));
      store := store[id := With(store[id], key, Ref(newId))];
      TopInside(store, levels, top + 1);
      return true;
    }

    /** `array_end` and `object_end` */
    method EndContainer(isArray: bool) returns (ok: bool)
      requires Valid()
      modifies this
      ensures Valid() && (ok <==> !old(IsNotA(isArray)))
      ensures !ok ==> unchanged(this)
      ensures ok ==> store == old(store) && levels == old(levels)
      ensures ok ==> current == if old(current.value) == 0 then None else Some(old(current.value) - 1)
    {
      if IsNotA(isArray) {
        return false;
      }
      current := if current.value == 0 then None else Some(current.value - 1);
      return true;
    }
  }

  lemma TopInside(store: seq<Container>, levels: seq<Value>, top: nat)
    requires 0 < top < |levels| && Nested(store, levels, top - 1) && levels[top].Ref? && InStore(store, levels[top])
    requires Holds(store[levels[top - 1].id], levels[top])
    ensures Nested(store, levels, top)
  {
  }

  function Empty(isArray: bool): (c: Container)
    ensures Count(c) == 0 && (c.ArrayContainer? <==> isArray)
  {
    if isArray then ArrayContainer([]) else ObjectContainer([])
  }

  // ---- Replaying the events of a tree -------------------------------------

  /** Of the containers that were there, at most number `c` has changed. */
  ghost predicate OnlyAt(store: seq<Container>, store': seq<Container>, c: nat) {
    |store| <= |store'| && forall k :: 0 <= k < |store| && k != c ==> store'[k] == store[k]
  }

  /** The value that a finished element is stored as: it denotes `v`, and a container
      of its own is new. */
  ghost predicate Denotes(store: seq<Container>, x: Value, v: Json, from: nat) {
    Ordered(store) && InStore(store, x) && (x.Ref? ==> from <= x.id) && Tree(store, x) == v
  }

  /** The open container `c` got one more value, which denotes `v`. */
  ghost predicate Added(store: seq<Container>, store': seq<Container>, c: nat, key: Option<string>, v: Json) {
    && c < |store| && (store[c].ArrayContainer? <==> key.None?)
    && OnlyAt(store, store', c)
    && exists x :: store'[c] == With(store[c], key, x) && Denotes(store', x, v, |store|)
  }

  predicate IsContainer(v: Json) { v.Array? || v.Object? }

  function Length(v: Json): nat
    requires IsContainer(v)
  {
    if v.Array? then |v.items| else |v.members|
  }

  function ElementKey(v: Json, k: nat): Option<string>
    requires IsContainer(v) && k < Length(v)
  {
    if v.Array? then None else Some(v.members[k].key)
  }

  function Element(v: Json, k: nat): (e: Json)
    requires IsContainer(v) && k < Length(v)
    ensures e < v
  {
    if v.Array? then v.items[k] else v.members[k].value
  }

  /** Container `n` holds the first `k` elements of `v`, in values of its own. */
  ghost predicate Filled(store: seq<Container>, n: nat, v: Json, k: nat)
    requires IsContainer(v) && k <= Length(v)
  {
    && n < |store| && Ordered(store)
    && (store[n].ArrayContainer? <==> v.Array?)
    && Count(store[n]) == k
    && (v.Object? ==> forall j :: 0 <= j < k ==> store[n].members[j].key == v.members[j].key)
    && forall j :: 0 <= j < k ==> Denotes(store, ValueAt(store[n], j), Element(v, j), n + 1)
  }

  lemma FilledNext(store: seq<Container>, store': seq<Container>, n: nat, v: Json, k: nat)
    requires IsContainer(v) && k < Length(v) && WellFormed(v) && Ordered(store')
    requires Filled(store, n, v, k) && Added(store, store', n, ElementKey(v, k), Element(v, k))
    ensures Filled(store', n, v, k + 1)
  {
    var x :| store'[n] == With(store[n], ElementKey(v, k), x) && Denotes(store', x, Element(v, k), |store|);
    WithNext(store[n], v, k, x);
    forall j | 0 <= j < k
      ensures Denotes(store', ValueAt(store'[n], j), Element(v, j), n + 1)
    {
      var y := ValueAt(store[n], j);
      assert Denotes(store, y, Element(v, j), n + 1);
      TreeStays(store, store', n + 1, y);
    }
  }

  /** A new key goes to the end. */
  lemma WithNext(c: Container, v: Json, k: nat, x: Value)
    requires IsContainer(v) && k < Length(v) && WellFormed(v)
    requires (c.ArrayContainer? <==> v.Array?) && Count(c) == k
    requires v.Object? ==> forall j :: 0 <= j < k ==> c.members[j].key == v.members[j].key
    ensures var c' := With(c, ElementKey(v, k), x);
            && (c'.ArrayContainer? <==> v.Array?) && Count(c') == k + 1 && ValueAt(c', k) == x
            && (forall j :: 0 <= j < k ==> ValueAt(c', j) == ValueAt(c, j))
            && (v.Object? ==> forall j :: 0 <= j <= k ==> c'.members[j].key == v.members[j].key)
  {
    if v.Object? {
      assert forall j :: 0 <= j < k ==> c.members[j].key != v.members[k].key;
    }
  }

  /** A container that holds all elements of `v` denotes `v`. */
  lemma FilledWhole(store: seq<Container>, n: nat, v: Json)
    requires IsContainer(v) && Filled(store, n, v, Length(v))
    ensures Denotes(store, Ref(n), v, n)
  {
    forall j | 0 <= j < Length(v)
      ensures Tree(store, ValueAt(store[n], j)) == Element(v, j)
    {
      assert Denotes(store, ValueAt(store[n], j), Element(v, j), n + 1);
    }
    var t := Tree(store, Ref(n));
    if v.Array? {
      assert t.items == v.items;
    } else {
      assert t.members == v.members;
    }
  }

  /** Levels below and at the open one are as before. */
  twostate predicate SameLevels(b: Builder)
    reads b
  {
    && b.current == old(b.current) && b.current.Some?
    && b.current.value < |b.levels| && b.current.value < |old(b.levels)|
    && b.levels[..b.current.value + 1] == old(b.levels[..b.current.value + 1])
  }

  /** The events of one element: a scalar, or a container with its elements and its end. */
  method AddTree(b: Builder, key: Option<string>, v: Json)
    requires b.Valid() && WellFormed(v) && !b.IsNotA(key.None?)
    modifies b
    ensures b.Valid() && SameLevels(b)
    ensures Added(old(b.store), b.store, old(b.levels[b.current.value].id), key, v)
    decreases v, 1
  {
    hide With, Empty, Ordered, Nested, Tree, Filled;
    ghost var before, id := b.store, b.levels[b.current.value].id;
    if !IsContainer(v) {
      var ok := b.Add(key, v);
      ScalarAdded(before, b.store, id, key, v);
    } else {
      var ok := b.AddStart(key, v.Array?);
      ghost var grown, n := b.store, |before|;
      EmptyFilled(b.store, n, v);
      Fill(b, v, n);
      FilledWhole(b.store, n, v);
      StillOpen(b, n, v);
      ok := b.EndContainer(v.Array?);
      ContainerAdded(before, grown, b.store, id, key, v);
    }
  }

  lemma ScalarAdded(before: seq<Container>, after: seq<Container>, id: nat, key: Option<string>, v: Json)
    requires id < |before| && (before[id].ArrayContainer? <==> key.None?) && Ordered(after)
    requires after == before[id := With(before[id], key, Scalar(v))]
    ensures Added(before, after, id, key, v)
  {
    assert Denotes(after, Scalar(v), v, |before|);
  }

  lemma ContainerAdded(before: seq<Container>, grown: seq<Container>, after: seq<Container>, id: nat,
                       key: Option<string>, v: Json)
    requires id < |before| && (before[id].ArrayContainer? <==> key.None?) && |grown| == |before| + 1
    requires forall k :: 0 <= k < |before| ==>
               grown[k] == if k == id then With(before[id], key, Ref(|before|)) else before[k]
    requires OnlyAt(grown, after, |before|) && Denotes(after, Ref(|before|), v, |before|)
    ensures Added(before, after, id, key, v)
  {
    assert after[id] == With(before[id], key, Ref(|before|));
  }

  lemma EmptyFilled(store: seq<Container>, n: nat, v: Json)
    requires IsContainer(v) && n < |store| && Ordered(store) && store[n] == Empty(v.Array?)
    ensures Filled(store, n, v, 0)
  {
  }

  lemma StillOpen(b: Builder, n: nat, v: Json)
    requires b.Valid() && b.OpenAt(n) && IsContainer(v) && Filled(b.store, n, v, Length(v))
    ensures !b.IsNotA(v.Array?)
  {
  }

  /** The events of all elements of a container that has just been opened. */
  method Fill(b: Builder, v: Json, ghost n: nat)
    requires b.Valid() && WellFormed(v) && IsContainer(v) && b.OpenAt(n) && Filled(b.store, n, v, 0)
    modifies b
    ensures b.Valid() && SameLevels(b) && b.OpenAt(n)
    ensures OnlyAt(old(b.store), b.store, n) && Filled(b.store, n, v, Length(v))
    decreases v, 0
  {
    hide With, Empty, Ordered, Nested, Tree;
    var k := 0;
    while k < Length(v)
      invariant 0 <= k <= Length(v)
      invariant b.Valid() && SameLevels(b) && b.OpenAt(n)
      invariant OnlyAt(old(b.store), b.store, n) && Filled(b.store, n, v, k)
    {
      ghost var before := b.store;
      AddTree(b, ElementKey(v, k), Element(v, k));
      FilledNext(before, b.store, n, v, k);
      k := k + 1;
    }
  }

  /** The events of a whole document rebuild it and leave no container open. */
  method Build(v: Json) returns (b: Builder)
    requires WellFormed(v) && IsContainer(v)
    ensures fresh(b) && b.Valid() && b.current == None
    ensures b.levels != [] && Tree(b.store, b.levels[0]) == v
  {
    b := new Builder();
    var ok := b.Start(v.Array?);
    EmptyFilled(b.store, 0, v);
    Fill(b, v, 0);
    FilledWhole(b.store, 0, v);
    ok := b.EndContainer(v.Array?);
  }
}
