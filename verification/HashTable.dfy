/** The open-addressing, insertion-ordered hash table (`src/jso_ht.c`, `src/jso_ht.h`). */
module HashTables {
  import opened FiniteSets
  import opened Options

  // ---- The abstract map ---------------------------------------------------

  datatype Entry<V> = Entry(key: string, value: V)

  /** Position of the entry with the key. */
  function IndexOf<V>(es: seq<Entry<V>>, key: string): (r: Option<nat>)
    ensures r.Some? ==> r.value < |es| && es[r.value].key == key
    ensures r.None? ==> forall i :: 0 <= i < |es| ==> es[i].key != key
  {
    if es == [] then None
    else if es[|es| - 1].key == key then Some(|es| - 1)
    else IndexOf(es[..|es| - 1], key)
  }

  function Lookup<V>(es: seq<Entry<V>>, key: string): Option<V> {
    var i := IndexOf(es, key);
    if i.Some? then Some(es[i.value].value) else None
  }

  /** A known key keeps its place, a new one goes to the end. */
  function Put<V>(es: seq<Entry<V>>, key: string, value: V): seq<Entry<V>> {
    var i := IndexOf(es, key);
    if i.Some? then es[i.value := Entry(key, value)] else es + [Entry(key, value)]
  }

  function PutAll<V>(es: seq<Entry<V>>, more: seq<Entry<V>>): seq<Entry<V>> {
    if more == [] then es
    else Put(PutAll(es, more[..|more| - 1]), more[|more| - 1].key, more[|more| - 1].value)
  }

  ghost predicate UniqueKeys<V>(es: seq<Entry<V>>) {
    forall i, j :: 0 <= i < j < |es| ==> es[i].key != es[j].key
  }

  /** What was stored last is found; other keys, and the order of the old ones, are as before. */
  lemma {:induction false} PutThenLookup<V>(es: seq<Entry<V>>, key: string, value: V, other: string)
    ensures Lookup(Put(es, key, value), other) == if other == key then Some(value) else Lookup(es, other)
    ensures |Put(es, key, value)| >= |es|
    ensures forall i :: 0 <= i < |es| ==> Put(es, key, value)[i].key == es[i].key
  {
    if es != [] && es[|es| - 1].key != key {
      var front := es[..|es| - 1];
      PutThenLookup(front, key, value, other);
      var put := Put(es, key, value);
      if IndexOf(front, key).Some? {
        assert put[..|put| - 1] == Put(front, key, value);
      } else {
        assert put[..|put| - 1] == es;
      }
    } else if es != [] {
      assert Put(es, key, value)[..|es| - 1] == es[..|es| - 1];
    }
  }

  /** The entries with keys that the others do not have. */
  function NewOnes<V>(es: seq<Entry<V>>, more: seq<Entry<V>>): (news: seq<Entry<V>>)
    ensures forall e :: e in news ==> e in more
  {
    if more == [] then []
    else
      var front := NewOnes(es, more[..|more| - 1]);
      if Lookup(es, more[|more| - 1].key).Some? then front else front + [more[|more| - 1]]
  }

  /** The entries stored one after the other win over the old ones, which keep their order. */
  lemma {:induction false} PutAllThenLookup<V>(es: seq<Entry<V>>, more: seq<Entry<V>>, key: string)
    ensures Lookup(PutAll(es, more), key) == if Lookup(more, key).Some? then Lookup(more, key) else Lookup(es, key)
    ensures |PutAll(es, more)| >= |es|
    ensures forall i :: 0 <= i < |es| ==> PutAll(es, more)[i].key == es[i].key
  {
    if more != [] {
      var front, last := more[..|more| - 1], more[|more| - 1];
      PutAllThenLookup(es, front, key);
      PutThenLookup(PutAll(es, front), last.key, last.value, key);
      hide Put;
    }
  }

  /** The new ones come behind the old ones, in their own order. */
  lemma {:induction false} PutAllAppends<V>(es: seq<Entry<V>>, more: seq<Entry<V>>)
    requires UniqueKeys(more)
    ensures |PutAll(es, more)| >= |es| && PutAll(es, more)[|es|..] == NewOnes(es, more)
  {
    if more != [] {
      var front, last := more[..|more| - 1], more[|more| - 1];
      PutAllAppends(es, front);
      PutAllThenLookup(es, front, last.key);
      OthersBefore(more);
      PutBehind(es, PutAll(es, front), front, last);
    }
  }

  lemma OthersBefore<V>(more: seq<Entry<V>>)
    requires UniqueKeys(more) && more != []
    ensures UniqueKeys(more[..|more| - 1])
    ensures forall e :: e in more[..|more| - 1] ==> e.key != more[|more| - 1].key
  {
  }

  /** An entry of the old ones is replaced there, another one goes to the end. */
  lemma PutBehind<V>(es: seq<Entry<V>>, before: seq<Entry<V>>, front: seq<Entry<V>>, last: Entry<V>)
    requires |before| >= |es| && before[|es|..] == NewOnes(es, front)
    requires forall e :: e in front ==> e.key != last.key
    requires Lookup(before, last.key) ==
               if Lookup(front, last.key).Some? then Lookup(front, last.key) else Lookup(es, last.key)
    ensures var put := Put(before, last.key, last.value);
            && |put| >= |es|
            && put[|es|..] == NewOnes(es, front) + if Lookup(es, last.key).Some? then [] else [last]
  {
    forall i | |es| <= i < |before|
      ensures before[i].key != last.key
    {
      assert before[i] == before[|es|..][i - |es|];
    }
  }

  /** Entries with different keys are all there is after storing them where nothing was. */
  lemma {:induction false} PutAllIntoEmpty<V>(more: seq<Entry<V>>)
    requires UniqueKeys(more)
    ensures PutAll([], more) == more
  {
    if more != [] {
      PutAllIntoEmpty(more[..|more| - 1]);
    }
  }

  // ---- Slots --------------------------------------------------------------

  /** An entry of the table; pointers to entries are indices. */
  datatype Slot<V> = Vacant | Used(key: string, value: V, next: Option<nat>)

  type Hash = string -> nat

  /** Slot number `d` on the probe sequence that starts at `start`. */
  function Probe(start: nat, d: nat, capacity: nat): nat
    requires 0 < capacity
  {
    (start + d) % capacity
  }

  /** How far the slot is from the start of the probe sequence. */
  function Distance(start: nat, p: nat, capacity: nat): nat
    requires 0 < capacity && start < capacity && p < capacity
  {
    if start <= p then p - start else p + capacity - start
  }

  lemma ProbeNext(start: nat, d: nat, capacity: nat)
    requires 0 < capacity
    ensures (Probe(start, d, capacity) + 1) % capacity == Probe(start, d + 1, capacity)
  {
    var x := start + d;
    var q, r := x / capacity, x % capacity;
    assert x == capacity * q + r;
    MulNext(capacity, q);
    if r + 1 < capacity {
      Modulo(x + 1, capacity, q, r + 1);
      Modulo(r + 1, capacity, 0, r + 1);
    } else {
      Modulo(x + 1, capacity, q + 1, 0);
      Modulo(r + 1, capacity, 1, 0);
    }
  }

  lemma MulNext(n: int, q: int)
    ensures n * (q + 1) == n * q + n
  {
  }

  lemma Modulo(x: nat, n: nat, q: nat, r: nat)
    requires x == n * q + r && r < n
    ensures x % n == r
  {
    var a := x / n;
    assert x == n * a + x % n;
    assert a < q ==> n * (a + 1) <= n * q;
    assert q < a ==> n * (q + 1) <= n * a;
  }

  lemma ProbeDistance(start: nat, p: nat, capacity: nat)
    requires start < capacity && p < capacity
    ensures Distance(start, p, capacity) < capacity
    ensures Probe(start, Distance(start, p, capacity), capacity) == p
  {
    if start > p { Modulo(p + capacity, capacity, 1, p); }
  }

  /** The first `d` slots of the probe sequence are in use, by other keys. */
  ghost predicate Passed<V>(slots: seq<Slot<V>>, start: nat, d: nat, key: string) {
    |slots| > 0 && forall e :: 0 <= e < d ==> OtherKey(slots[Probe(start, e, |slots|)], key)
  }

  predicate OtherKey<V>(s: Slot<V>, key: string) { s.Used? && s.key != key }

  /** A search for the key of slot `p` gets there. */
  ghost predicate Reachable<V>(hash: Hash, slots: seq<Slot<V>>, p: nat)
    requires p < |slots| && slots[p].Used?
  {
    var start := hash(slots[p].key) % |slots|;
    Passed(slots, start, Distance(start, p, |slots|), slots[p].key)
  }

  /** The slots in use are those of `order`, linked in that order, with different keys. */
  ghost predicate Table<V>(hash: Hash, slots: seq<Slot<V>>, order: seq<nat>) {
    && (forall i :: 0 <= i < |order| ==> Holding(slots, order, i))
    && (forall i, j :: 0 <= i < j < |order| ==> Apart(slots, order, i, j))
    && (forall p :: 0 <= p < |slots| && slots[p].Used? ==> p in order && Reachable(hash, slots, p))
  }

  /** Slot number `i` in the order is in use and links to the next one. */
  ghost predicate Holding<V>(slots: seq<Slot<V>>, order: seq<nat>, i: nat)
    requires i < |order|
  {
    && order[i] < |slots| && slots[order[i]].Used?
    && slots[order[i]].next == (if i + 1 < |order| then Some(order[i + 1]) else None)
  }

  ghost predicate Apart<V>(slots: seq<Slot<V>>, order: seq<nat>, i: nat, j: nat)
    requires i < |order| && j < |order|
  {
    && order[i] != order[j]
    && (order[i] < |slots| && order[j] < |slots| && slots[order[i]].Used? && slots[order[j]].Used? ==>
          slots[order[i]].key != slots[order[j]].key)
  }

  ghost predicate Linked<V>(slots: seq<Slot<V>>, order: seq<nat>) {
    forall i :: 0 <= i < |order| ==> Holding(slots, order, i)
  }

  /** The entries in insertion order. */
  ghost function Contents<V>(slots: seq<Slot<V>>, order: seq<nat>): (es: seq<Entry<V>>)
    requires Linked(slots, order)
    ensures |es| == |order|
    ensures forall i :: 0 <= i < |es| ==>
              Holding(slots, order, i) && es[i] == Entry(slots[order[i]].key, slots[order[i]].value)
  {
    seq(|order|, i requires 0 <= i < |order| && Holding(slots, order, i) =>
      Entry(slots[order[i]].key, slots[order[i]].value))
  }

  lemma ContentsUnique<V>(hash: Hash, slots: seq<Slot<V>>, order: seq<nat>)
    requires Table(hash, slots, order)
    ensures Linked(slots, order) && UniqueKeys(Contents(slots, order))
  {
    hide Reachable;
    var es := Contents(slots, order);
    forall i, j | 0 <= i < j < |es|
      ensures es[i].key != es[j].key
    {
      assert Apart(slots, order, i, j);
    }
  }

  // ---- Vacancies ----------------------------------------------------------

  ghost function Members(xs: seq<nat>): (s: set<nat>)
    ensures forall x :: x in s <==> x in xs
  {
    if xs == [] then {}
    else
      assert xs == xs[..|xs| - 1] + [xs[|xs| - 1]];
      Members(xs[..|xs| - 1]) + {xs[|xs| - 1]}
  }

  ghost predicate AllDistinct(xs: seq<nat>) {
    forall i, j :: 0 <= i < j < |xs| ==> xs[i] != xs[j]
  }

  lemma {:induction false} DistinctCount(xs: seq<nat>)
    requires AllDistinct(xs)
    ensures |Members(xs)| == |xs|
  {
    if xs != [] {
      var ys, last := xs[..|xs| - 1], xs[|xs| - 1];
      DistinctCount(ys);
      assert last !in ys;
    }
  }

  ghost function UpTo(n: nat): (s: set<nat>)
    ensures |s| == n
    ensures forall x: nat :: x in s <==> x < n
  {
    if n == 0 then {} else UpTo(n - 1) + {n - 1}
  }

  /** Fewer entries than slots leave a slot free, so that every search ends. */
  lemma Vacancy<V>(hash: Hash, slots: seq<Slot<V>>, order: seq<nat>)
    requires Table(hash, slots, order) && |order| < |slots|
    ensures exists p :: 0 <= p < |slots| && slots[p].Vacant?
  {
    hide Reachable;
    if forall p :: 0 <= p < |slots| ==> slots[p].Used? {
      forall i, j | 0 <= i < j < |order|
        ensures order[i] != order[j]
      {
        assert Apart(slots, order, i, j);
      }
      DistinctCount(order);
      SubsetCount(UpTo(|slots|), Members(order));
    }
  }

  // ---- Searching ----------------------------------------------------------

  method FindEntry<V>(hash: Hash, entries: array<Slot<V>>, key: string) returns (index: nat)
    requires exists p :: 0 <= p < entries.Length && entries[p].Vacant?
    ensures index < entries.Length
    ensures entries[index].Used? ==> entries[index].key == key
    ensures var start := hash(key) % entries.Length;
            Passed(entries[..], start, Distance(start, index, entries.Length), key)
  {
    var capacity := entries.Length;
    ghost var slots := entries[..];
    var start := hash(key) % capacity;
    index := start;
    ghost var vacant: nat :| vacant < capacity && entries[vacant].Vacant?;
    ghost var d := 0;
    ProbeDistance(start, vacant, capacity);
    ghost var bound := Distance(start, vacant, capacity);
    assert Probe(start, 0, capacity) == start by { Modulo(start, capacity, 0, start); }
    while !entries[index].Vacant? && entries[index].key != key
      invariant index < capacity && index == Probe(start, d, capacity)
      invariant d <= bound && Passed(slots, start, d, key)
      decreases bound - d
    {
      assert OtherKey(slots[Probe(start, d, capacity)], key);
      ProbeNext(start, d, capacity);
      index := (index + 1) % capacity;
      d := d + 1;
    }
    DistanceProbe(start, d, capacity);
  }

  lemma DistanceProbe(start: nat, d: nat, capacity: nat)
    requires start < capacity && d < capacity
    ensures Probe(start, d, capacity) < capacity
    ensures Distance(start, Probe(start, d, capacity), capacity) == d
  {
    if start + d < capacity {
      Modulo(start + d, capacity, 0, start + d);
    } else {
      Modulo(start + d, capacity, 1, start + d - capacity);
    }
  }

  /** A search sequence has one place where it stops. */
  lemma SamePlace<V>(slots: seq<Slot<V>>, start: nat, p: nat, q: nat, key: string)
    requires p < |slots| && q < |slots| && start < |slots|
    requires Passed(slots, start, Distance(start, p, |slots|), key)
    requires Passed(slots, start, Distance(start, q, |slots|), key)
    requires !OtherKey(slots[p], key) && !OtherKey(slots[q], key)
    ensures p == q
  {
    ProbeDistance(start, p, |slots|);
    ProbeDistance(start, q, |slots|);
    hide Probe, OtherKey;
  }

  /** Where a search ends, when the key is there and when it is not. */
  lemma FoundMeans<V>(hash: Hash, slots: seq<Slot<V>>, order: seq<nat>, key: string, p: nat)
    requires Table(hash, slots, order) && p < |slots|
    requires slots[p].Used? ==> slots[p].key == key
    requires var start := hash(key) % |slots|; Passed(slots, start, Distance(start, p, |slots|), key)
    ensures Linked(slots, order)
    ensures slots[p].Used? ==>
              exists i :: 0 <= i < |order| && order[i] == p && IndexOf(Contents(slots, order), key) == Some(i)
    ensures slots[p].Vacant? ==> IndexOf(Contents(slots, order), key).None?
  {
    ContentsUnique(hash, slots, order);
    var es, start := Contents(slots, order), hash(key) % |slots|;
    if slots[p].Used? {
      var i :| 0 <= i < |order| && order[i] == p;
      assert es[i].key == key;
      var j := IndexOf(es, key).value;
      assert es[j].key == key;
    } else if IndexOf(es, key).Some? {
      var i := IndexOf(es, key).value;
      assert Holding(slots, order, i);
      var q := order[i];
      assert Reachable(hash, slots, q);
      SamePlace(slots, start, p, q, key);
    }
  }

  // ---- Storing ------------------------------------------------------------

  /** A new entry in slot `p`, linked behind the last one. */
  ghost function Inserted<V>(slots: seq<Slot<V>>, order: seq<nat>, p: nat, key: string, value: V): (r: seq<Slot<V>>)
    requires Linked(slots, order) && p < |slots|
    ensures |r| == |slots|
  {
    var linked :=
      if order == [] then slots
      else
        assert Holding(slots, order, |order| - 1);
        var last := order[|order| - 1];
        slots[last := slots[last].(next := Some(p))];
    linked[p := Used(key, value, None)]
  }

  /** Slots in use keep their keys. */
  ghost predicate KeysKept<V>(slots: seq<Slot<V>>, slots': seq<Slot<V>>) {
    |slots| == |slots'| && forall q :: 0 <= q < |slots| && slots[q].Used? ==>
                             slots'[q].Used? && slots'[q].key == slots[q].key
  }

  lemma ReachableKept<V>(hash: Hash, slots: seq<Slot<V>>, slots': seq<Slot<V>>, p: nat)
    requires KeysKept(slots, slots') && p < |slots| && slots[p].Used? && Reachable(hash, slots, p)
    ensures Reachable(hash, slots', p)
  {
    PassedKept(slots, slots', hash(slots[p].key) % |slots|, Distance(hash(slots[p].key) % |slots|, p, |slots|),
      slots[p].key);
  }

  lemma PassedKept<V>(slots: seq<Slot<V>>, slots': seq<Slot<V>>, start: nat, d: nat, key: string)
    requires KeysKept(slots, slots') && Passed(slots, start, d, key)
    ensures Passed(slots', start, d, key)
  {
    forall e | 0 <= e < d
      ensures OtherKey(slots'[Probe(start, e, |slots'|)], key)
    {
      assert OtherKey(slots[Probe(start, e, |slots|)], key);
    }
  }

  /** Slot `p` is where a search for the key ends. */
  ghost predicate Found<V>(hash: Hash, slots: seq<Slot<V>>, key: string, p: nat) {
    && p < |slots|
    && (slots[p].Used? ==> slots[p].key == key)
    && var start := hash(key) % |slots|;
       Passed(slots, start, Distance(start, p, |slots|), key)
  }

  lemma InsertedSlots<V>(slots: seq<Slot<V>>, order: seq<nat>, p: nat, key: string, value: V)
    requires Linked(slots, order) && p < |slots| && slots[p].Vacant?
    ensures var slots' := Inserted(slots, order, p, key, value);
            && slots'[p] == Used(key, value, None)
            && (forall q :: 0 <= q < |slots| && q != p && (order == [] || q != order[|order| - 1]) ==>
                  slots'[q] == slots[q])
            && (order != [] ==>
                  var last := order[|order| - 1];
                  last < |slots| && last != p && slots[last].Used? && slots'[last] == slots[last].(next := Some(p)))
    ensures KeysKept(slots, Inserted(slots, order, p, key, value))
  {
    if order != [] { assert Holding(slots, order, |order| - 1); }
  }

  lemma InsertLinks<V>(hash: Hash, slots: seq<Slot<V>>, order: seq<nat>, p: nat, key: string, value: V)
    requires Table(hash, slots, order) && p < |slots| && slots[p].Vacant?
    ensures Linked(slots, order) && Linked(Inserted(slots, order, p, key, value), order + [p])
    ensures Contents(Inserted(slots, order, p, key, value), order + [p]) == Contents(slots, order) + [Entry(key, value)]
  {
    hide Reachable, Inserted;
    var slots', order' := Inserted(slots, order, p, key, value), order + [p];
    InsertedSlots(slots, order, p, key, value);
    forall i | 0 <= i < |order'|
      ensures Holding(slots', order', i)
      ensures i < |order| ==> Holding(slots, order, i) && slots'[order[i]].value == slots[order[i]].value
                              && slots'[order[i]].key == slots[order[i]].key
    {
      if i < |order| {
        assert Holding(slots, order, i);
        if i < |order| - 1 {
          assert Apart(slots, order, i, |order| - 1);
        }
      }
    }
  }

  lemma InsertApart<V>(hash: Hash, slots: seq<Slot<V>>, order: seq<nat>, p: nat, key: string, value: V, i: nat, j: nat)
    requires Table(hash, slots, order) && p < |slots| && slots[p].Vacant?
    requires Linked(slots, order) && IndexOf(Contents(slots, order), key).None?
    requires i < j <= |order|
    ensures Apart(Inserted(slots, order, p, key, value), order + [p], i, j)
  {
    hide Reachable, Inserted;
    InsertedSlots(slots, order, p, key, value);
    var es := Contents(slots, order);
    assert Holding(slots, order, i) && es[i].key != key;
    if j < |order| {
      assert Apart(slots, order, i, j) && Holding(slots, order, j);
    }
  }

  lemma InsertOk<V>(hash: Hash, slots: seq<Slot<V>>, order: seq<nat>, p: nat, key: string, value: V)
    requires Table(hash, slots, order) && Found(hash, slots, key, p) && slots[p].Vacant?
    ensures Linked(slots, order) && Table(hash, Inserted(slots, order, p, key, value), order + [p])
    ensures Contents(Inserted(slots, order, p, key, value), order + [p]) == Put(Contents(slots, order), key, value)
  {
    var slots', order' := Inserted(slots, order, p, key, value), order + [p];
    FoundMeans(hash, slots, order, key, p);
    InsertLinks(hash, slots, order, p, key, value);
    InsertedSlots(slots, order, p, key, value);
    hide Inserted, Holding, Apart, Passed, KeysKept;
    forall i, j | 0 <= i < j < |order'|
      ensures Apart(slots', order', i, j)
    {
      InsertApart(hash, slots, order, p, key, value, i, j);
    }
    forall q | 0 <= q < |slots'| && slots'[q].Used?
      ensures q in order' && Reachable(hash, slots', q)
    {
      if q == p {
        PassedKept(slots, slots', hash(key) % |slots|, Distance(hash(key) % |slots|, p, |slots|), key);
      } else {
        assert slots[q].Used?;
        ReachableKept(hash, slots, slots', q);
      }
    }
  }

  function Updated<V>(slots: seq<Slot<V>>, p: nat, key: string, value: V): (r: seq<Slot<V>>)
    requires p < |slots| && slots[p].Used?
    ensures |r| == |slots|
  {
    slots[p := slots[p].(key := key, value := value)]
  }

  lemma UpdateLinks<V>(hash: Hash, slots: seq<Slot<V>>, order: seq<nat>, p: nat, i: nat, key: string, value: V)
    requires Table(hash, slots, order) && p < |slots| && slots[p].Used? && slots[p].key == key
    requires i < |order| && order[i] == p
    ensures Linked(slots, order) && Linked(Updated(slots, p, key, value), order)
    ensures Contents(Updated(slots, p, key, value), order) == Contents(slots, order)[i := Entry(key, value)]
  {
    hide Reachable;
    var slots' := Updated(slots, p, key, value);
    forall j | 0 <= j < |order|
      ensures Holding(slots', order, j) && (j != i ==> order[j] != p)
    {
      assert Holding(slots, order, j);
      assert j < i ==> Apart(slots, order, j, i);
      assert i < j ==> Apart(slots, order, i, j);
    }
    assert forall j :: 0 <= j < |order| ==> Holding(slots, order, j);
  }

  lemma UpdateApart<V>(hash: Hash, slots: seq<Slot<V>>, order: seq<nat>, p: nat, key: string, value: V, j: nat, k: nat)
    requires Table(hash, slots, order) && p < |slots| && slots[p].Used? && slots[p].key == key && j < k < |order|
    ensures Apart(Updated(slots, p, key, value), order, j, k)
  {
    hide Reachable;
    assert Apart(slots, order, j, k);
  }

  lemma UpdateOk<V>(hash: Hash, slots: seq<Slot<V>>, order: seq<nat>, p: nat, key: string, value: V)
    requires Table(hash, slots, order) && Found(hash, slots, key, p) && slots[p].Used?
    ensures Linked(slots, order) && Table(hash, Updated(slots, p, key, value), order)
    ensures Contents(Updated(slots, p, key, value), order) == Put(Contents(slots, order), key, value)
  {
    hide Holding, Reachable, Passed, IndexOf, Apart;
    var slots' := Updated(slots, p, key, value);
    FoundMeans(hash, slots, order, key, p);
    var i :| 0 <= i < |order| && order[i] == p && IndexOf(Contents(slots, order), key) == Some(i);
    UpdateLinks(hash, slots, order, p, i, key, value);
    assert KeysKept(slots, slots');
    hide KeysKept;
    forall j, k | 0 <= j < k < |order|
      ensures Apart(slots', order, j, k)
    {
      UpdateApart(hash, slots, order, p, key, value, j, k);
    }
    forall q | 0 <= q < |slots'| && slots'[q].Used?
      ensures q in order && Reachable(hash, slots', q)
    {
      ReachableKept(hash, slots, slots', q);
    }
  }

  lemma EmptyTable<V>(hash: Hash, slots: seq<Slot<V>>)
    requires forall p :: 0 <= p < |slots| ==> slots[p].Vacant?
    ensures Table(hash, slots, []) && Contents(slots, []) == []
  {
  }

  // ---- The table ----------------------------------------------------------

  predicate Ends(first: Option<nat>, last: Option<nat>, order: seq<nat>) {
    if order == [] then first == None && last == None
    else first == Some(order[0]) && last == Some(order[|order| - 1])
  }

  /** Fills slot `p` and links it behind the last entry. */
  method Store<V>(entries: array<Slot<V>>, first0: Option<nat>, last0: Option<nat>, p: nat, key: string, value: V,
                  ghost order: seq<nat>)
    returns (first: Option<nat>, last: Option<nat>)
    requires Linked(entries[..], order) && Ends(first0, last0, order) && p < entries.Length && entries[p].Vacant?
    modifies entries
    ensures Linked(old(entries[..]), order) && p < |old(entries[..])|
    ensures entries[..] == Inserted(old(entries[..]), order, p, key, value)
    ensures Ends(first, last, order + [p])
  {
    first, last := first0, Some(p);
    if last0.Some? {
      assert Holding(entries[..], order, |order| - 1);
      entries[last0.value] := entries[last0.value].(next := Some(p));
    } else {
      first := Some(p);
    }
    entries[p] := Used(key, value, None);
  }

  class HashTable<V> {
    const hash: Hash
    var count: nat
    var entries: array<Slot<V>>
    var firstEntry: Option<nat>
    var lastEntry: Option<nat>
    /** The linked list, as the slots it runs through. */
    ghost var order: seq<nat>

    /** At most three quarters of the slots are in use. */
    ghost predicate Valid()
      reads this, entries
    {
      && count == |order| && 4 * count <= 3 * entries.Length
      && Table(hash, entries[..], order)
      && Ends(firstEntry, lastEntry, order)
    }

    /** The abstract map: keys and values in first-insertion order. */
    ghost function Map(): seq<Entry<V>>
      requires Valid()
      reads this, entries
    {
      Contents(entries[..], order)
    }

    constructor (hash: Hash)
      ensures Valid() && Map() == [] && this.hash == hash && fresh(entries)
    {
      this.hash := hash;
      count, entries, firstEntry, lastEntry, order := 0, new Slot<V>[0], None, None, [];
      new;
      EmptyTable(hash, entries[..]);
    }

    /** Moves every entry to a larger array, following the links. */
    method AdjustCapacity(capacity: nat)
      requires Valid() && entries.Length < capacity
      modifies this
      ensures Valid() && Map() == old(Map()) && fresh(entries) && entries.Length == capacity
      ensures count == old(count)
    {
      hide Contents, Holding, Apart, Reachable, Passed, Inserted, KeysKept;
      ghost var slots := entries[..];
      var dest := new Slot<V>[capacity](_ => Vacant);
      var first, last: Option<nat> := None, None;
      ghost var moved: seq<nat> := [];
      EmptyTable(hash, dest[..]);
      var src := firstEntry;
      ghost var i := 0;
      while src.Some?
        invariant 0 <= i <= |order| && |moved| == i
        invariant src == if i < |order| then Some(order[i]) else None
        invariant dest.Length == capacity && Table(hash, dest[..], moved) && Ends(first, last, moved)
        invariant Linked(slots, order) && Contents(dest[..], moved) == Contents(slots, order)[..i]
        decreases |order| - i
        modifies dest
      {
        InUse(slots, order, i);
        var entry := entries[src.value];
        ghost var before := dest[..];
        Vacancy(hash, before, moved);
        var p := FindEntry(hash, dest, entry.key);
        MoveOk(hash, slots, order, before, moved, i, p);
        first, last := Store(dest, first, last, p, entry.key, entry.value, moved);
        moved := moved + [p];
        src := entry.next;
        i := i + 1;
      }
      entries, firstEntry, lastEntry, order := dest, first, last, moved;
    }

    /** Makes room for `size` entries; only growing is possible. */
    method Resize(size: nat) returns (ok: bool)
      requires Valid()
      modifies this
      ensures Valid() && Map() == old(Map()) && (entries == old(entries) || fresh(entries))
      ensures ok <==> size * 4 / 3 + 1 >= old(entries.Length)
      ensures entries.Length == if ok then size * 4 / 3 + 1 else old(entries.Length)
    {
      var capacity := size * 4 / 3 + 1;
      if capacity <= entries.Length {
        return capacity == entries.Length;
      }
      AdjustCapacity(capacity);
      return true;
    }

    method Set(key: string, value: V)
      requires Valid()
      modifies this, entries
      ensures Valid() && Map() == Put(old(Map()), key, value)
      ensures entries == old(entries) || fresh(entries)
    {
      hide Contents, Holding, Apart, Reachable, Passed, Inserted, Updated, IndexOf, Put, KeysKept;
      if 4 * (count + 1) > 3 * entries.Length {
        AdjustCapacity((entries.Length + 1) * 2);
      }
      ghost var before := entries[..];
      Vacancy(hash, before, order);
      var entry := FindEntry(hash, entries, key);
      if entries[entry].Vacant? {
        InsertOk(hash, before, order, entry, key, value);
        count := count + 1;
        firstEntry, lastEntry := Store(entries, firstEntry, lastEntry, entry, key, value, order);
        order := order + [entry];
      } else {
        UpdateOk(hash, before, order, entry, key, value);
        StoreUpdate(entries, entry, key, value);
      }
    }

    method Get(key: string) returns (value: Option<V>)
      requires Valid()
      ensures value == Lookup(Map(), key)
    {
      if count == 0 {
        return None;
      }
      Vacancy(hash, entries[..], order);
      var entry := FindEntry(hash, entries, key);
      FoundMeans(hash, entries[..], order, key, entry);
      if entries[entry].Vacant? {
        return None;
      }
      value := Some(entries[entry].value);
    }

    method Has(key: string) returns (has: bool)
      requires Valid()
      ensures has <==> Lookup(Map(), key).Some?
    {
      if count == 0 {
        return false;
      }
      Vacancy(hash, entries[..], order);
      var entry := FindEntry(hash, entries, key);
      FoundMeans(hash, entries[..], order, key, entry);
      has := !entries[entry].Vacant?;
    }

    /** Adds every entry of this table to another one, in order. */
    method Clone(to: HashTable<V>)
      requires Valid() && to.Valid() && to != this && to.entries != entries
      modifies to, to.entries
      ensures to.Valid() && to.Map() == PutAll(old(to.Map()), Map())
      ensures old(to.Map()) == [] ==> to.Map() == Map()
    {
      hide UniqueKeys, Linked, Contents, Holding, Apart, Reachable, Passed, IndexOf, Put, Table;
      ghost var es := Map();
      ContentsUnique(hash, entries[..], order);
      PutAllIntoEmpty(es);
      var entry := firstEntry;
      ghost var i := 0;
      while entry.Some?
        invariant 0 <= i <= |order| && to.Valid() && to.entries != entries
        invariant entry == if i < |order| then Some(order[i]) else None
        invariant to.entries == old(to.entries) || fresh(to.entries)
        invariant to.Map() == PutAll(old(to.Map()), es[..i])
        decreases |order| - i
      {
        InUse(entries[..], order, i);
        to.Set(entries[entry.value].key, entries[entry.value].value);
        assert es[..i + 1][..i] == es[..i];
        entry := entries[entry.value].next;
        i := i + 1;
      }
      assert es[..i] == es;
    }

    /** The scan over all slots that stops when it has seen `count` entries. */
    method Scan() returns (visited: seq<nat>)
      requires Valid()
      ensures AllDistinct(visited) && forall p: nat :: p in visited <==> p in order
    {
      visited := [];
      var i := 0;
      while i < entries.Length && |visited| < count
        invariant 0 <= i <= entries.Length && |visited| <= count
        invariant AllDistinct(visited)
        invariant forall p: nat :: p in visited <==> p < i && entries[p].Used?
      {
        if entries[i].Used? {
          visited := visited + [i];
        }
        i := i + 1;
      }
      AllSeen(hash, entries[..], order, visited, i);
    }
  }

  method StoreUpdate<V>(entries: array<Slot<V>>, p: nat, key: string, value: V)
    requires p < entries.Length && entries[p].Used?
    modifies entries
    ensures p < |old(entries[..])| && old(entries[..])[p].Used?
    ensures entries[..] == Updated(old(entries[..]), p, key, value)
  {
    entries[p] := entries[p].(key := key, value := value);
  }

  /** When as many entries have been seen as there are, all have been seen. */
  lemma AllSeen<V>(hash: Hash, slots: seq<Slot<V>>, order: seq<nat>, visited: seq<nat>, i: nat)
    requires Table(hash, slots, order) && i <= |slots| && AllDistinct(visited)
    requires i == |slots| || |visited| >= |order|
    requires forall p: nat :: p in visited <==> p < i && slots[p].Used?
    ensures forall p: nat :: p in visited <==> p in order
  {
    hide Reachable;
    forall j, k | 0 <= j < k < |order|
      ensures order[j] != order[k]
    {
      assert Apart(slots, order, j, k);
    }
    forall j | 0 <= j < |order|
      ensures order[j] < |slots| && slots[order[j]].Used?
    {
      assert Holding(slots, order, j);
    }
    DistinctCount(visited);
    DistinctCount(order);
    SubsetCount(Members(visited), Members(order));
  }

  lemma InUse<V>(slots: seq<Slot<V>>, order: seq<nat>, i: nat)
    requires Linked(slots, order) && i < |order|
    ensures order[i] < |slots| && slots[order[i]].Used? && Holding(slots, order, i)
    ensures slots[order[i]].next == (if i + 1 < |order| then Some(order[i + 1]) else None)
  {
    assert Holding(slots, order, i);
  }

  lemma NotYet<V>(es: seq<Entry<V>>, i: nat)
    requires UniqueKeys(es) && i < |es|
    ensures IndexOf(es[..i], es[i].key).None? && es[..i + 1] == es[..i] + [es[i]]
  {
    assert forall j :: 0 <= j < i ==> es[..i][j].key != es[i].key;
  }

  /** The next entry of the list is not yet in the new array. */
  lemma MoveOk<V>(hash: Hash, slots: seq<Slot<V>>, order: seq<nat>, dest: seq<Slot<V>>, moved: seq<nat>, i: nat, p: nat)
    requires Table(hash, slots, order) && Linked(slots, order) && i < |order| && Holding(slots, order, i)
    requires Table(hash, dest, moved) && Linked(dest, moved) && Contents(dest, moved) == Contents(slots, order)[..i]
    requires Found(hash, dest, slots[order[i]].key, p)
    ensures dest[p].Vacant?
    ensures var e := Contents(slots, order)[i];
            && e == Entry(slots[order[i]].key, slots[order[i]].value)
            && Table(hash, Inserted(dest, moved, p, e.key, e.value), moved + [p])
            && Linked(Inserted(dest, moved, p, e.key, e.value), moved + [p])
            && Contents(Inserted(dest, moved, p, e.key, e.value), moved + [p]) == Contents(slots, order)[..i + 1]
  {
    var es := Contents(slots, order);
    ContentsUnique(hash, slots, order);
    FoundMeans(hash, dest, moved, es[i].key, p);
    NotYet(es, i);
    hide Reachable, Passed, Inserted, Apart, Holding;
    InsertOk(hash, dest, moved, p, es[i].key, es[i].value);
  }
}