/** Structural equality of JSON values (`src/jso_value.c`, lines 119-143,
    `src/jso_array.c`, lines 162-211, `src/jso_object.c`, lines 110-130). */
module ValueEquality {
  import opened FiniteSets
  import opened Options
  import opened JsonValues
  import opened Schemas

  // ---- The comparison loops -----------------------------------------------

  method ValueEquals(a: Json, b: Json) returns (equal: bool)
    ensures equal <==> Equals(a, b)
    decreases a, 1
  {
    match (a, b) {
      case (Null, Null) => equal := true;
      case (Bool(x), Bool(y)) => equal := x == y;
      case (Int(x), Int(y)) => equal := x == y;
      case (Double(x), Double(y)) => equal := x == y;
      case (String(x), String(y)) => equal := x == y;
      case (Array(xs), Array(ys)) => equal := ArrayEquals(a, xs, ys);
      case (Object(xs), Object(ys)) => equal := ObjectEquals(a, xs, ys);
      case _ => equal := false;
    }
  }

  method ArrayEquals(ghost a: Json, xs: seq<Json>, ys: seq<Json>) returns (equal: bool)
    requires a == Array(xs)
    ensures equal <==> Equals(a, Array(ys))
    decreases a, 0
  {
    if |xs| != |ys| {
      return false;
    }
    var i := 0;
    while i < |xs|
      invariant 0 <= i <= |xs|
      invariant forall j :: 0 <= j < i ==> Equals(xs[j], ys[j])
    {
      var same := ValueEquals(xs[i], ys[i]);
      if !same {
        return false;
      }
      i := i + 1;
    }
    return true;
  }

  method ObjectEquals(ghost a: Json, xs: seq<Member>, ys: seq<Member>) returns (equal: bool)
    requires a == Object(xs)
    ensures equal <==> Equals(a, Object(ys))
    decreases a, 0
  {
    if |xs| != |ys| {
      return false;
    }
    var i := 0;
    while i < |xs|
      invariant 0 <= i <= |xs|
      invariant forall j :: 0 <= j < i ==> MemberIn(xs[j], ys)
    {
      var found := Find(ys, xs[i].key);
      if found.None? {
        return false;
      }
      var same := ValueEquals(xs[i].value, ys[found.value].value);
      if !same {
        return false;
      }
      i := i + 1;
    }
    return true;
  }

  /** The other object has the key, with an equal value. */
  predicate MemberIn(m: Member, ys: seq<Member>) {
    var f := Find(ys, m.key);
    f.Some? && Equals(m.value, ys[f.value].value)
  }

  method IsUnique(items: seq<Json>) returns (unique: bool)
    ensures unique <==> Unique(items)
  {
    var i := 0;
    while i < |items|
      invariant 0 <= i <= |items|
      invariant forall j, k :: 0 <= j < i && j < k < |items| ==> !Equals(items[j], items[k])
    {
      var j := i + 1;
      while j < |items|
        invariant i < j <= |items|
        invariant forall k :: i < k < j ==> !Equals(items[i], items[k])
      {
        var same := ValueEquals(items[i], items[j]);
        if same {
          return false;
        }
        j := j + 1;
      }
      i := i + 1;
    }
    return true;
  }

  // ---- An equivalence -----------------------------------------------------

  function Keys(ms: seq<Member>): (ks: set<string>)
    ensures forall i :: 0 <= i < |ms| ==> ms[i].key in ks
    ensures forall k :: k in ks ==> HasKey(ms, k)
  {
    set m | m in ms :: m.key
  }

  lemma KeysOf(ms: seq<Member>, k: string)
    ensures k in Keys(ms) <==> HasKey(ms, k)
  {
  }

  lemma {:induction false} KeysCount(ms: seq<Member>)
    requires DistinctKeys(ms)
    ensures |Keys(ms)| == |ms|
  {
    if ms != [] {
      var n := |ms| - 1;
      KeysCount(ms[..n]);
      assert ms == ms[..n] + [ms[n]];
      assert Keys(ms) == Keys(ms[..n]) + {ms[n].key};
      assert ms[n].key !in Keys(ms[..n]);
    }
  }

  /** Objects of equal size, one with all keys of the other: the keys are the same. */
  lemma SameKeys(xs: seq<Member>, ys: seq<Member>)
    requires DistinctKeys(xs) && DistinctKeys(ys) && |xs| == |ys|
    requires forall i :: 0 <= i < |xs| ==> HasKey(ys, xs[i].key)
    ensures forall j :: 0 <= j < |ys| ==> HasKey(xs, ys[j].key)
  {
    KeysCount(xs);
    KeysCount(ys);
    forall k | k in Keys(xs)
      ensures k in Keys(ys)
    {
      KeysOf(ys, k);
    }
    SubsetCount(Keys(xs), Keys(ys));
  }

  lemma FindUnique(ms: seq<Member>, i: nat)
    requires DistinctKeys(ms) && i < |ms|
    ensures Find(ms, ms[i].key) == Some(i)
  {
    var f := Find(ms, ms[i].key);
    assert f.Some?;
  }

  lemma {:induction false} Reflexive(a: Json)
    requires WellFormed(a)
    ensures Equals(a, a)
  {
    match a
    case Array(items) =>
      forall i | 0 <= i < |items| ensures Equals(items[i], items[i]) { Reflexive(items[i]); }
    case Object(ms) =>
      forall i | 0 <= i < |ms|
        ensures Find(ms, ms[i].key) == Some(i) && Equals(ms[i].value, ms[i].value)
      {
        FindUnique(ms, i);
        Reflexive(ms[i].value);
      }
    case _ =>
  }

  lemma {:induction false} Symmetric(a: Json, b: Json)
    requires WellFormed(a) && WellFormed(b) && Equals(a, b)
    ensures Equals(b, a)
    decreases a
  {
    match a
    case Array(xs) =>
      forall i | 0 <= i < |xs| ensures Equals(b.items[i], xs[i]) { Symmetric(xs[i], b.items[i]); }
    case Object(xs) =>
      var ys := b.members;
      SameKeys(xs, ys);
      forall j | 0 <= j < |ys|
        ensures MemberIn(ys[j], xs)
      {
        var i := Find(xs, ys[j].key).value;
        FindUnique(ys, j);
        Symmetric(xs[i].value, ys[j].value);
      }
    case _ =>
  }

  lemma {:induction false} Transitive(a: Json, b: Json, c: Json)
    requires Equals(a, b) && Equals(b, c)
    ensures Equals(a, c)
    decreases a
  {
    match a
    case Array(xs) =>
      forall i | 0 <= i < |xs| ensures Equals(xs[i], c.items[i]) { Transitive(xs[i], b.items[i], c.items[i]); }
    case Object(xs) =>
      forall i | 0 <= i < |xs|
        ensures MemberIn(xs[i], c.members)
      {
        var j := Find(b.members, xs[i].key).value;
        Transitive(xs[i].value, b.members[j].value, c.members[Find(c.members, xs[i].key).value].value);
      }
    case _ =>
  }

  /** The order of the members does not matter. */
  lemma OrderIrrelevant(xs: seq<Member>, ys: seq<Member>)
    requires WellFormed(Object(xs)) && WellFormed(Object(ys))
    requires multiset(xs) == multiset(ys)
    ensures Equals(Object(xs), Object(ys))
  {
    assert |xs| == |multiset(xs)| == |multiset(ys)| == |ys|;
    forall i | 0 <= i < |xs|
      ensures MemberIn(xs[i], ys)
    {
      assert xs[i] in multiset(ys);
      var j :| 0 <= j < |ys| && ys[j] == xs[i];
      FindUnique(ys, j);
      Reflexive(xs[i].value);
    }
  }

  /** An array is unique exactly when no two positions hold equal values, in either order. */
  lemma UniqueBothWays(items: seq<Json>)
    requires forall i :: 0 <= i < |items| ==> WellFormed(items[i])
    ensures Unique(items) <==>
              forall i, j :: 0 <= i < |items| && 0 <= j < |items| && i != j ==> !Equals(items[i], items[j])
  {
    if Unique(items) {
      forall i, j | 0 <= i < |items| && 0 <= j < |items| && i != j
        ensures !Equals(items[i], items[j])
      {
        if j < i && Equals(items[i], items[j]) { Symmetric(items[i], items[j]); }
      }
    }
  }
}
