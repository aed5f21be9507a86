/** JSON values as the library holds them, and the structural equality of
    `src/jso_value.c`, `src/jso_array.c` and `src/jso_object.c`. */
module JsonValues {
  import opened Options

  /** A value of one of the seven JSON types.  Doubles are NaN-free and modelled
      as reals; an object keeps its members in insertion order. */
  datatype Json =
    | Null
    | Bool(b: bool)
    | Int(i: int)
    | Double(d: real)
    | String(s: string)
    | Array(items: seq<Json>)
    | Object(members: seq<Member>)

  datatype Member = Member(key: string, value: Json)

  /** The hash table behind an object never holds a key twice. */
  ghost predicate DistinctKeys(ms: seq<Member>) {
    forall i, j :: 0 <= i < j < |ms| ==> ms[i].key != ms[j].key
  }

  ghost predicate WellFormed(v: Json)
  {
    match v
    case Array(items) => forall i :: 0 <= i < |items| ==> WellFormed(items[i])
    case Object(ms) => DistinctKeys(ms) && forall i :: 0 <= i < |ms| ==> WellFormed(ms[i].value)
    case _ => true
  }

  /** Position of the first member with the key, if there is one. */
  function Find(ms: seq<Member>, key: string): (r: Option<nat>)
    ensures r.Some? ==> r.value < |ms| && ms[r.value].key == key
    ensures r.Some? ==> forall i :: 0 <= i < r.value ==> ms[i].key != key
    ensures r.None? ==> forall i :: 0 <= i < |ms| ==> ms[i].key != key
  {
    if ms == [] then None
    else if ms[0].key == key then Some(0)
    else
      var rest := Find(ms[1..], key);
      if rest.None? then
        assert forall i :: 0 < i < |ms| ==> ms[i] == ms[1..][i - 1];
        None
      else Some(rest.value + 1)
  }

  predicate HasKey(ms: seq<Member>, key: string) {
    Find(ms, key).Some?
  }

  predicate Equals(a: Json, b: Json)
    decreases a
  {
    match (a, b)
    case (Null, Null) => true
    case (Bool(x), Bool(y)) => x == y
    case (Int(x), Int(y)) => x == y
    case (Double(x), Double(y)) => x == y
    case (String(x), String(y)) => x == y
    case (Array(xs), Array(ys)) =>
      |xs| == |ys| && forall i :: 0 <= i < |xs| ==> Equals(xs[i], ys[i])
    case (Object(xs), Object(ys)) =>
      |xs| == |ys| && forall i :: 0 <= i < |xs| ==>
        var f := Find(ys, xs[i].key);
        f.Some? && Equals(xs[i].value, ys[f.value].value)
    case _ => false
  }
}

module Options {
  datatype Option<+T> = None | Some(value: T)
}
