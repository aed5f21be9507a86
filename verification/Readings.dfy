/** Where the library reads instances otherwise than Draft 4.

    The library keeps integers and doubles apart when it compares values
    (`src/jso_value.c`, line 121), takes a double without a fraction for an integer
    (`src/schema/jso_schema_validation_scalar.c`, lines 66-79) and measures strings in bytes
    (`src/schema/jso_schema_validation_string.c`, lines 38-57).  JSON Schema Core draft-04
    compares numbers by value (section 3.6) and takes for integers only numbers written
    without fraction and exponent (section 3.5); JSON Schema Validation draft-04 measures
    strings in characters (section 5.2). */
module Readings {
  import opened Options
  import opened JsonValues
  import opened Schemas

  /** How a document is read: as the library reads values and Draft 4 combines keywords, as the
      streaming validator judges besides, or all as Draft 4 says. */
  datatype Reading = Library | Streamed | Draft4

  // ---- Equality -----------------------------------------------------------

  /** Equality of Draft 4, with numbers of the same value equal. */
  predicate SameValue(a: Json, b: Json)
    decreases a
  {
    match (a, b)
    case (Array(xs), Array(ys)) =>
      |xs| == |ys| && forall i :: 0 <= i < |xs| ==> SameValue(xs[i], ys[i])
    case (Object(xs), Object(ys)) =>
      |xs| == |ys| && forall i :: 0 <= i < |xs| ==>
        var f := Find(ys, xs[i].key);
        f.Some? && SameValue(xs[i].value, ys[f.value].value)
    case _ => (IsNumber(a) && IsNumber(b) && AsReal(a) == AsReal(b)) || a == b
  }

  predicate IsNumber(v: Json) { v.Int? || v.Double? }

  /** Somewhere in matching places of the two values an integer meets a double. */
  predicate Mixed(a: Json, b: Json)
    decreases a
  {
    match (a, b)
    case (Array(xs), Array(ys)) => exists i :: 0 <= i < |xs| && i < |ys| && Mixed(xs[i], ys[i])
    case (Object(xs), Object(ys)) =>
      exists i :: 0 <= i < |xs| && Find(ys, xs[i].key).Some? &&
                  Mixed(xs[i].value, ys[Find(ys, xs[i].key).value].value)
    case _ => IsNumber(a) && IsNumber(b) && a.Int? != b.Int?
  }

  /** The values are equal for Draft 4 and not for the library. */
  predicate Mistaken(a: Json, b: Json) { SameValue(a, b) && Mixed(a, b) }

  /** The library finds values equal exactly when Draft 4 does and no integer meets a double. */
  lemma {:induction false} EqualsIsSame(a: Json, b: Json)
    ensures Equals(a, b) <==> SameValue(a, b) && !Mixed(a, b)
    decreases a
  {
    match (a, b)
    case (Array(xs), Array(ys)) =>
      if |xs| == |ys| {
        forall i | 0 <= i < |xs|
          ensures Equals(xs[i], ys[i]) <==> SameValue(xs[i], ys[i]) && !Mixed(xs[i], ys[i])
        {
          EqualsIsSame(xs[i], ys[i]);
        }
      }
    case (Object(xs), Object(ys)) =>
      forall i | 0 <= i < |xs| && Find(ys, xs[i].key).Some?
        ensures var y := ys[Find(ys, xs[i].key).value].value;
                Equals(xs[i].value, y) <==> SameValue(xs[i].value, y) && !Mixed(xs[i].value, y)
      {
        EqualsIsSame(xs[i].value, ys[Find(ys, xs[i].key).value].value);
      }
    case _ =>
  }

  predicate EnumeratedBy(enumeration: Option<seq<Json>>, v: Json, reading: Reading) {
    if !reading.Draft4? then Enumerated(enumeration, v)
    else enumeration.Some? ==> exists i :: 0 <= i < |enumeration.value| && SameValue(v, enumeration.value[i])
  }

  predicate UniqueBy(items: seq<Json>, reading: Reading) {
    if !reading.Draft4? then Unique(items)
    else forall i, j :: 0 <= i < j < |items| ==> !SameValue(items[i], items[j])
  }

  /** An equal element is listed, or no element is mistaken for a different one. */
  predicate EnumClear(enumeration: Option<seq<Json>>, v: Json) {
    Enumerated(enumeration, v)
    || forall i :: 0 <= i < |enumeration.value| ==> !Mistaken(v, enumeration.value[i])
  }

  lemma EnumAgrees(enumeration: Option<seq<Json>>, v: Json)
    ensures (EnumeratedBy(enumeration, v, Library) <==> EnumeratedBy(enumeration, v, Draft4)) <==>
              EnumClear(enumeration, v)
  {
    if enumeration.Some? {
      var es := enumeration.value;
      forall i | 0 <= i < |es|
        ensures Equals(v, es[i]) <==> SameValue(v, es[i]) && !Mixed(v, es[i])
      {
        EqualsIsSame(v, es[i]);
      }
      hide Equals, SameValue, Mixed;
    }
  }

  /** Two items are equal anyway, or no pair is mistaken for different ones. */
  predicate UniqueClear(items: seq<Json>) {
    !Unique(items) || forall i, j :: 0 <= i < j < |items| ==> !Mistaken(items[i], items[j])
  }

  lemma UniqueAgrees(items: seq<Json>)
    ensures (UniqueBy(items, Library) <==> UniqueBy(items, Draft4)) <==> UniqueClear(items)
  {
    forall i, j | 0 <= i < j < |items|
      ensures Equals(items[i], items[j]) <==> SameValue(items[i], items[j]) && !Mixed(items[i], items[j])
    {
      EqualsIsSame(items[i], items[j]);
    }
    hide Equals, SameValue, Mixed;
  }

  // ---- Integers and lengths -----------------------------------------------

  predicate IsInteger(v: Json, reading: Reading) {
    v.Int? || (!reading.Draft4? && v.Double? && Integral(v.d))
  }

  /** A byte that continues a character of UTF-8. */
  predicate Continuation(c: char) { '\U{0080}' <= c < '\U{00C0}' }

  /** The length of a string: its bytes, or the characters that they encode. */
  function LengthBy(s: string, reading: Reading): (n: nat)
    ensures !reading.Draft4? ==> n == |s|
    ensures n <= |s|
  {
    if !reading.Draft4? then |s|
    else if s == [] then 0
    else LengthBy(s[1..], reading) + (if Continuation(s[0]) then 0 else 1)
  }

  predicate LengthWithin(s: string, minLength: Option<nat>, maxLength: Option<nat>, reading: Reading) {
    var n := LengthBy(s, reading);
    (minLength.Some? ==> n >= minLength.value) && (maxLength.Some? ==> n <= maxLength.value)
  }

  /** No bound between the two lengths decides. */
  predicate LengthClear(s: string, minLength: Option<nat>, maxLength: Option<nat>) {
    var n := LengthBy(s, Draft4);
    && (minLength.Some? && n < minLength.value <= |s| ==> maxLength.Some? && |s| > maxLength.value)
    && (maxLength.Some? && n <= maxLength.value < |s| ==> minLength.Some? && n < minLength.value)
  }

  lemma LengthAgrees(s: string, minLength: Option<nat>, maxLength: Option<nat>)
    ensures (LengthWithin(s, minLength, maxLength, Library) <==> LengthWithin(s, minLength, maxLength, Draft4)) <==>
              LengthClear(s, minLength, maxLength)
  {
    assert LengthBy(s, Draft4) <= |s|;
  }

  lemma {:induction false} BytesAreCharacters(s: string)
    ensures LengthBy(s, Draft4) == |s| <==> forall i :: 0 <= i < |s| ==> !Continuation(s[i])
  {
    if s != [] {
      BytesAreCharacters(s[1..]);
      assert forall i :: 0 < i < |s| ==> s[i] == s[1..][i - 1];
    }
  }
}
