/** Validation of one position against the complete value: the common keywords and the
    dispatch by schema type (`src/schema/jso_schema_validation_common.c`,
    `src/schema/jso_schema_validation_value.c`). */
module ValidationValues {
  import opened Options
  import opened JsonValues
  import opened Schemas
  import opened Verdicts
  import opened ValidationStacks
  import opened Layers
  import opened ValidationObjects
  import opened ValidationArrays

  /** The keywords of the schema's own type that wait for the complete value. */
  predicate AtEndOk(data: Data, v: Json)
    requires HasType(data, v)
  {
    match data
    case ArrayData(_, _, unique, _, minItems) => AtLeast(minItems, |v.items|) && (unique ==> Unique(v.items))
    case ObjectData(_, _, minProperties, required, _, _) =>
      && AtLeast(minProperties, |v.members|)
      && forall i :: 0 <= i < |required| ==> HasKey(v.members, required[i])
    case _ => LeafOk(data, v)
  }

  /** The composition flags are as the common keywords demand. */
  predicate FlagsOk(p: Position)
    requires p.schema.Value?
  {
    && (p.schema.anyOf != [] ==> p.anyOfValid)
    && (p.schema.oneOf != [] ==> p.oneOfValid)
    && (p.schema.typeList.Listed? ==> p.typeValid)
  }

  method CommonValue(p: Position, v: Json) returns (result: ValidationResult, reason: InvalidReason)
    requires p.schema.Value?
    ensures result == Valid <==> FlagsOk(p) && Enumerated(p.schema.enumeration, v)
    ensures result == Valid ==> reason == p.reason
    ensures result == Invalid && reason == TypeReason ==> p.schema.typeList.Listed?
  {
    var s := p.schema;
    reason := p.reason;
    if s.anyOf != [] && !p.anyOfValid {
      return Invalid, CompositionReason;
    }
    if s.oneOf != [] && !p.oneOfValid {
      return Invalid, CompositionReason;
    }
    if s.typeList.Listed? && !p.typeValid {
      return Invalid, TypeReason;
    }
    if s.enumeration.Some? {
      var found, i := false, 0;
      while i < |s.enumeration.value|
        invariant 0 <= i <= |s.enumeration.value|
        invariant !found
        invariant forall j :: 0 <= j < i ==> !Equals(v, s.enumeration.value[j])
      {
        if Equals(v, s.enumeration.value[i]) {
          found := true;
          break;
        }
        i := i + 1;
      }
      if !found {
        return Invalid, KeywordReason;
      }
    }
    return Valid, reason;
  }

  method TypedValue(data: Data, v: Json, reason: InvalidReason) returns (result: ValidationResult, after: InvalidReason)
    ensures result == Valid <==> HasType(data, v) && AtEndOk(data, v)
    ensures result == Invalid ==> (if HasType(data, v) then after in {reason, KeywordReason} else after == TypeReason)
    ensures result == Valid ==> after == reason
  {
    if !HasType(data, v) {
      return Invalid, TypeReason;
    }
    match data {
      case ArrayData(_, _, _, _, _) =>
        var ok := ArrayValue(data, v);
        if !ok { return Invalid, KeywordReason; }
      case ObjectData(_, _, _, _, _, _) =>
        var ok := ObjectValue(data, v);
        if !ok { return Invalid, KeywordReason; }
      case StringData(maxLength, minLength, pattern) =>
        // No reason is recorded here.
        if minLength.Some? && |v.s| < minLength.value { return Invalid, reason; }
        if maxLength.Some? && |v.s| > maxLength.value { return Invalid, reason; }
        if pattern.Some? && !pattern.value(v.s) { return Invalid, reason; }
      case IntegerData(bounds) =>
        if !WithinBounds(bounds, v) { return Invalid, KeywordReason; }
      case NumberData(bounds) =>
        if !WithinBounds(bounds, v) { return Invalid, KeywordReason; }
      case _ =>
    }
    return Valid, reason;
  }

  method ValidateValue(stack: ValidationStack, i: nat, v: Json) returns (result: ValidationResult)
    requires i < |stack.positions|
    modifies stack`positions
    ensures |stack.positions| == |old(stack.positions)|
    ensures var p := old(stack.positions[i]);
            && (result == Valid <==>
                  (p.schema.Value? ==>
                     && FlagsOk(p) && Enumerated(p.schema.enumeration, v)
                     && HasType(p.schema.data, v) && AtEndOk(p.schema.data, v)))
            && exists reason ::
                 && stack.positions == old(stack.positions)[i := p.(reason := reason)]
                 && (Plain(p.schema) && result == Invalid && p.reason != TypeReason ==>
                       (reason == TypeReason <==> !HasType(p.schema.data, v)))
  {
    var p := stack.positions[i];
    assert stack.positions == stack.positions[i := p.(reason := p.reason)];
    if p.schema.RefOnly? {
      return Valid;
    }
    var reason;
    result, reason := CommonValue(p, v);
    if result == Valid && !p.schema.data.MixedData? {
      result, reason := TypedValue(p.schema.data, v, reason);
    }
    stack.positions := stack.positions[i := p.(reason := reason)];
    if Plain(p.schema) { PlainHasNoCompositions(p.schema); }
  }

  lemma PlainHasNoCompositions(s: Schema)
    requires Plain(s)
    ensures s.anyOf == [] && s.oneOf == [] && s.typeList == Unlisted
  {
    assert |Children(s)| >= |s.anyOf| + |s.oneOf|;
  }
}
